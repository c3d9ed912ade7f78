/**
  The version-gated reset of the local store that the application runs at
  startup: if the version marker stored under `use-storage-version` is not
  exactly the expected constant, the whole store is wiped and the constant is
  written back as the new marker; otherwise nothing happens.
 */
module StorageVersioning {
  import opened WebStorage

  /** The reserved key under which the last applied version is kept. */
  const VersionKey: string := "use-storage-version"

  /** The version constant the application passes at startup. */
  const StartupVersion: string := "3/12/24"

  /** The store carries `version` as its marker. */
  predicate Marks(s: Store, version: string) {
    GetItem(s, VersionKey) == Some(version)
  }

  /**
    `useStorageVersioning(lastUpdated)` as a transition of the store. A missing
    marker reads as null, which is never strictly equal to a string, so a first
    run takes the reset branch.
   */
  function UseStorageVersioning(s: Store, lastUpdated: string): (r: Store)
    ensures Marks(r, lastUpdated)
    ensures Marks(s, lastUpdated) ==> r == s
    ensures !Marks(s, lastUpdated) ==> r.Keys == {VersionKey}
  {
    if GetItem(s, VersionKey) != Some(lastUpdated) then
      SetItem(Clear(s), VersionKey, lastUpdated)
    else
      s
  }

  /**
    A description of the reset written directly over the map, independent of
    the storage primitives: a matching marker leaves the store as it was, any
    other state (a different marker or none) ends as the one-entry store.
   */
  ghost predicate ResetSpec(before: Store, version: string, after: Store) {
    if VersionKey in before && before[VersionKey] == version then
      after == before
    else
      after.Keys == {VersionKey} && after[VersionKey] == version
  }

  /** The routine meets the description, and the description admits no other outcome. */
  lemma ResetMeetsSpec(s: Store, version: string, other: Store)
    ensures ResetSpec(s, version, UseStorageVersioning(s, version))
    ensures ResetSpec(s, version, other) ==> other == UseStorageVersioning(s, version)
  {
  }

  /** Mismatch: the result is exactly the one-entry store holding the new marker. */
  lemma MismatchResetsToMarker(s: Store, version: string)
    requires !Marks(s, version)
    ensures UseStorageVersioning(s, version) == map[VersionKey := version]
  {
  }

  /** The clear is total: after a mismatch no key other than the marker survives. */
  lemma MismatchKeepsNoOtherKey(s: Store, version: string, k: string)
    requires !Marks(s, version)
    requires k != VersionKey
    ensures k !in UseStorageVersioning(s, version)
  {
  }

  /** Match: every key and every value of the store is left as it was. */
  lemma MatchLeavesStoreUnchanged(s: Store, version: string, k: string)
    requires Marks(s, version)
    ensures k in UseStorageVersioning(s, version) <==> k in s
    ensures k in s ==> UseStorageVersioning(s, version)[k] == s[k]
  {
  }

  /** First run: with no marker at all the store ends as exactly the marker entry. */
  lemma FirstRunWritesMarker(s: Store, version: string)
    requires VersionKey !in s
    ensures UseStorageVersioning(s, version) == map[VersionKey := version]
  {
  }

  /** Whatever the branch, the store afterwards maps the reserved key to the constant. */
  lemma MarkerAlwaysCurrent(s: Store, version: string)
    ensures VersionKey in UseStorageVersioning(s, version)
    ensures UseStorageVersioning(s, version)[VersionKey] == version
  {
  }

  /** A second call with the same constant changes nothing. */
  lemma Idempotent(s: Store, version: string)
    ensures UseStorageVersioning(UseStorageVersioning(s, version), version)
         == UseStorageVersioning(s, version)
  {
  }

  /** Two calls with different constants leave only the second one's marker. */
  lemma LastCallWins(s: Store, a: string, b: string)
    requires a != b
    ensures UseStorageVersioning(UseStorageVersioning(s, a), b) == map[VersionKey := b]
  {
  }

  /**
    The startup call with a store last stamped by the previous version and
    holding a theme preference.
   */
  lemma StartupScenario()
    ensures UseStorageVersioning(map[VersionKey := "3/11/24", "theme" := "mocha"], StartupVersion)
         == map[VersionKey := StartupVersion]
  {
  }
}
