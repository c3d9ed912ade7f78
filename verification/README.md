# Version-gated local store reset

This project models `useStorageVersioning`. That is the routine the userstyles
import application runs once per page load, before the Vue app mounts. It reads
the version marker kept in `localStorage` under the reserved key
`use-storage-version`. If the marker is not strictly equal (`!==`) to the version
constant the build passes in (`'3/12/24'`), the routine clears the whole store and
writes the constant back as the new marker. Otherwise it does nothing.

The model has three modules:

- `WebStorage` (storage.dfy): the three `localStorage` calls the routine makes.
  These are `getItem`, `setItem` and `clear`, over a store that is an immutable
  `map<string, string>`. `getItem` returns `Option`, and `None` is the `null`
  that `getItem` gives for a missing key.
- `StorageVersioning` (versioning.dfy): the routine as a pure transition
  `UseStorageVersioning(store, lastUpdated) -> store`. It comes with a
  reference description written directly over the map (`ResetSpec`) and lemmas
  for each branch, the first run, idempotence, last-call-wins and the startup
  scenario.
- `Startup` (startup.dfy): a sequence of page loads. Each load runs the reset
  with its build's constant and then lets the application write arbitrary
  entries. Each write is a `setItem`; `ApplyWrites` performs it as the map
  update that is `SetItem`'s body, written inline. A history is a sequence of
  complete page loads that run one after another. The reset is there so that
  state persisted under one version is never read under another.
  `NoStaleState` proves this for every sequential history of page loads,
  provided the application never writes the marker key. Every entry other than the marker then satisfies one
  of the following:
  - it was written by a load of the current *epoch*, meaning the longest run of
    most recent loads that all carried the current version;
  - or it sits unchanged in an initial store that already carried the current
    marker.

  The history lemmas are stated after the first `n` loads of a history whose
  every load leaves the marker key alone. `ReplayPrefix` shows that the store
  after the first `n` loads depends on those loads only. So the lemmas also
  apply after the first `n` loads of a longer history whose later loads do
  write the marker: apply them to the prefix of length `n` as a history of its
  own. `EpochWritesSurvive` proves the converse for keys: whatever the
  current epoch wrote is still there. `ReservedKeyIsNeeded` shows why the
  application must not write the marker key itself.

## Model

| member | source | states |
|---|---|---|
| `WebStorage.GetItem` | src/utils.ts:2 | reading a key gives null exactly when the key is absent, and the stored value otherwise |
| `WebStorage.Clear` | src/utils.ts:3 | after clearing, no key of any name is present |
| `WebStorage.SetItem` | src/utils.ts:4 | writing adds the key with the new value and leaves every other entry as it was |
| `StorageVersioning.UseStorageVersioning` | src/utils.ts:1-6 | afterwards the marker is always the supplied constant; a matching marker leaves the store identical; any other state leaves the marker as the only key |
| `StorageVersioning.ResetMeetsSpec` | src/utils.ts:1-6 | the routine satisfies the branch-by-branch description over the raw map, and that description fixes the outcome uniquely |
| `StorageVersioning.MismatchResetsToMarker` | src/utils.ts:2-4 | a differing or missing marker leaves exactly the store `{use-storage-version: lastUpdated}` |
| `StorageVersioning.MismatchKeepsNoOtherKey` | src/utils.ts:3 | the clear is total: in the mismatch branch no key other than the marker survives, whatever its name or value |
| `StorageVersioning.MatchLeavesStoreUnchanged` | src/utils.ts:2 | with a matching marker every key stays present or absent as before, and every value is unchanged |
| `StorageVersioning.FirstRunWritesMarker` | src/utils.ts:2-4 | with no marker (getItem gives null) the store ends as exactly the one-entry marker store |
| `StorageVersioning.MarkerAlwaysCurrent` | src/utils.ts:2-4 | in both branches the store afterwards maps the reserved key to the constant |
| `StorageVersioning.Idempotent` | src/utils.ts:1-6 | a second call with the same constant gives the same store as one call |
| `StorageVersioning.LastCallWins` | src/utils.ts:2-4 | calls with `a` and then `b`, where `a` differs from `b`, leave exactly `{use-storage-version: b}` |
| `StorageVersioning.StartupScenario` | src/main.ts:9 | the startup constant turns `{use-storage-version: '3/11/24', theme: 'mocha'}` into exactly `{use-storage-version: '3/12/24'}` |
| `Startup.ApplyWritesKeepsKey` | src/main.ts:9-11 | the application's writes after the reset only add keys: every key present before is still present |
| `Startup.ApplyWritesAddsKey` | src/main.ts:9-11 | every key the application writes is present afterwards |
| `Startup.ApplyWritesUntouched` | src/main.ts:9-11 | a key that no write targets reads the same, present or null, before and after the writes |
| `Startup.ApplyWritesSource` | src/main.ts:9-11 | every entry after the writes was there before with the same value, or was put there, with that value, by one of the writes |
| `Startup.ApplyWrites` | src/main.ts:9-11 | the last of a load's writes is the value its key reads afterwards |
| `Startup.ApplyWritesSnoc` | src/main.ts:9-11 | writing one more pair is one more `setItem` on the store the earlier writes left, so the last write to a key wins |
| `Startup.Boot` | src/main.ts:9-11 | a load whose constant matches the marker applies its writes to the store as it was; any other load applies them to the one-entry marker store |
| `Startup.Replay` | src/main.ts:9-11 | no loads leave the store as it was; after a last load with no writes the marker is that load's constant; otherwise the last load's last write reads back |
| `Startup.BootMarks` | src/utils.ts:2-4 | a page load whose writes leave the reserved key alone ends with that load's constant as marker |
| `Startup.BootSource` | src/utils.ts:2-4 | an entry after a load that the load did not write, other than the marker, was already there with the same value, and the marker already matched the load's constant |
| `Startup.BootKeepsMatching` | src/utils.ts:2 | a load whose constant matches the stored marker keeps every existing key |
| `Startup.BootAddsWritten` | src/main.ts:9-11 | a load's store holds every key the load writes |
| `Startup.ReplayPrefix` | src/main.ts:9-11 | the store after the first `n` loads is the same whether they are replayed from the whole history or from any longer prefix of it, so later loads do not affect it |
| `Startup.EpochStart` | src/main.ts:9 | the loads from the returned index up to the last one all carried the last load's constant, and the load just before that index carried a different one |
| `Startup.ReplayMarksLastVersion` | src/utils.ts:2-4 | after any non-empty sequential run of loads the marker is the last load's constant |
| `Startup.EpochOfShorter` | src/utils.ts:2 | when the last two loads share a version, the current epoch began within the shorter history |
| `Startup.CarriedOver` | src/utils.ts:2-4 | an entry that the last load did not write survived from the previous store with its value, and the last load shared the previous load's version |
| `Startup.NoStaleState` | src/utils.ts:1-6 | after any non-empty sequential run of loads, every entry other than the marker, with its value, was written in the current version epoch, or came from an initial store already marked with that version while every load used it |
| `Startup.KeptByMatchingLoad` | src/utils.ts:2 | a load that shares the previous load's version keeps every key |
| `Startup.LastLoadWrites` | src/main.ts:9-11 | every key the last load writes is present after it |
| `Startup.SameVersionWritesSurvive` | src/utils.ts:2 | a key written by a load survives every later load as long as all of them carried the same version |
| `Startup.EpochWritesSurvive` | src/utils.ts:2 | every key written during the current epoch is still present |
| `Startup.StampingLoad` | src/utils.ts:2-4 | a first load whose writes end by stamping another version leaves the store holding that stamp and the written entry |
| `Startup.ReservedKeyIsNeeded` | src/utils.ts:2 | if the application writes the marker key, an entry written under an older version survives a load of a newer one |

## Left out

- Storage failures: `localStorage` being unavailable, or `setItem` throwing when the quota is exceeded. The routine does not handle either, so the store is modelled as a total in-memory map.
- The application's own storage use: the Vue components are not part of this model. Their writes are an arbitrary sequence of `setItem` pairs, `removeItem` is not modelled, and the history lemmas assume the writes never touch the reserved marker key.
- Other tabs: every tab of the same origin shares one `localStorage`. A tab still running an older build can call `setItem` after a newer tab has reset the store and stamped its marker. `Session` runs each load to completion, so that interleaving cannot be expressed, and the history lemmas do not cover it.
- Import order: `import App from './App.vue'` (src/main.ts:2) is evaluated before the reset at src/main.ts:9. Storage access in the top-level code of modules that App imports therefore happens before the reset, not after it. The model places all of the application's storage use after the reset.
- String encoding: Dafny strings are sequences of Unicode scalar values, while JavaScript strings are sequences of UTF-16 code units. Keys or values holding a lone surrogate cannot be represented. On every string that can be represented, `!==` and Dafny's `!=` agree.
- Vue app creation and mounting (src/main.ts): only the version constant and the order "reset, then mount" are used.
- The userstyle export schema (src/types.ts): a passive type schema with no operations, so no behaviour depends on it.
- The UnoCSS configuration (uno.config.ts): CSS generation over an external palette library.
- The release-asset download script (update.js): network and file-system plumbing only.
