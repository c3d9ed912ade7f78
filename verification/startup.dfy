/**
  Repeated page loads. Each load calls the reset with the version constant of
  the build being loaded and then lets the application write entries with
  `setItem`. The application's own writes are not part of this model, so they
  are an arbitrary sequence of key/value pairs.

  Loads run one after another: a history is a sequence of complete loads, and
  writes from two tabs open at the same time are never interleaved.

  The reset exists so that state persisted under one version is never read
  under another. `NoStaleState` proves that for every sequential history of
  page loads, provided no load writes the reserved key `use-storage-version`:
  every entry other than the marker was written during the current run of
  loads that all carried the current version, or it was in the initial store,
  which already carried that marker, while every load used that version.
  `ReservedKeyIsNeeded` shows that the proviso cannot be dropped.
 */
module Startup {
  import opened WebStorage
  import opened StorageVersioning

  /** One page load: the constant passed to the reset and the application's writes after it. */
  datatype Session = Session(version: string, writes: seq<(string, string)>)

  /** The application's writes leave the reserved marker key alone. */
  predicate RespectsMarker(ws: seq<(string, string)>) {
    forall w :: w in ws ==> w.0 != VersionKey
  }

  /** No load in the history writes the reserved marker key. */
  predicate HistoryRespectsMarker(h: seq<Session>) {
    forall i :: 0 <= i < |h| ==> RespectsMarker(h[i].writes)
  }

  /** The last of a non-empty sequence of writes. */
  function Last(ws: seq<(string, string)>): (string, string)
    requires |ws| > 0
  {
    ws[|ws| - 1]
  }

  /**
    Applies the application's writes in order, each one a `setItem`. The update
    `s[key := value]` is `WebStorage.SetItem`'s body written inline. The last
    write of the sequence is the one its key reads afterwards.
   */
  function ApplyWrites(s: Store, ws: seq<(string, string)>): (r: Store)
    ensures |ws| > 0 ==> GetItem(r, Last(ws).0) == Some(Last(ws).1)
    decreases |ws|
  {
    if ws == [] then s
    else ApplyWrites(s[ws[0].0 := ws[0].1], ws[1..])
  }

  /** Writing one more pair is one more `setItem` on the store the earlier writes left. */
  lemma {:induction false} ApplyWritesSnoc(s: Store, ws: seq<(string, string)>, w: (string, string))
    ensures ApplyWrites(s, ws + [w]) == ApplyWrites(s, ws)[w.0 := w.1]
    decreases |ws|
  {
    if ws == [] {
      assert ws + [w] == [w];
      assert [w][1..] == [];
    } else {
      assert (ws + [w])[0] == ws[0];
      assert (ws + [w])[1..] == ws[1..] + [w];
      ApplyWritesSnoc(s[ws[0].0 := ws[0].1], ws[1..], w);
    }
  }

  /** Writes only add keys: every key present before is present after. */
  lemma {:induction false} ApplyWritesKeepsKey(s: Store, ws: seq<(string, string)>, k: string)
    requires k in s
    ensures k in ApplyWrites(s, ws)
    decreases |ws|
  {
    if ws != [] {
      ApplyWritesKeepsKey(s[ws[0].0 := ws[0].1], ws[1..], k);
    }
  }

  /** Every written key is present afterwards. */
  lemma {:induction false} ApplyWritesAddsKey(s: Store, ws: seq<(string, string)>, w: (string, string))
    requires w in ws
    ensures w.0 in ApplyWrites(s, ws)
    decreases |ws|
  {
    var s' := s[ws[0].0 := ws[0].1];
    if w == ws[0] {
      ApplyWritesKeepsKey(s', ws[1..], w.0);
    } else {
      ApplyWritesAddsKey(s', ws[1..], w);
    }
  }

  /** A key no write touches reads the same before and after the writes. */
  lemma {:induction false} ApplyWritesUntouched(s: Store, ws: seq<(string, string)>, k: string)
    requires forall w :: w in ws ==> w.0 != k
    ensures GetItem(ApplyWrites(s, ws), k) == GetItem(s, k)
    decreases |ws|
  {
    if ws != [] {
      ApplyWritesUntouched(s[ws[0].0 := ws[0].1], ws[1..], k);
    }
  }

  /** Every entry after the writes either was there before with the same value or was put there by a write. */
  lemma {:induction false} ApplyWritesSource(s: Store, ws: seq<(string, string)>, k: string)
    requires k in ApplyWrites(s, ws)
    ensures || (k in s && ApplyWrites(s, ws)[k] == s[k])
            || (k, ApplyWrites(s, ws)[k]) in ws
    decreases |ws|
  {
    if ws != [] {
      var s' := s[ws[0].0 := ws[0].1];
      ApplyWritesSource(s', ws[1..], k);
      assert ws == [ws[0]] + ws[1..];
    }
  }

  /** One page load: the reset with the build's constant, then the application's writes. */
  function Boot(s: Store, session: Session): (r: Store)
    ensures Marks(s, session.version) ==> r == ApplyWrites(s, session.writes)
    ensures !Marks(s, session.version) ==> r == ApplyWrites(map[VersionKey := session.version], session.writes)
  {
    ApplyWrites(UseStorageVersioning(s, session.version), session.writes)
  }

  /** A load whose writes leave the marker alone ends with its own constant as marker. */
  lemma BootMarks(s: Store, session: Session)
    requires RespectsMarker(session.writes)
    ensures Marks(Boot(s, session), session.version)
  {
    ApplyWritesUntouched(UseStorageVersioning(s, session.version), session.writes, VersionKey);
  }

  /**
    An entry after a load that the load did not write, other than the marker,
    was already there with the same value, and the marker already matched.
   */
  lemma BootSource(s: Store, session: Session, k: string)
    requires k in Boot(s, session) && k != VersionKey
    requires (k, Boot(s, session)[k]) !in session.writes
    ensures Marks(s, session.version) && k in s && s[k] == Boot(s, session)[k]
  {
    ApplyWritesSource(UseStorageVersioning(s, session.version), session.writes, k);
  }

  /** A load keeps every key of a store that already carries its constant. */
  lemma BootKeepsMatching(s: Store, session: Session, k: string)
    requires Marks(s, session.version) && k in s
    ensures k in Boot(s, session)
  {
    ApplyWritesKeepsKey(UseStorageVersioning(s, session.version), session.writes, k);
  }

  /** A load's store holds every key the load writes. */
  lemma BootAddsWritten(s: Store, session: Session, w: (string, string))
    requires w in session.writes
    ensures w.0 in Boot(s, session)
  {
    ApplyWritesAddsKey(UseStorageVersioning(s, session.version), session.writes, w);
  }

  /** The store after the first `n` loads of `h`, in order, starting from `s`. */
  function Replay(s: Store, h: seq<Session>, n: nat): (r: Store)
    requires n <= |h|
    ensures n == 0 ==> r == s
    ensures n > 0 && h[n - 1].writes == [] ==> Marks(r, h[n - 1].version)
    ensures n > 0 && |h[n - 1].writes| > 0 ==>
      GetItem(r, Last(h[n - 1].writes).0) == Some(Last(h[n - 1].writes).1)
  {
    if n == 0 then s else Boot(Replay(s, h, n - 1), h[n - 1])
  }

  /**
    The store after the first `n` loads depends only on those loads: replaying
    them from any longer prefix of the history gives the same store.
   */
  lemma {:induction false} ReplayPrefix(s: Store, h: seq<Session>, n: nat, m: nat)
    requires n <= m <= |h|
    ensures Replay(s, h, n) == Replay(s, h[..m], n)
    decreases n
  {
    if n > 0 {
      ReplayPrefix(s, h, n - 1, m);
      assert h[..m][n - 1] == h[n - 1];
    }
  }

  /**
    The index at which the epoch of the first `n` loads starts: the longest
    run of loads ending at load `n - 1` that all carried that load's version.
   */
  function EpochStart(h: seq<Session>, n: nat): (e: nat)
    requires 0 < n <= |h|
    ensures e < n
    ensures forall j :: e <= j < n ==> h[j].version == h[n - 1].version
    ensures e > 0 ==> h[e - 1].version != h[n - 1].version
  {
    if n == 1 then 0
    else if h[n - 2].version == h[n - 1].version then EpochStart(h, n - 1)
    else n - 1
  }

  /** After at least one load the marker is the last load's constant. */
  lemma ReplayMarksLastVersion(s: Store, h: seq<Session>, n: nat)
    requires 0 < n <= |h|
    requires HistoryRespectsMarker(h)
    ensures Marks(Replay(s, h, n), h[n - 1].version)
  {
    assert RespectsMarker(h[n - 1].writes);
    BootMarks(Replay(s, h, n - 1), h[n - 1]);
  }

  /**
    An entry other than the marker that is present after the first `n` loads
    was written, with that very value, by a load of the current epoch, or it
    comes unchanged from an initial store that already carried the current
    marker while every load used that same version.
   */
  ghost predicate FromCurrentEpoch(s: Store, h: seq<Session>, n: nat, k: string, value: string)
    requires 0 < n <= |h|
  {
    || (exists i :: EpochStart(h, n) <= i < n && (k, value) in h[i].writes)
    || (EpochStart(h, n) == 0 && Marks(s, h[n - 1].version) && k in s && s[k] == value)
  }

  /** When the last two loads share a version, the epoch started within the shorter history. */
  lemma EpochOfShorter(h: seq<Session>, n: nat)
    requires 1 < n <= |h|
    requires h[n - 2].version == h[n - 1].version
    ensures EpochStart(h, n) == EpochStart(h, n - 1)
  {
  }

  /**
    An entry that load `n - 1` did not write was already there, with the same
    value, and that load shared the previous load's version.
   */
  lemma CarriedOver(s: Store, h: seq<Session>, n: nat, k: string)
    requires 1 < n <= |h|
    requires HistoryRespectsMarker(h)
    requires k in Replay(s, h, n) && k != VersionKey
    requires (k, Replay(s, h, n)[k]) !in h[n - 1].writes
    ensures k in Replay(s, h, n - 1) && Replay(s, h, n - 1)[k] == Replay(s, h, n)[k]
    ensures EpochStart(h, n) == EpochStart(h, n - 1)
  {
    BootSource(Replay(s, h, n - 1), h[n - 1], k);
    ReplayMarksLastVersion(s, h, n - 1);
    EpochOfShorter(h, n);
  }

  /** No entry written under an older version survives a load of a newer one. */
  lemma {:induction false} NoStaleState(s: Store, h: seq<Session>, n: nat, k: string)
    requires 0 < n <= |h|
    requires HistoryRespectsMarker(h)
    ensures k in Replay(s, h, n) && k != VersionKey ==> FromCurrentEpoch(s, h, n, k, Replay(s, h, n)[k])
    decreases n
  {
    if k in Replay(s, h, n) && k != VersionKey {
      var value := Replay(s, h, n)[k];
      if (k, value) in h[n - 1].writes {
        assert EpochStart(h, n) <= n - 1;
      } else if n == 1 {
        assert Replay(s, h, 1) == Boot(s, h[0]);
        BootSource(s, h[0], k);
      } else {
        CarriedOver(s, h, n, k);
        NoStaleState(s, h, n - 1, k);
      }
    }
  }

  /** A load that shares the previous load's version keeps every key. */
  lemma KeptByMatchingLoad(s: Store, h: seq<Session>, n: nat, k: string)
    requires 1 < n <= |h|
    requires HistoryRespectsMarker(h)
    requires h[n - 2].version == h[n - 1].version
    requires k in Replay(s, h, n - 1)
    ensures k in Replay(s, h, n)
  {
    ReplayMarksLastVersion(s, h, n - 1);
    BootKeepsMatching(Replay(s, h, n - 1), h[n - 1], k);
  }

  /** Every key the last of the first `n` loads writes is present after it. */
  lemma LastLoadWrites(s: Store, h: seq<Session>, n: nat, w: (string, string))
    requires 0 < n <= |h|
    requires w in h[n - 1].writes
    ensures w.0 in Replay(s, h, n)
  {
    BootAddsWritten(Replay(s, h, n - 1), h[n - 1], w);
  }

  /**
    A key written by load `i` is still present after the first `n` loads when
    every load from `i` on carried the same version.
   */
  lemma {:induction false} SameVersionWritesSurvive(s: Store, h: seq<Session>, n: nat, i: nat, w: (string, string))
    requires i < n <= |h|
    requires HistoryRespectsMarker(h)
    requires forall j :: i <= j < n ==> h[j].version == h[i].version
    requires w in h[i].writes
    ensures w.0 in Replay(s, h, n)
    decreases n
  {
    if i < n - 1 {
      SameVersionWritesSurvive(s, h, n - 1, i, w);
      KeptByMatchingLoad(s, h, n, w.0);
    } else {
      LastLoadWrites(s, h, n, w);
    }
  }

  /** Every key written during the current epoch is still present after the first `n` loads. */
  lemma EpochWritesSurvive(s: Store, h: seq<Session>, n: nat, i: nat, w: (string, string))
    requires 0 < n <= |h|
    requires HistoryRespectsMarker(h)
    requires EpochStart(h, n) <= i < n
    requires w in h[i].writes
    ensures w.0 in Replay(s, h, n)
  {
    SameVersionWritesSurvive(s, h, n, i, w);
  }

  /** A load of `a` whose writes end by stamping the marker with `b`. */
  lemma {:induction false} StampingLoad(a: string, b: string, k: string, value: string)
    requires a != b && k != VersionKey
    ensures Boot(map[], Session(a, [(k, value), (VersionKey, b)])) == map[VersionKey := b, k := value]
  {
    var ws := [(k, value), (VersionKey, b)];
    var reset := UseStorageVersioning(map[], a);
    FirstRunWritesMarker(map[], a);
    var s0 := reset[k := value];
    var s1 := s0[VersionKey := b];
    assert ApplyWrites(reset, ws) == ApplyWrites(s0, ws[1..]);
    assert ws[1..] == [(VersionKey, b)] && ws[1..][1..] == [];
    assert ApplyWrites(s0, ws[1..]) == ApplyWrites(s1, []);
    assert s1 == map[VersionKey := b, k := value];
  }

  /**
    Writing the reserved key defeats the reset: a load of version `a` that
    stamps the marker with `b` lets its entry survive a later load of `b`.
   */
  lemma {:induction false} ReservedKeyIsNeeded(a: string, b: string, k: string, value: string)
    requires a != b && k != VersionKey
    ensures var h := [Session(a, [(k, value), (VersionKey, b)]), Session(b, [])];
            && k in Replay(map[], h, 2)
            && EpochStart(h, 2) == 1
            && !FromCurrentEpoch(map[], h, 2, k, Replay(map[], h, 2)[k])
  {
    var h := [Session(a, [(k, value), (VersionKey, b)]), Session(b, [])];
    var s1 := map[VersionKey := b, k := value];
    StampingLoad(a, b, k, value);
    assert Replay(map[], h, 1) == s1;
    assert Marks(s1, b);
    assert Replay(map[], h, 2) == Boot(s1, h[1]) == s1;
  }
}
