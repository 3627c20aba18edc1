/**
 * DedupCache: the hash-set step of `_download`. A fingerprint already in the
 * set is skipped; a new one is added, after clearing the whole set when its
 * size exceeds `max_hashes`, and its file is written.
 */
module DedupCache {

  /** Python's `hash(content)`, an opaque integer. */
  type Fingerprint = int

  /** The largest size the set can reach: one more than `max_hashes`, and at least one. */
  function Cap(maxHashes: int): nat
  {
    if maxHashes >= 0 then maxHashes + 1 else 1
  }

  /** Admitting `h` clears the set first. */
  predicate Clears(seen: set<Fingerprint>, maxHashes: int, h: Fingerprint)
  {
    h !in seen && |seen| > maxHashes
  }

  /** One dedup step: the new set and whether the content is written. */
  function Admit(seen: set<Fingerprint>, maxHashes: int, h: Fingerprint): (set<Fingerprint>, bool)
  {
    if h in seen then (seen, false)
    else
      var kept := if |seen| > maxHashes then {} else seen;
      (kept + {h}, true)
  }

  /** A step never lets the set grow past `Cap(maxHashes)`; the new fingerprint is always in it. */
  lemma AdmitKeepsBound(seen: set<Fingerprint>, maxHashes: int, h: Fingerprint)
    requires |seen| <= Cap(maxHashes)
    ensures |Admit(seen, maxHashes, h).0| <= Cap(maxHashes)
    ensures h in Admit(seen, maxHashes, h).0
  {
    if h !in seen && |seen| <= maxHashes {
      assert |seen + {h}| == |seen| + 1;
    }
  }

  /** Admitting every fingerprint of `hs` in turn: the final set and the fingerprints written, in order. */
  function AdmitAll(seen: set<Fingerprint>, maxHashes: int, hs: seq<Fingerprint>): (set<Fingerprint>, seq<Fingerprint>)
    decreases |hs|
  {
    if hs == [] then (seen, [])
    else
      var (next, written) := Admit(seen, maxHashes, hs[0]);
      var (last, rest) := AdmitAll(next, maxHashes, hs[1..]);
      (last, (if written then [hs[0]] else []) + rest)
  }

  /** Admitting `h` and then `rest` is one step followed by the run over `rest`. */
  lemma AdmitAllCons(seen: set<Fingerprint>, maxHashes: int, h: Fingerprint, rest: seq<Fingerprint>)
    ensures var (next, written) := Admit(seen, maxHashes, h);
      var (last, more) := AdmitAll(next, maxHashes, rest);
      AdmitAll(seen, maxHashes, [h] + rest) == (last, (if written then [h] else []) + more)
  {
    assert ([h] + rest)[1..] == rest;
  }

  /** Admitting `a` and then `b` is the run over `a` followed by the run over `b` from the set it left. */
  lemma {:induction false} AdmitAllAppend(seen: set<Fingerprint>, maxHashes: int, a: seq<Fingerprint>, b: seq<Fingerprint>)
    ensures var (mid, first) := AdmitAll(seen, maxHashes, a);
      var (last, second) := AdmitAll(mid, maxHashes, b);
      AdmitAll(seen, maxHashes, a + b) == (last, first + second)
    decreases |a|
  {
    if a == [] {
      var (last, second) := AdmitAll(seen, maxHashes, b);
      assert a + b == b && [] + second == second;
    } else {
      var (next, written) := Admit(seen, maxHashes, a[0]);
      var w: seq<Fingerprint> := if written then [a[0]] else [];
      assert (a + b)[0] == a[0] && (a + b)[1..] == a[1..] + b;
      AdmitAllAppend(next, maxHashes, a[1..], b);
      var (mid, first) := AdmitAll(next, maxHashes, a[1..]);
      var (last, second) := AdmitAll(mid, maxHashes, b);
      assert AdmitAll(seen, maxHashes, a) == (mid, w + first);
      assert AdmitAll(seen, maxHashes, a + b) == (last, w + (first + second));
      assert w + (first + second) == (w + first) + second;
    }
  }

  /** No step of admitting `hs` clears the set: all of `hs` falls in one epoch. */
  predicate OneEpoch(seen: set<Fingerprint>, maxHashes: int, hs: seq<Fingerprint>)
    decreases |hs|
  {
    hs == [] || (!Clears(seen, maxHashes, hs[0]) && OneEpoch(Admit(seen, maxHashes, hs[0]).0, maxHashes, hs[1..]))
  }

  /** The bound is kept over any run of steps. */
  lemma {:induction false} AdmitAllKeepsBound(seen: set<Fingerprint>, maxHashes: int, hs: seq<Fingerprint>)
    requires |seen| <= Cap(maxHashes)
    ensures |AdmitAll(seen, maxHashes, hs).0| <= Cap(maxHashes)
    decreases |hs|
  {
    if hs != [] {
      AdmitKeepsBound(seen, maxHashes, hs[0]);
      AdmitAllKeepsBound(Admit(seen, maxHashes, hs[0]).0, maxHashes, hs[1..]);
    }
  }

  /** `written` holds no fingerprint twice, and each one comes from `hs` and was not in `seen`. */
  predicate WrittenOnce(written: seq<Fingerprint>, seen: set<Fingerprint>, hs: seq<Fingerprint>)
  {
    && (forall i, j :: 0 <= i < j < |written| ==> written[i] != written[j])
    && (forall i :: 0 <= i < |written| ==> written[i] in hs && written[i] !in seen)
  }

  /** Writes that avoid `seen + {h}` and come from the tail still qualify for the whole of `hs`. */
  lemma WrittenOnceSkip(rest: seq<Fingerprint>, seen: set<Fingerprint>, hs: seq<Fingerprint>)
    requires hs != [] && WrittenOnce(rest, seen + {hs[0]}, hs[1..])
    ensures WrittenOnce(rest, seen, hs)
  {
    forall i | 0 <= i < |rest| ensures rest[i] in hs {
      var k :| 0 <= k < |hs[1..]| && hs[1..][k] == rest[i];
      assert hs[k + 1] == rest[i];
    }
  }

  /** A new fingerprint written before such writes keeps them distinct. */
  lemma WrittenOncePrepend(rest: seq<Fingerprint>, seen: set<Fingerprint>, hs: seq<Fingerprint>)
    requires hs != [] && hs[0] !in seen && WrittenOnce(rest, seen + {hs[0]}, hs[1..])
    ensures WrittenOnce([hs[0]] + rest, seen, hs)
  {
    WrittenOnceSkip(rest, seen, hs);
    var w := [hs[0]] + rest;
    forall i, j | 0 <= i < j < |w| ensures w[i] != w[j] {
      assert w[j] == rest[j - 1];
    }
  }

  /** Within one epoch the set ends as the old one plus every fingerprint seen. */
  lemma {:induction false} EpochSet(seen: set<Fingerprint>, maxHashes: int, hs: seq<Fingerprint>)
    requires OneEpoch(seen, maxHashes, hs)
    ensures AdmitAll(seen, maxHashes, hs).0 == seen + Elems(hs)
    decreases |hs|
  {
    if hs != [] {
      var h := hs[0];
      var next := Admit(seen, maxHashes, h).0;
      assert next == seen + {h};
      EpochSet(next, maxHashes, hs[1..]);
      ElemsCons(hs);
    }
  }

  /**
   * Within one epoch every fingerprint is written at most once, only if it
   * was not already in the set, and every new fingerprint of `hs` is written.
   */
  lemma {:induction false} EpochWritesOnce(seen: set<Fingerprint>, maxHashes: int, hs: seq<Fingerprint>)
    requires OneEpoch(seen, maxHashes, hs)
    ensures WrittenOnce(AdmitAll(seen, maxHashes, hs).1, seen, hs)
    ensures Elems(AdmitAll(seen, maxHashes, hs).1) == Elems(hs) - seen
    decreases |hs|
  {
    if hs != [] {
      var h := hs[0];
      var next := Admit(seen, maxHashes, h).0;
      assert next == seen + {h};
      EpochWritesOnce(next, maxHashes, hs[1..]);
      var rest := AdmitAll(next, maxHashes, hs[1..]).1;
      ElemsCons(hs);
      if h in seen {
        assert AdmitAll(seen, maxHashes, hs).1 == rest;
        WrittenOnceSkip(rest, seen, hs);
      } else {
        assert AdmitAll(seen, maxHashes, hs).1 == [h] + rest;
        WrittenOncePrepend(rest, seen, hs);
        ElemsCons([h] + rest);
        assert ([h] + rest)[1..] == rest;
      }
    }
  }

  /** The fingerprints of a non-empty sequence are its first one and those of the rest. */
  lemma ElemsCons(hs: seq<Fingerprint>)
    requires hs != []
    ensures Elems(hs) == {hs[0]} + Elems(hs[1..])
  {
    assert hs == [hs[0]] + hs[1..];
  }

  /** The fingerprints occurring in `hs`. */
  function Elems(hs: seq<Fingerprint>): set<Fingerprint>
  {
    set h | h in hs
  }

  /**
   * Starting from an empty set, `max_hashes + 1` distinct fingerprints all
   * fit without a clear; the next new fingerprint clears the set, leaving
   * only itself.
   */
  lemma FillThenClear(maxHashes: nat, hs: seq<Fingerprint>, h: Fingerprint)
    requires |hs| == maxHashes + 1
    requires forall i, j :: 0 <= i < j < |hs| ==> hs[i] != hs[j]
    requires h !in hs
    ensures OneEpoch({}, maxHashes, hs)
    ensures |AdmitAll({}, maxHashes, hs).0| == maxHashes + 1
    ensures Admit(AdmitAll({}, maxHashes, hs).0, maxHashes, h) == ({h}, true)
  {
    FillWithoutClear({}, maxHashes, hs);
    EpochSet({}, maxHashes, hs);
  }

  /** Distinct new fingerprints that fit under the bound are admitted without a clear. */
  lemma {:induction false} FillWithoutClear(seen: set<Fingerprint>, maxHashes: nat, hs: seq<Fingerprint>)
    requires |seen| + |hs| <= maxHashes + 1
    requires forall i, j :: 0 <= i < j < |hs| ==> hs[i] != hs[j]
    requires forall i :: 0 <= i < |hs| ==> hs[i] !in seen
    ensures OneEpoch(seen, maxHashes, hs)
    ensures |AdmitAll(seen, maxHashes, hs).0| == |seen| + |hs|
    decreases |hs|
  {
    if hs != [] {
      var next := seen + {hs[0]};
      assert Admit(seen, maxHashes, hs[0]).0 == next;
      assert |next| == |seen| + 1;
      FillWithoutClear(next, maxHashes, hs[1..]);
    }
  }
}
