/** Sequence helpers for the tracker's list bookkeeping: masking out rows,
    the indices of the masked rows, and removing list entries by index. */
module Seqs {

  predicate Distinct<T(==)>(s: seq<T>)
  {
    forall i, j :: 0 <= i < j < |s| ==> s[i] != s[j]
  }

  function Map<T, U>(s: seq<T>, f: T -> U): (r: seq<U>)
    ensures |r| == |s|
    ensures forall k :: 0 <= k < |s| ==> r[k] == f(s[k])
  {
    seq(|s|, k requires 0 <= k < |s| => f(s[k]))
  }

  /** A sequence that agrees with f applied pointwise to s is Map(s, f). */
  lemma MapPointwise<T, U>(s: seq<T>, f: T -> U, r: seq<U>)
    requires |r| == |s|
    requires forall k :: 0 <= k < |s| ==> r[k] == f(s[k])
    ensures r == Map(s, f)
  {
  }

  /** The entries of `s` whose flag is false, in order (numpy's
      compress_rows of a masked array). */
  function Keep<T>(s: seq<T>, drop: seq<bool>): (r: seq<T>)
    requires |s| == |drop|
    ensures |r| <= |s|
  {
    if |s| == 0 then []
    else Keep(s[..|s| - 1], drop[..|s| - 1]) + (if drop[|s| - 1] then [] else [s[|s| - 1]])
  }

  lemma {:induction false} KeepMembers<T>(s: seq<T>, drop: seq<bool>, x: T)
    requires |s| == |drop|
    ensures x in Keep(s, drop) ==> x in s
  {
    if |s| > 0 {
      KeepMembers(s[..|s| - 1], drop[..|s| - 1], x);
    }
  }

  /** Every entry of a masked sequence is an entry of the original. */
  lemma {:induction false} KeepEntries<T>(s: seq<T>, drop: seq<bool>)
    requires |s| == |drop|
    ensures forall i :: 0 <= i < |Keep(s, drop)| ==> Keep(s, drop)[i] in s
  {
    if |s| > 0 {
      var n := |s|;
      var k := Keep(s[..n - 1], drop[..n - 1]);
      KeepEntries(s[..n - 1], drop[..n - 1]);
      forall i | 0 <= i < |Keep(s, drop)|
        ensures Keep(s, drop)[i] in s
      {
        if i < |k| {
          assert Keep(s, drop)[i] == k[i] && k[i] in s[..n - 1];
        } else {
          assert Keep(s, drop)[i] == s[n - 1];
        }
      }
    }
  }

  lemma {:induction false} KeepDistinct<T>(s: seq<T>, drop: seq<bool>)
    requires |s| == |drop| && Distinct(s)
    ensures Distinct(Keep(s, drop))
  {
    if |s| > 0 {
      var n := |s|;
      KeepDistinct(s[..n - 1], drop[..n - 1]);
      KeepMembers(s[..n - 1], drop[..n - 1], s[n - 1]);
    }
  }

  /** Masking commutes with a pointwise map. */
  lemma {:induction false} KeepMap<T, U>(s: seq<T>, f: T -> U, drop: seq<bool>)
    requires |s| == |drop|
    ensures Keep(Map(s, f), drop) == Map(Keep(s, drop), f)
  {
    if |s| > 0 {
      var n := |s|;
      KeepMap(s[..n - 1], f, drop[..n - 1]);
      assert Map(s, f)[..n - 1] == Map(s[..n - 1], f);
      var k := Keep(s[..n - 1], drop[..n - 1]);
      if !drop[n - 1] {
        assert Map(k + [s[n - 1]], f) == Map(k, f) + [f(s[n - 1])];
      }
    }
  }

  /** Indices that can be popped from a list of length n in reverse order:
      the j-th index leaves room for the |idx| - j pops that come before it. */
  ghost predicate Poppable(idx: seq<nat>, n: nat)
  {
    forall j :: 0 <= j < |idx| ==> idx[j] + |idx| - j <= n
  }

  /** The positions whose flag is set, ascending (the `to_del` list). */
  function TrueIndices(flags: seq<bool>): (r: seq<nat>)
    ensures Poppable(r, |flags|)
    ensures forall j :: 0 <= j < |r| ==> r[j] < |flags| && flags[r[j]]
    ensures forall i, j :: 0 <= i < j < |r| ==> r[i] < r[j]
    ensures forall k :: 0 <= k < |flags| && flags[k] ==> k in r
  {
    if |flags| == 0 then []
    else
      var n := |flags|;
      var prev := TrueIndices(flags[..n - 1]);
      if flags[n - 1] then prev + [n - 1] else prev
  }

  /** Appending a flag appends its position when it is set. */
  lemma TrueIndicesAppend(flags: seq<bool>, b: bool)
    ensures TrueIndices(flags + [b]) == TrueIndices(flags) + (if b then [|flags|] else [])
  {
    assert (flags + [b])[..|flags|] == flags;
  }

  /** list.pop(i) */
  function RemoveAt<T>(s: seq<T>, i: nat): (r: seq<T>)
    requires i < |s|
    ensures |r| == |s| - 1
  {
    s[..i] + s[i + 1..]
  }

  /** Pop every index of `idx`, the last one first. */
  function PopAll<T>(s: seq<T>, idx: seq<nat>): (r: seq<T>)
    requires Poppable(idx, |s|)
    ensures |r| == |s| - |idx|
    decreases |idx|
  {
    if |idx| == 0 then s
    else
      var k := |idx|;
      assert idx[k - 1] + 1 <= |s|;
      var rest := idx[..k - 1];
      assert forall j :: 0 <= j < |rest| ==> rest[j] == idx[j];
      PopAll(RemoveAt(s, idx[k - 1]), rest)
  }

  /** Pops below the last position leave the last entry last. */
  lemma {:induction false} PopAllLast<T>(s: seq<T>, idx: seq<nat>)
    requires |s| > 0 && Poppable(idx, |s| - 1)
    ensures PopAll(s, idx) == PopAll(s[..|s| - 1], idx) + [s[|s| - 1]]
    decreases |idx|
  {
    if |idx| > 0 {
      var k := |idx|;
      var last := idx[k - 1];
      var rest := idx[..k - 1];
      assert forall j :: 0 <= j < |rest| ==> rest[j] == idx[j];
      var r := RemoveAt(s, last);
      assert r[..|r| - 1] == RemoveAt(s[..|s| - 1], last);
      assert r[|r| - 1] == s[|s| - 1];
      PopAllLast(r, rest);
    }
  }

  /** A set last flag: its pop removes the last entry, and the mask drops it. */
  lemma PopFlaggedLast<T>(s: seq<T>, flags: seq<bool>)
    requires |s| == |flags| > 0 && flags[|s| - 1]
    ensures var n := |s|;
      && Poppable(TrueIndices(flags[..n - 1]), n - 1)
      && PopAll(s, TrueIndices(flags)) == PopAll(s[..n - 1], TrueIndices(flags[..n - 1]))
      && Keep(s, flags) == Keep(s[..n - 1], flags[..n - 1])
  {
    var n := |s|;
    var prev := TrueIndices(flags[..n - 1]);
    assert TrueIndices(flags) == prev + [n - 1];
    assert (prev + [n - 1])[..|prev|] == prev;
    assert RemoveAt(s, n - 1) == s[..n - 1];
  }

  /** A clear last flag: the pops leave the last entry, and the mask keeps it. */
  lemma PopKeptLast<T>(s: seq<T>, flags: seq<bool>)
    requires |s| == |flags| > 0 && !flags[|s| - 1]
    ensures var n := |s|;
      && Poppable(TrueIndices(flags[..n - 1]), n - 1)
      && PopAll(s, TrueIndices(flags)) == PopAll(s[..n - 1], TrueIndices(flags[..n - 1])) + [s[n - 1]]
      && Keep(s, flags) == Keep(s[..n - 1], flags[..n - 1]) + [s[n - 1]]
  {
    var n := |s|;
    var prev := TrueIndices(flags[..n - 1]);
    assert TrueIndices(flags) == prev;
    PopAllLast(s, prev);
  }

  /** Popping the flagged positions from the highest down leaves exactly
      the unflagged entries, in order. */
  lemma {:induction false} PopAllIsKeep<T>(s: seq<T>, flags: seq<bool>)
    requires |s| == |flags|
    ensures PopAll(s, TrueIndices(flags)) == Keep(s, flags)
  {
    if |s| > 0 {
      var n := |s|;
      PopAllIsKeep(s[..n - 1], flags[..n - 1]);
      if flags[n - 1] {
        PopFlaggedLast(s, flags);
      } else {
        PopKeptLast(s, flags);
      }
    }
  }
}
