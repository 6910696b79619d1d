/** Data association (Tracker._associate_detections_to_tracks): the IoU
    matrix, the assignment oracle, and the split of its proposal into
    matches, unmatched detections and unmatched trackers. */
module Association {
  import opened Geometry
  import opened Records
  import opened Seqs

  /** A (detection index, tracker index) pair. */
  type Pair = (nat, nat)

  /** The assignment solver (scipy's linear_sum_assignment on the negated
      matrix) is not part of this model; it is a parameter. */
  type Solver = seq<seq<real>> -> seq<Pair>

  function IoURow(b: Box, trks: seq<Box>): (row: seq<real>)
    ensures |row| == |trks|
    ensures forall t :: 0 <= t < |trks| ==> row[t] == IoU(b, trks[t])
  {
    seq(|trks|, t requires 0 <= t < |trks| => IoU(b, trks[t]))
  }

  /** iou_matrix[d, t] = IoU(detection d, predicted box t) */
  function IoUMatrix(dets: seq<Detection>, trks: seq<Box>): (m: seq<seq<real>>)
    ensures |m| == |dets|
    ensures forall d :: 0 <= d < |dets| ==> m[d] == IoURow(dets[d].bbox, trks)
  {
    seq(|dets|, d requires 0 <= d < |dets| => IoURow(dets[d].bbox, trks))
  }

  function ColumnCount(m: seq<seq<real>>): nat
  {
    if |m| == 0 then 0 else |m[0]|
  }

  ghost predicate Rectangular(m: seq<seq<real>>)
  {
    forall i :: 0 <= i < |m| ==> |m[i]| == ColumnCount(m)
  }

  predicate InRange(pairs: seq<Pair>, n: nat, k: nat)
  {
    forall j :: 0 <= j < |pairs| ==> pairs[j].0 < n && pairs[j].1 < k
  }

  /** No row and no column is used twice. */
  predicate Injective(pairs: seq<Pair>)
  {
    forall i, j :: 0 <= i < j < |pairs| ==> pairs[i].0 != pairs[j].0 && pairs[i].1 != pairs[j].1
  }

  /** What the solver returns for an n x k matrix: min(n, k) pairs in range,
      rows ascending, no row or column twice. */
  ghost predicate IsAssignment(pairs: seq<Pair>, n: nat, k: nat)
  {
    && InRange(pairs, n, k)
    && Injective(pairs)
    && |pairs| == (if n <= k then n else k)
    && forall i, j :: 0 <= i < j < |pairs| ==> pairs[i].0 < pairs[j].0
  }

  ghost predicate IsSolver(solve: Solver)
  {
    forall m :: Rectangular(m) ==> IsAssignment(solve(m), |m|, ColumnCount(m))
  }

  /** The solver's proposal; no call when the matrix has an empty dimension. */
  function Proposed(dets: seq<Detection>, trks: seq<Box>, solve: Solver): seq<Pair>
  {
    if |dets| > 0 && |trks| > 0 then solve(IoUMatrix(dets, trks)) else []
  }

  predicate ProposalInRange(dets: seq<Detection>, trks: seq<Box>, solve: Solver)
  {
    InRange(Proposed(dets, trks, solve), |dets|, |trks|)
  }

  lemma SolverProposal(dets: seq<Detection>, trks: seq<Box>, solve: Solver)
    requires IsSolver(solve)
    ensures ProposalInRange(dets, trks, solve)
    ensures Injective(Proposed(dets, trks, solve))
    ensures |dets| == 0 || |trks| == 0 ==> Proposed(dets, trks, solve) == []
  {
    if |dets| > 0 && |trks| > 0 {
      var m := IoUMatrix(dets, trks);
      assert ColumnCount(m) == |trks|;
      assert Rectangular(m);
    }
  }

  function Score(p: Pair, dets: seq<Detection>, trks: seq<Box>): real
    requires p.0 < |dets| && p.1 < |trks|
  {
    IoU(dets[p.0].bbox, trks[p.1])
  }

  /** The proposed pairs whose IoU reaches the threshold, in order. */
  function Accepted(pairs: seq<Pair>, dets: seq<Detection>, trks: seq<Box>, threshold: real): (r: seq<Pair>)
    requires InRange(pairs, |dets|, |trks|)
    ensures InRange(r, |dets|, |trks|)
  {
    if |pairs| == 0 then []
    else
      var p := pairs[|pairs| - 1];
      Accepted(pairs[..|pairs| - 1], dets, trks, threshold)
        + (if Score(p, dets, trks) < threshold then [] else [p])
  }

  /** The proposed pairs whose IoU is below the threshold, in order. */
  function Rejected(pairs: seq<Pair>, dets: seq<Detection>, trks: seq<Box>, threshold: real): (r: seq<Pair>)
    requires InRange(pairs, |dets|, |trks|)
    ensures InRange(r, |dets|, |trks|)
  {
    if |pairs| == 0 then []
    else
      var p := pairs[|pairs| - 1];
      Rejected(pairs[..|pairs| - 1], dets, trks, threshold)
        + (if Score(p, dets, trks) < threshold then [p] else [])
  }

  /** The row (col == false) or column (col == true) of every pair. */
  function Indices(pairs: seq<Pair>, col: bool): (r: seq<nat>)
    ensures |r| == |pairs|
    ensures forall j :: 0 <= j < |pairs| ==> r[j] == if col then pairs[j].1 else pairs[j].0
  {
    seq(|pairs|, j requires 0 <= j < |pairs| => if col then pairs[j].1 else pairs[j].0)
  }

  function RowsOf(pairs: seq<Pair>): seq<nat> { Indices(pairs, false) }
  function ColsOf(pairs: seq<Pair>): seq<nat> { Indices(pairs, true) }

  /** np.arange(n) */
  function Range(n: nat): (r: seq<nat>)
    ensures |r| == n
    ensures forall k :: 0 <= k < n ==> r[k] == k
  {
    seq(n, k requires 0 <= k < n => k)
  }

  /** The indices below n that do not occur in xs, ascending. */
  function Missing(n: nat, xs: seq<nat>): seq<nat>
  {
    if n == 0 then [] else Missing(n - 1, xs) + (if n - 1 in xs then [] else [n - 1])
  }

  datatype Assignment = Assignment(matches: seq<Pair>, unmatchedDets: seq<nat>, unmatchedTrks: seq<nat>)

  /** The value _associate_detections_to_tracks returns. */
  function Associated(dets: seq<Detection>, trks: seq<Box>, threshold: real, solve: Solver): Assignment
    requires ProposalInRange(dets, trks, solve)
  {
    if |trks| == 0 then Assignment([], Range(|dets|), [])
    else
      var pairs := Proposed(dets, trks, solve);
      var rejected := Rejected(pairs, dets, trks, threshold);
      Assignment(
        Accepted(pairs, dets, trks, threshold),
        RowsOf(rejected) + Missing(|dets|, RowsOf(pairs)),
        ColsOf(rejected) + Missing(|trks|, ColsOf(pairs)))
  }

  /** The IoU matrix loop: one row per detection, one column per tracker. */
  method BuildIoUMatrix(dets: seq<Detection>, trks: seq<Box>) returns (iouMatrix: seq<seq<real>>)
    ensures iouMatrix == IoUMatrix(dets, trks)
  {
    iouMatrix := [];
    var d := 0;
    while d < |dets|
      invariant 0 <= d <= |dets|
      invariant |iouMatrix| == d
      invariant forall i :: 0 <= i < d ==> iouMatrix[i] == IoURow(dets[i].bbox, trks)
    {
      var row: seq<real> := [];
      var t := 0;
      while t < |trks|
        invariant 0 <= t <= |trks|
        invariant |row| == t
        invariant forall j :: 0 <= j < t ==> row[j] == IoU(dets[d].bbox, trks[j])
      {
        row := row + [IoU(dets[d].bbox, trks[t])];
        t := t + 1;
      }
      iouMatrix := iouMatrix + [row];
      d := d + 1;
    }
  }

  /** The threshold loop: a proposed pair below the threshold sends its
      detection and its tracker to the unmatched lists. */
  method SplitProposal(matchedIndices: seq<Pair>, iouMatrix: seq<seq<real>>,
                       dets: seq<Detection>, trks: seq<Box>, iouThreshold: real)
    returns (matches: seq<Pair>, dets0: seq<nat>, trks0: seq<nat>)
    requires InRange(matchedIndices, |dets|, |trks|)
    requires iouMatrix == IoUMatrix(dets, trks)
    ensures matches == Accepted(matchedIndices, dets, trks, iouThreshold)
    ensures dets0 == RowsOf(Rejected(matchedIndices, dets, trks, iouThreshold))
    ensures trks0 == ColsOf(Rejected(matchedIndices, dets, trks, iouThreshold))
  {
    dets0, trks0, matches := [], [], [];
    var k := 0;
    while k < |matchedIndices|
      invariant 0 <= k <= |matchedIndices|
      invariant matches == Accepted(matchedIndices[..k], dets, trks, iouThreshold)
      invariant dets0 == RowsOf(Rejected(matchedIndices[..k], dets, trks, iouThreshold))
      invariant trks0 == ColsOf(Rejected(matchedIndices[..k], dets, trks, iouThreshold))
    {
      var m := matchedIndices[k];
      ghost var before := Rejected(matchedIndices[..k], dets, trks, iouThreshold);
      assert matchedIndices[..k + 1][..k] == matchedIndices[..k];
      assert iouMatrix[m.0][m.1] == Score(m, dets, trks);
      if iouMatrix[m.0][m.1] < iouThreshold {
        dets0 := dets0 + [m.0];
        trks0 := trks0 + [m.1];
        IndicesAppend(before, m, false);
        IndicesAppend(before, m, true);
      } else {
        matches := matches + [m];
      }
      k := k + 1;
    }
    assert matchedIndices[..k] == matchedIndices;
  }

  /** The loops over all indices below n that append those not in xs. */
  method AppendMissing(acc: seq<nat>, n: nat, xs: seq<nat>) returns (r: seq<nat>)
    ensures r == acc + Missing(n, xs)
  {
    r := acc;
    var d := 0;
    while d < n
      invariant 0 <= d <= n
      invariant r == acc + Missing(d, xs)
    {
      if d !in xs {
        r := r + [d];
      }
      d := d + 1;
    }
  }

  method Associate(dets: seq<Detection>, trks: seq<Box>, iouThreshold: real, solve: Solver)
    returns (matches: seq<Pair>, unmatchedDets: seq<nat>, unmatchedTrks: seq<nat>)
    requires ProposalInRange(dets, trks, solve)
    ensures Assignment(matches, unmatchedDets, unmatchedTrks) == Associated(dets, trks, iouThreshold, solve)
  {
    if |trks| == 0 {
      return [], Range(|dets|), [];
    }
    var iouMatrix := BuildIoUMatrix(dets, trks);
    var matchedIndices: seq<Pair>;
    if |iouMatrix| > 0 && |trks| > 0 {
      matchedIndices := solve(iouMatrix);
    } else {
      matchedIndices := [];
    }
    assert matchedIndices == Proposed(dets, trks, solve);
    var dets0, trks0;
    matches, dets0, trks0 := SplitProposal(matchedIndices, iouMatrix, dets, trks, iouThreshold);
    unmatchedDets := AppendMissing(dets0, |dets|, RowsOf(matchedIndices));
    unmatchedTrks := AppendMissing(trks0, |trks|, ColsOf(matchedIndices));
  }

  // ---------------------------------------------------------------------------
  // Properties of the association
  // ---------------------------------------------------------------------------

  /** Every index below n occurs exactly once in s, and nothing else occurs. */
  ghost predicate ExactlyOnce(s: seq<nat>, n: nat)
  {
    forall x: nat :: multiset(s)[x] == if x < n then 1 else 0
  }

  lemma {:induction false} MissingMembers(n: nat, xs: seq<nat>)
    ensures forall x: nat :: x in Missing(n, xs) <==> x < n && x !in xs
    ensures forall j :: 0 <= j < |Missing(n, xs)| ==> Missing(n, xs)[j] < n
  {
    if n > 0 {
      MissingMembers(n - 1, xs);
    }
  }

  lemma {:induction false} MissingDistinct(n: nat, xs: seq<nat>)
    ensures Distinct(Missing(n, xs))
  {
    if n > 0 {
      MissingDistinct(n - 1, xs);
      MissingMembers(n - 1, xs);
    }
  }

  lemma MissingCount(n: nat, xs: seq<nat>, x: nat)
    ensures multiset(Missing(n, xs))[x] == if x < n && x !in xs then 1 else 0
  {
    MissingMembers(n, xs);
    MissingDistinct(n, xs);
    DistinctCount(Missing(n, xs), x);
  }

  lemma {:induction false} MissingNone(n: nat)
    ensures Missing(n, []) == Range(n)
  {
    if n > 0 {
      MissingNone(n - 1);
      assert Range(n) == Range(n - 1) + [n - 1];
    }
  }

  lemma {:induction false} DistinctCount(s: seq<nat>, x: nat)
    requires Distinct(s)
    ensures multiset(s)[x] == if x in s then 1 else 0
  {
    if |s| > 0 {
      var n := |s|;
      assert s == s[..n - 1] + [s[n - 1]];
      DistinctCount(s[..n - 1], x);
      assert s[n - 1] !in s[..n - 1];
    }
  }

  lemma IndicesAppend(pairs: seq<Pair>, p: Pair, col: bool)
    ensures Indices(pairs + [p], col) == Indices(pairs, col) + [if col then p.1 else p.0]
  {
  }

  /** Appending one pair to the accepted or to the rejected side keeps the
      two sides' indices a split of the proposal's indices. */
  lemma SplitSnoc(init: seq<Pair>, a: seq<Pair>, r: seq<Pair>, p: Pair, col: bool, below: bool)
    requires multiset(Indices(a, col)) + multiset(Indices(r, col)) == multiset(Indices(init, col))
    ensures multiset(Indices(a + (if below then [] else [p]), col))
          + multiset(Indices(r + (if below then [p] else []), col))
         == multiset(Indices(init + [p], col))
  {
    var x := if col then p.1 else p.0;
    IndicesAppend(init, p, col);
    assert multiset(Indices(init + [p], col)) == multiset(Indices(init, col)) + multiset{x};
    if below {
      IndicesAppend(r, p, col);
      assert multiset(Indices(r + [p], col)) == multiset(Indices(r, col)) + multiset{x};
      assert a + [] == a;
    } else {
      IndicesAppend(a, p, col);
      assert multiset(Indices(a + [p], col)) == multiset(Indices(a, col)) + multiset{x};
      assert r + [] == r;
    }
  }

  /** Accepted and rejected pairs split the proposal's rows and columns. */
  lemma {:induction false} SplitCount(pairs: seq<Pair>, dets: seq<Detection>, trks: seq<Box>, threshold: real, col: bool)
    requires InRange(pairs, |dets|, |trks|)
    ensures multiset(Indices(Accepted(pairs, dets, trks, threshold), col))
          + multiset(Indices(Rejected(pairs, dets, trks, threshold), col))
         == multiset(Indices(pairs, col))
  {
    if |pairs| > 0 {
      var n := |pairs|;
      var p := pairs[n - 1];
      var init := pairs[..n - 1];
      SplitCount(init, dets, trks, threshold, col);
      var below := Score(p, dets, trks) < threshold;
      SplitSnoc(init, Accepted(init, dets, trks, threshold), Rejected(init, dets, trks, threshold), p, col, below);
      assert pairs == init + [p];
    }
  }

  lemma {:induction false} AcceptedMembers(pairs: seq<Pair>, dets: seq<Detection>, trks: seq<Box>, threshold: real, q: Pair)
    requires InRange(pairs, |dets|, |trks|)
    ensures q in Accepted(pairs, dets, trks, threshold) ==> q in pairs && Score(q, dets, trks) >= threshold
  {
    if |pairs| > 0 {
      AcceptedMembers(pairs[..|pairs| - 1], dets, trks, threshold, q);
    }
  }

  lemma {:induction false} RejectedMembers(pairs: seq<Pair>, dets: seq<Detection>, trks: seq<Box>, threshold: real, q: Pair)
    requires InRange(pairs, |dets|, |trks|)
    ensures q in Rejected(pairs, dets, trks, threshold) ==> q in pairs && Score(q, dets, trks) < threshold
  {
    if |pairs| > 0 {
      RejectedMembers(pairs[..|pairs| - 1], dets, trks, threshold, q);
    }
  }

  /** A proposed pair is accepted exactly when its IoU reaches the threshold,
      and rejected exactly when it falls below it. */
  lemma {:induction false} SplitIff(pairs: seq<Pair>, dets: seq<Detection>, trks: seq<Box>, threshold: real, q: Pair)
    requires InRange(pairs, |dets|, |trks|) && q in pairs
    ensures q.0 < |dets| && q.1 < |trks|
    ensures q in Accepted(pairs, dets, trks, threshold) <==> Score(q, dets, trks) >= threshold
    ensures q in Rejected(pairs, dets, trks, threshold) <==> Score(q, dets, trks) < threshold
  {
    var n := |pairs|;
    var init := pairs[..n - 1];
    var p := pairs[n - 1];
    AcceptedMembers(init, dets, trks, threshold, q);
    RejectedMembers(init, dets, trks, threshold, q);
    if q != p {
      assert q in init by {
        var j :| 0 <= j < n && pairs[j] == q;
        assert init[j] == q;
      }
      SplitIff(init, dets, trks, threshold, q);
    }
  }

  lemma {:induction false} AcceptedInjective(pairs: seq<Pair>, dets: seq<Detection>, trks: seq<Box>, threshold: real)
    requires InRange(pairs, |dets|, |trks|) && Injective(pairs)
    ensures Injective(Accepted(pairs, dets, trks, threshold))
  {
    if |pairs| > 0 {
      var n := |pairs|;
      var init := pairs[..n - 1];
      AcceptedInjective(init, dets, trks, threshold);
      var a := Accepted(init, dets, trks, threshold);
      forall q | q in a
        ensures q.0 != pairs[n - 1].0 && q.1 != pairs[n - 1].1
      {
        AcceptedMembers(init, dets, trks, threshold, q);
      }
    }
  }

  /** With zero trackers: no matches, every detection unmatched in order. */
  lemma AssociatedNoTrackers(dets: seq<Detection>, threshold: real, solve: Solver)
    ensures var a := Associated(dets, [], threshold, solve);
      && a.matches == [] && a.unmatchedTrks == []
      && |a.unmatchedDets| == |dets|
      && forall k :: 0 <= k < |dets| ==> a.unmatchedDets[k] == k
  {
  }

  /** With zero detections: no matches, every tracker unmatched in order. */
  lemma AssociatedNoDetections(trks: seq<Box>, threshold: real, solve: Solver)
    ensures var a := Associated([], trks, threshold, solve);
      && a.matches == [] && a.unmatchedDets == []
      && |a.unmatchedTrks| == |trks|
      && forall k :: 0 <= k < |trks| ==> a.unmatchedTrks[k] == k
  {
    MissingNone(|trks|);
  }

  /** Every match is a proposed pair whose IoU reaches the threshold, and
      every returned index is in range. */
  lemma AssociatedSound(dets: seq<Detection>, trks: seq<Box>, threshold: real, solve: Solver)
    requires ProposalInRange(dets, trks, solve)
    ensures var a := Associated(dets, trks, threshold, solve);
      && InRange(a.matches, |dets|, |trks|)
      && (forall j :: 0 <= j < |a.matches| ==>
            a.matches[j] in Proposed(dets, trks, solve)
            && IoU(dets[a.matches[j].0].bbox, trks[a.matches[j].1]) >= threshold)
      && (forall j :: 0 <= j < |a.unmatchedDets| ==> a.unmatchedDets[j] < |dets|)
      && (forall j :: 0 <= j < |a.unmatchedTrks| ==> a.unmatchedTrks[j] < |trks|)
  {
    var a := Associated(dets, trks, threshold, solve);
    if |trks| > 0 {
      var pairs := Proposed(dets, trks, solve);
      forall j | 0 <= j < |a.matches|
        ensures a.matches[j] in pairs && Score(a.matches[j], dets, trks) >= threshold
      {
        AcceptedMembers(pairs, dets, trks, threshold, a.matches[j]);
      }
      var rejected := Rejected(pairs, dets, trks, threshold);
      forall j | 0 <= j < |a.unmatchedDets|
        ensures a.unmatchedDets[j] < |dets|
      {
        var x := a.unmatchedDets[j];
        if j >= |rejected| {
          MissingCount(|dets|, RowsOf(pairs), x);
        }
      }
      forall j | 0 <= j < |a.unmatchedTrks|
        ensures a.unmatchedTrks[j] < |trks|
      {
        var x := a.unmatchedTrks[j];
        if j >= |rejected| {
          MissingCount(|trks|, ColsOf(pairs), x);
        }
      }
    }
  }

  /** Every proposed pair whose IoU reaches the threshold is a match, and
      both indices of a proposed pair below it are reported unmatched. */
  lemma AssociatedComplete(dets: seq<Detection>, trks: seq<Box>, threshold: real, solve: Solver)
    requires ProposalInRange(dets, trks, solve)
    ensures var a := Associated(dets, trks, threshold, solve);
      forall p :: p in Proposed(dets, trks, solve) ==>
        && p.0 < |dets| && p.1 < |trks|
        && (IoU(dets[p.0].bbox, trks[p.1]) >= threshold ==> p in a.matches)
        && (IoU(dets[p.0].bbox, trks[p.1]) < threshold ==> p.0 in a.unmatchedDets && p.1 in a.unmatchedTrks)
  {
    var a := Associated(dets, trks, threshold, solve);
    var pairs := Proposed(dets, trks, solve);
    forall p | p in pairs
      ensures p.0 < |dets| && p.1 < |trks|
      ensures IoU(dets[p.0].bbox, trks[p.1]) >= threshold ==> p in a.matches
      ensures IoU(dets[p.0].bbox, trks[p.1]) < threshold ==> p.0 in a.unmatchedDets && p.1 in a.unmatchedTrks
    {
      SplitIff(pairs, dets, trks, threshold, p);
      var rejected := Rejected(pairs, dets, trks, threshold);
      if Score(p, dets, trks) < threshold {
        var j :| 0 <= j < |rejected| && rejected[j] == p;
        assert a.unmatchedDets[j] == RowsOf(rejected)[j] == p.0;
        assert a.unmatchedTrks[j] == ColsOf(rejected)[j] == p.1;
      }
    }
  }

  lemma IndicesDistinct(pairs: seq<Pair>, col: bool)
    requires Injective(pairs)
    ensures Distinct(Indices(pairs, col))
  {
  }

  /** One side of the partition: matched and unmatched indices together
      hold every index below n exactly once. */
  lemma PartitionSide(pairs: seq<Pair>, dets: seq<Detection>, trks: seq<Box>, threshold: real, col: bool, n: nat)
    requires InRange(pairs, |dets|, |trks|) && Injective(pairs)
    requires n == if col then |trks| else |dets|
    ensures ExactlyOnce(Indices(Accepted(pairs, dets, trks, threshold), col)
                        + (Indices(Rejected(pairs, dets, trks, threshold), col) + Missing(n, Indices(pairs, col))), n)
  {
    var all := Indices(pairs, col);
    SplitCount(pairs, dets, trks, threshold, col);
    IndicesDistinct(pairs, col);
    forall x: nat
      ensures multiset(Indices(Accepted(pairs, dets, trks, threshold), col)
                       + (Indices(Rejected(pairs, dets, trks, threshold), col) + Missing(n, all)))[x]
              == if x < n then 1 else 0
    {
      DistinctCount(all, x);
      MissingCount(n, all, x);
      if x in all {
        var j :| 0 <= j < |all| && all[j] == x;
        assert x < n;
      }
    }
  }

  lemma NoTrackersPartition(dets: seq<Detection>, threshold: real, solve: Solver)
    ensures var a := Associated(dets, [], threshold, solve);
      && Injective(a.matches)
      && ExactlyOnce(RowsOf(a.matches) + a.unmatchedDets, |dets|)
      && ExactlyOnce(ColsOf(a.matches) + a.unmatchedTrks, 0)
  {
    var a := Associated(dets, [], threshold, solve);
    MissingNone(|dets|);
    assert RowsOf(a.matches) + a.unmatchedDets == Missing(|dets|, []);
    forall x: nat
      ensures multiset(Missing(|dets|, []))[x] == if x < |dets| then 1 else 0
    {
      MissingCount(|dets|, [], x);
    }
    assert ColsOf(a.matches) + a.unmatchedTrks == [];
  }

  /** Given an injective solver, the matches are one-to-one, and every
      detection index (every tracker index) lies either in the matches or
      among the unmatched ones, exactly once. */
  lemma AssociatedPartition(dets: seq<Detection>, trks: seq<Box>, threshold: real, solve: Solver)
    requires ProposalInRange(dets, trks, solve) && Injective(Proposed(dets, trks, solve))
    ensures var a := Associated(dets, trks, threshold, solve);
      && Injective(a.matches)
      && ExactlyOnce(RowsOf(a.matches) + a.unmatchedDets, |dets|)
      && ExactlyOnce(ColsOf(a.matches) + a.unmatchedTrks, |trks|)
  {
    if |trks| == 0 {
      NoTrackersPartition(dets, threshold, solve);
    } else {
      var pairs := Proposed(dets, trks, solve);
      var acc, rej := Accepted(pairs, dets, trks, threshold), Rejected(pairs, dets, trks, threshold);
      var a := Associated(dets, trks, threshold, solve);
      assert a.matches == acc;
      assert a.unmatchedDets == Indices(rej, false) + Missing(|dets|, Indices(pairs, false));
      assert a.unmatchedTrks == Indices(rej, true) + Missing(|trks|, Indices(pairs, true));
      AcceptedInjective(pairs, dets, trks, threshold);
      PartitionSide(pairs, dets, trks, threshold, false, |dets|);
      PartitionSide(pairs, dets, trks, threshold, true, |trks|);
    }
  }
}
