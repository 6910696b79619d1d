/** The SORT tracker object (class Tracker): a list of motion records that
    one update per frame predicts, prunes, associates, corrects, extends
    and reports on, changing the records and the list in place. */
module Sort {
  import opened Geometry
  import opened Records
  import opened Seqs
  import opened Motion
  import opened Association
  import opened Lifecycle

  /** The states of a list of motion records, in order. */
  function StatesOf(ts: seq<KalmanBoxTracker>): (r: seq<TrackerState>)
    reads ts
    ensures |r| == |ts|
    ensures forall k :: 0 <= k < |ts| ==> r[k] == ts[k].State()
  {
    if |ts| == 0 then [] else StatesOf(ts[..|ts| - 1]) + [ts[|ts| - 1].State()]
  }

  lemma {:induction false} StatesOfKeep(ts: seq<KalmanBoxTracker>, drop: seq<bool>)
    requires |ts| == |drop|
    ensures StatesOf(Keep(ts, drop)) == Keep(StatesOf(ts), drop)
  {
    if |ts| > 0 {
      var n := |ts|;
      StatesOfKeep(ts[..n - 1], drop[..n - 1]);
      assert StatesOf(ts)[..n - 1] == StatesOf(ts[..n - 1]);
      var k := Keep(ts[..n - 1], drop[..n - 1]);
      if !drop[n - 1] {
        assert StatesOf(k + [ts[n - 1]]) == StatesOf(k) + [ts[n - 1].State()];
      }
    }
  }

  /** The loop over `matched` that looks for the detection matched to list
      position k; "unknown" and 0.0 when there is none. */
  method LookupDetection(matches: seq<Pair>, dets: seq<Detection>, k: nat) returns (classLabel: string, confidence: real)
    requires RowsBelow(matches, |dets|)
    ensures (classLabel, confidence) == MatchedDetection(matches, dets, k)
  {
    classLabel, confidence := "unknown", 0.0;
    var j := 0;
    while j < |matches|
      invariant 0 <= j <= |matches|
      invariant MatchedDetection(matches, dets, k) == MatchedDetection(matches[j..], dets, k)
    {
      if k == matches[j].1 {
        var det := dets[matches[j].0];
        classLabel, confidence := det.classLabel, det.confidence;
        return;
      }
      assert matches[j..][1..] == matches[j + 1..];
      j := j + 1;
    }
  }

  /** What the prediction loop builds from the predicted states: the box
      matrix trks, the NaN mask of its rows, and to_del. */
  function PredictionRows(s: seq<TrackerState>, sqrt: real -> real): (seq<Box>, seq<bool>, seq<nat>)
  {
    if |s| == 0 then ([], [], [])
    else
      var prev := PredictionRows(s[..|s| - 1], sqrt);
      var x := s[|s| - 1];
      (prev.0 + [StateBox(x, sqrt)], prev.1 + [PredictionIsNaN(x)],
       if PredictionIsNaN(x) then prev.2 + [|s| - 1] else prev.2)
  }

  lemma {:induction false} PredictionRowsSpec(s: seq<TrackerState>, sqrt: real -> real)
    ensures PredictionRows(s, sqrt) == (BoxesOf(s, sqrt), Map(s, PredictionIsNaN), TrueIndices(Map(s, PredictionIsNaN)))
  {
    if |s| > 0 {
      var n := |s|;
      PredictionRowsSpec(s[..n - 1], sqrt);
      assert s == s[..n - 1] + [s[n - 1]];
      AppendRow(s[..n - 1], s[n - 1], sqrt);
      TrueIndicesAppend(Map(s[..n - 1], PredictionIsNaN), PredictionIsNaN(s[n - 1]));
    }
  }

  /** One more predicted record adds one row to the box matrix and one
      flag to the NaN mask. */
  lemma AppendRow(predicted: seq<TrackerState>, x: TrackerState, sqrt: real -> real)
    ensures BoxesOf(predicted + [x], sqrt) == BoxesOf(predicted, sqrt) + [StateBox(x, sqrt)]
    ensures Map(predicted + [x], PredictionIsNaN) == Map(predicted, PredictionIsNaN) + [PredictionIsNaN(x)]
  {
  }

  /** One turn of the prediction loop: ts[t] predicts, its box becomes row
      t of trks and its NaN flag entry t of the mask; t joins to_del when
      the box is NaN. No other record changes. */
  method PredictRow(ts: seq<KalmanBoxTracker>, t: nat, sqrt: real -> real, trks: seq<Box>, nan: seq<bool>, toDel: seq<nat>, ghost predicted: seq<TrackerState>)
    returns (trks': seq<Box>, nan': seq<bool>, toDel': seq<nat>, ghost predicted': seq<TrackerState>)
    requires Distinct(ts) && t < |ts| && |predicted| == t
    requires (trks, nan, toDel) == PredictionRows(predicted, sqrt)
    modifies ts[t]
    ensures predicted' == predicted + [PredictState(old(ts[t].State()))]
    ensures ts[t].State() == predicted'[t]
    ensures forall k :: 0 <= k < |ts| && k != t ==> ts[k].State() == old(ts[k].State())
    ensures (trks', nan', toDel') == PredictionRows(predicted', sqrt)
  {
    var pos := ts[t].Predict(sqrt);
    var isNaN := PredictionIsNaN(ts[t].State());
    predicted' := predicted + [ts[t].State()];
    assert predicted'[..t] == predicted;
    trks' := trks + [pos];
    toDel' := if isNaN then toDel + [t] else toDel;
    nan' := nan + [isNaN];
  }

  /** The prediction loop: every record predicts; its box fills one row
      of trks, and its position goes to to_del when the box is NaN. */
  method PredictAll(ts: seq<KalmanBoxTracker>, sqrt: real -> real) returns (trks: seq<Box>, nan: seq<bool>, toDel: seq<nat>)
    requires Distinct(ts)
    modifies ts
    ensures StatesOf(ts) == Map(old(StatesOf(ts)), PredictState)
    ensures (trks, nan, toDel) == PredictionRows(StatesOf(ts), sqrt)
  {
    ghost var before := StatesOf(ts);
    ghost var predicted: seq<TrackerState> := [];
    trks, nan, toDel := [], [], [];
    var t := 0;
    while t < |ts|
      invariant 0 <= t <= |ts| && |predicted| == t
      invariant forall k :: 0 <= k < t ==> ts[k].State() == predicted[k]
      invariant forall k :: t <= k < |ts| ==> ts[k].State() == before[k]
      invariant forall k :: 0 <= k < t ==> predicted[k] == PredictState(before[k])
      invariant (trks, nan, toDel) == PredictionRows(predicted, sqrt)
    {
      trks, nan, toDel, predicted := PredictRow(ts, t, sqrt, trks, nan, toDel, predicted);
      t := t + 1;
    }
    MapPointwise(before, PredictState, predicted);
    assert StatesOf(ts) == predicted;
  }

  lemma StatesOfPrefix(ts: seq<KalmanBoxTracker>, n: nat)
    requires n <= |ts|
    ensures StatesOf(ts[..n]) == StatesOf(ts)[..n]
  {
  }

  lemma StatesOfAppend(ts: seq<KalmanBoxTracker>, us: seq<KalmanBoxTracker>)
    ensures StatesOf(ts + us) == StatesOf(ts) + StatesOf(us)
  {
  }

  /** The loop `for t in reversed(to_del): self.trackers.pop(t)`. */
  method PopRows<T>(ts: seq<T>, toDel: seq<nat>) returns (list: seq<T>)
    requires Poppable(toDel, |ts|)
    ensures list == PopAll(ts, toDel)
  {
    list := ts;
    var j := |toDel|;
    assert toDel[..j] == toDel;
    while j > 0
      invariant 0 <= j <= |toDel|
      invariant Poppable(toDel[..j], |list|)
      invariant PopAll(list, toDel[..j]) == PopAll(ts, toDel)
    {
      j := j - 1;
      assert toDel[..j + 1][..j] == toDel[..j];
      list := RemoveAt(list, toDel[j]);
    }
  }

  /** The loop that updates every matched record with its detection's box. */
  method UpdateMatched(ts: seq<KalmanBoxTracker>, matches: seq<Pair>, dets: seq<Detection>, correct: Correction)
    requires Distinct(ts) && InRange(matches, |dets|, |ts|)
    modifies ts
    ensures StatesOf(ts) == ApplyMatches(old(StatesOf(ts)), matches, dets, correct)
  {
    ghost var before := StatesOf(ts);
    var k := 0;
    while k < |matches|
      invariant 0 <= k <= |matches|
      invariant forall q :: 0 <= q < |ts| ==> ts[q].State() == ApplyMatches(before, matches[..k], dets, correct)[q]
    {
      var m := matches[k];
      var detIdx, trkIdx := m.0, m.1;
      ts[trkIdx].Update(dets[detIdx].bbox, correct);
      assert matches[..k + 1][..k] == matches[..k];
      k := k + 1;
    }
    assert matches[..k] == matches;
  }

  /** The loop that appends one new record per unmatched detection, each
      taking the next id from the shared counter. */
  method Spawn(ts: seq<KalmanBoxTracker>, counter: IdCounter, dets: seq<Detection>, unmatchedDets: seq<nat>) returns (list: seq<KalmanBoxTracker>)
    requires Distinct(ts)
    requires forall j :: 0 <= j < |unmatchedDets| ==> unmatchedDets[j] < |dets|
    modifies counter
    ensures |list| == |ts| + |unmatchedDets| && list[..|ts|] == ts && Distinct(list)
    ensures forall j :: |ts| <= j < |list| ==> fresh(list[j])
    ensures forall t :: t in list ==> t in ts || fresh(t)
    ensures StatesOf(list) == old(StatesOf(ts)) + Spawned(dets, unmatchedDets, old(counter.count))
    ensures counter.count == old(counter.count) + |unmatchedDets|
  {
    list := ts;
    var i := 0;
    while i < |unmatchedDets|
      invariant 0 <= i <= |unmatchedDets|
      invariant |list| == |ts| + i && list[..|ts|] == ts && Distinct(list)
      invariant forall j :: |ts| <= j < |list| ==> fresh(list[j])
      invariant counter.count == old(counter.count) + i
      invariant forall j :: 0 <= j < i ==>
        list[|ts| + j].State() == NewState(old(counter.count) + j, dets[unmatchedDets[j]].bbox)
    {
      var trk := new KalmanBoxTracker(dets[unmatchedDets[i]].bbox, counter);
      list := list + [trk];
      i := i + 1;
    }
    ghost var added := list[|ts|..];
    assert list == ts + added;
    StatesOfAppend(ts, added);
    assert StatesOf(added) == Spawned(dets, unmatchedDets, old(counter.count));
  }

  /** Visiting position k of the output loop: the count of dead records
      grows by one when it is dead, and the returned list by its snapshot
      when it yields one. */
  lemma EmitStep(cfg: Config, frameCount: nat, s: seq<TrackerState>, k: nat, matches: seq<Pair>, dets: seq<Detection>, sqrt: real -> real)
    requires k < |s| && RowsBelow(matches, |dets|)
    ensures DeadFrom(cfg, s, k) == DeadFrom(cfg, s, k + 1) + (if Dead(cfg, s[k]) then 1 else 0)
    ensures Snapshots(s, EmittedIndices(cfg, frameCount, s, k), matches, dets, sqrt)
         == Snapshots(s, EmittedIndices(cfg, frameCount, s, k + 1), matches, dets, sqrt)
            + (if Emits(cfg, frameCount, s[k]) then [Snapshot(s[k], k, matches, dets, sqrt)] else [])
  {
    var before := EmittedIndices(cfg, frameCount, s, k + 1);
    if Emits(cfg, frameCount, s[k]) {
      assert Snapshots(s, before + [k], matches, dets, sqrt)
          == Snapshots(s, before, matches, dets, sqrt) + [Snapshot(s[k], k, matches, dets, sqrt)];
    }
  }

  /** The Track built for a confirmed record at list position k, whose
      box get_state returned as d; its history holds the box centre. */
  method MakeTrack(trk: KalmanBoxTracker, d: Box, k: nat, matches: seq<Pair>, dets: seq<Detection>, sqrt: real -> real) returns (track: Track)
    requires d == StateBox(trk.State(), sqrt) && RowsBelow(matches, |dets|)
    ensures track == Snapshot(trk.State(), k, matches, dets, sqrt)
    ensures track.history == [Center(d)]
  {
    var classLabel, confidence := LookupDetection(matches, dets, k);
    var vx, vy := trk.mean.vx, trk.mean.vy;
    var center := ((d.x1 + d.x2) / 2.0, (d.y1 + d.y2) / 2.0);
    track := Track(trk.id, d, classLabel, confidence, trk.age, trk.hits, trk.timeSinceUpdate, (vx, vy), []);
    track := track.(history := track.history + [center]);
    // The history is a fresh one-point list, so the 30-point cap never applies.
    if |track.history| > 30 {
      assert false;
    }
  }

  /** The output loop over reversed(self.trackers), on the list `list`. The
      iterator's position `idx` moves down by one per step and the loop
      stops once it leaves the list; a dead record pops the last entry of
      the list, whichever that is; `i - 1` is the position of the record
      visited. */
  method Emit(ts: seq<KalmanBoxTracker>, cfg: Config, frameCount: nat, matches: seq<Pair>, dets: seq<Detection>, sqrt: real -> real)
    returns (ret: seq<Track>, list: seq<KalmanBoxTracker>)
    requires RowsBelow(matches, |dets|)
    ensures |list| <= |ts| && list == ts[..|list|]
    ensures StatesOf(list) == Survivors(cfg, StatesOf(ts))
    ensures ret == Emitted(cfg, frameCount, StatesOf(ts), matches, dets, sqrt)
  {
    ghost var states := StatesOf(ts);
    list := ts;
    ret := [];
    var i := |list|;
    var idx: int := |list| - 1;
    while 0 <= idx < |list|
      invariant -1 <= idx < |ts| && i == idx + 1
      invariant list == ts[..|ts| - DeadFrom(cfg, states, idx + 1)]
      invariant ret == Snapshots(states, EmittedIndices(cfg, frameCount, states, idx + 1), matches, dets, sqrt)
      decreases idx + 1
    {
      var trk := list[idx];
      ghost var k := idx;
      assert trk.State() == states[k];
      EmitStep(cfg, frameCount, states, k, matches, dets, sqrt);
      idx := idx - 1;
      var d := trk.GetState(sqrt);
      if trk.timeSinceUpdate > cfg.maxAge {
        list := list[..|list| - 1];
        i := i - 1;
        continue;
      }
      if trk.hitStreak >= cfg.minHits || frameCount <= cfg.minHits {
        var track := MakeTrack(trk, d, i - 1, matches, dets, sqrt);
        ret := ret + [track];
      }
      i := i - 1;
    }
    assert idx == -1;
    StatesOfPrefix(ts, |list|);
  }

  /** After the prediction loop, masking the rows flagged NaN and popping
      the records at to_del leave the live records and their boxes, in the
      same order. */
  lemma PredictedRowsLive(ts: seq<KalmanBoxTracker>, states: seq<TrackerState>, sqrt: real -> real,
                           trks: seq<Box>, nan: seq<bool>, toDel: seq<nat>)
    requires Distinct(ts) && StatesOf(ts) == Map(states, PredictState)
    requires (trks, nan, toDel) == PredictionRows(StatesOf(ts), sqrt)
    ensures |trks| == |ts| && |nan| == |ts| && Poppable(toDel, |ts|)
    ensures Keep(trks, nan) == BoxesOf(Live(states), sqrt)
    ensures var list := PopAll(ts, toDel);
      && Distinct(list)
      && (forall i :: 0 <= i < |list| ==> list[i] in ts)
      && StatesOf(list) == Live(states)
  {
    var predicted := StatesOf(ts);
    PredictionRowsSpec(predicted, sqrt);
    PopAllIsKeep(ts, nan);
    StatesOfKeep(ts, nan);
    KeepBoxes(predicted, nan, sqrt);
    KeepDistinct(ts, nan);
    KeepEntries(ts, nan);
  }

  /** The prediction loop followed by the removal of the records whose
      prediction is not a number: the records left are the live ones, in
      order, and the boxes handed to the association are theirs. */
  method PredictAndPrune(ts: seq<KalmanBoxTracker>, sqrt: real -> real) returns (trks: seq<Box>, list: seq<KalmanBoxTracker>)
    requires Distinct(ts)
    modifies ts
    ensures Distinct(list) && forall i :: 0 <= i < |list| ==> list[i] in ts
    ensures StatesOf(list) == Live(old(StatesOf(ts)))
    ensures trks == BoxesOf(Live(old(StatesOf(ts))), sqrt)
  {
    ghost var before := StatesOf(ts);
    var nan, toDel;
    trks, nan, toDel := PredictAll(ts, sqrt);
    PredictedRowsLive(ts, before, sqrt, trks, nan, toDel);
    list := PopRows(ts, toDel);
    trks := Keep(trks, nan);
  }

  /** The association of the detections with the live records' boxes. */
  method AssociateLive(cfg: Config, ghost states: seq<TrackerState>, dets: seq<Detection>, trks: seq<Box>, sqrt: real -> real, solve: Solver)
    returns (a: Assignment)
    requires IsSolver(solve) && trks == BoxesOf(Live(states), sqrt)
    ensures a == Assign(cfg, states, dets, sqrt, solve)
    ensures Fits(a, |dets|, |Live(states)|)
  {
    SolverProposal(dets, trks, solve);
    var matched, unmatchedDets, unmatchedTrks := Associate(dets, trks, cfg.iouThreshold, solve);
    a := Assignment(matched, unmatchedDets, unmatchedTrks);
  }

  /** The update loop over the matches followed by the creation loop over
      the unmatched detections. */
  method CorrectAndSpawn(ts: seq<KalmanBoxTracker>, counter: IdCounter, dets: seq<Detection>, a: Assignment, correct: Correction)
    returns (list: seq<KalmanBoxTracker>)
    requires Distinct(ts) && Fits(a, |dets|, |ts|)
    modifies ts, counter
    ensures Distinct(list) && forall i :: 0 <= i < |list| ==> list[i] in ts || fresh(list[i])
    ensures StatesOf(list) == Extend(old(StatesOf(ts)), a, dets, old(counter.count), correct)
    ensures counter.count == old(counter.count) + |a.unmatchedDets|
  {
    UpdateMatched(ts, a.matches, dets, correct);
    list := Spawn(ts, counter, dets, a.unmatchedDets);
  }

  /** The first half of a frame: predict, drop the records whose prediction
      is not a number, and associate the detections with the rest. */
  method PredictAndAssociate(ts: seq<KalmanBoxTracker>, cfg: Config, dets: seq<Detection>, sqrt: real -> real, solve: Solver)
    returns (list: seq<KalmanBoxTracker>, a: Assignment)
    requires Distinct(ts) && IsSolver(solve)
    modifies ts
    ensures Distinct(list) && forall i :: 0 <= i < |list| ==> list[i] in ts
    ensures StatesOf(list) == Live(old(StatesOf(ts)))
    ensures a == Assign(cfg, old(StatesOf(ts)), dets, sqrt, solve) && Fits(a, |dets|, |list|)
  {
    ghost var before := StatesOf(ts);
    var trks;
    trks, list := PredictAndPrune(ts, sqrt);
    a := AssociateLive(cfg, before, dets, trks, sqrt, solve);
  }

  /** The second half of a frame: correct the matched records, add one per
      unmatched detection, then report and drop records in the output loop. */
  method CorrectSpawnEmit(ts: seq<KalmanBoxTracker>, counter: IdCounter, cfg: Config, frameCount: nat,
                          dets: seq<Detection>, a: Assignment, sqrt: real -> real, correct: Correction)
    returns (ret: seq<Track>, list: seq<KalmanBoxTracker>)
    requires Distinct(ts) && Fits(a, |dets|, |ts|)
    modifies ts, counter
    ensures Distinct(list) && forall i :: 0 <= i < |list| ==> list[i] in ts || fresh(list[i])
    ensures counter.count == old(counter.count) + |a.unmatchedDets|
    ensures var all := Extend(old(StatesOf(ts)), a, dets, old(counter.count), correct);
      && RowsBelow(a.matches, |dets|)
      && StatesOf(list) == Survivors(cfg, all)
      && ret == Emitted(cfg, frameCount, all, a.matches, dets, sqrt)
  {
    list := CorrectAndSpawn(ts, counter, dets, a, correct);
    ghost var spawned := list;
    ret, list := Emit(list, cfg, frameCount, a.matches, dets, sqrt);
    PrefixOf(spawned, list);
  }

  /** A prefix agrees with the sequence position by position, and keeps
      its entries distinct. */
  lemma PrefixOf<T>(s: seq<T>, list: seq<T>)
    requires |list| <= |s| && list == s[..|list|]
    ensures forall i :: 0 <= i < |list| ==> list[i] == s[i]
    ensures Distinct(s) ==> Distinct(list)
  {
  }

  /** The body of Tracker.update after frame_count has been advanced to
      `frameCount`, run on the record list and the shared id counter; `a`
      is what the association decided. */
  method Frame(ts: seq<KalmanBoxTracker>, counter: IdCounter, cfg: Config, frameCount: nat, ghost s: SortState,
               dets: seq<Detection>, sqrt: real -> real, correct: Correction, solve: Solver)
    returns (ret: seq<Track>, list: seq<KalmanBoxTracker>, a: Assignment)
    requires Distinct(ts) && IsSolver(solve)
    requires frameCount == s.frameCount + 1 && s == SortState(StatesOf(ts), s.frameCount, counter.count)
    modifies ts, counter
    ensures Distinct(list) && forall i :: 0 <= i < |list| ==> list[i] in ts || fresh(list[i])
    ensures a == Assign(cfg, s.trackers, dets, sqrt, solve)
    ensures SortState(StatesOf(list), frameCount, counter.count) == StepWith(cfg, s, dets, a, sqrt, correct).next
    ensures ret == StepWith(cfg, s, dets, a, sqrt, correct).tracks
  {
    assert forall i :: 0 <= i < |ts| ==> ts[i] as object != counter as object;
    list, a := PredictAndAssociate(ts, cfg, dets, sqrt, solve);
    assert counter.count == s.nextId;
    ret, list := CorrectSpawnEmit(list, counter, cfg, frameCount, dets, a, sqrt, correct);
    StepFromStages(cfg, s, dets, a, sqrt, correct, Extend(Live(s.trackers), a, dets, s.nextId, correct));
  }

  class Tracker {
    const maxAge: int
    const minHits: int
    const iouThreshold: real
    var trackers: seq<KalmanBoxTracker>
    var frameCount: nat
    /** The id counter shared by every motion record (KalmanBoxTracker.count). */
    const ids: IdCounter

    function Cfg(): Config
    {
      Config(maxAge, minHits, iouThreshold)
    }

    function Value(): SortState
      reads this, trackers, ids
    {
      SortState(StatesOf(trackers), frameCount, ids.count)
    }

    /** No record is listed twice, ids are distinct, and the counter is
        past every id handed out. */
    ghost predicate Valid()
      reads this, trackers, ids
    {
      Distinct(trackers) && UniqueIds(StatesOf(trackers)) && IdsBelow(StatesOf(trackers), ids.count)
    }

    constructor (ids: IdCounter, maxAge: int := 1, minHits: int := 3, iouThreshold: real := 0.3)
      ensures this.maxAge == maxAge && this.minHits == minHits && this.iouThreshold == iouThreshold
      ensures this.ids == ids && trackers == [] && frameCount == 0
      ensures Valid()
    {
      this.maxAge := maxAge;
      this.minHits := minHits;
      this.iouThreshold := iouThreshold;
      trackers := [];
      frameCount := 0;
      this.ids := ids;
    }

    /** Tracker.update: one frame. */
    method Update(dets: seq<Detection>, sqrt: real -> real, correct: Correction, solve: Solver) returns (ret: seq<Track>)
      requires Valid() && IsSolver(solve)
      modifies this, trackers, ids
      ensures Valid()
      ensures Value() == Step(Cfg(), old(Value()), dets, sqrt, correct, solve).next
      ensures ret == Step(Cfg(), old(Value()), dets, sqrt, correct, solve).tracks
      ensures forall t :: t in trackers ==> t in old(trackers) || fresh(t)
    {
      ghost var s0 := Value();
      var list := trackers;
      assert forall i :: 0 <= i < |list| ==> list[i] as object != this as object;
      frameCount := frameCount + 1;
      var a;
      ret, list, a := Frame(list, ids, Cfg(), frameCount, s0, dets, sqrt, correct, solve);
      Commit(list);
      StepKeepsIds(Cfg(), s0, dets, sqrt, correct, solve);
    }

    /** Makes `list` the record list; the records themselves are untouched. */
    method Commit(list: seq<KalmanBoxTracker>)
      modifies this
      ensures trackers == list && frameCount == old(frameCount)
      ensures StatesOf(trackers) == old(StatesOf(list)) && ids.count == old(ids.count)
    {
      trackers := list;
    }
  }
}
