/** One frame of Tracker.update as a function of values: predict every
    tracker, drop the NaN predictions, associate, correct the matched
    trackers, spawn one tracker per unmatched detection, then walk the
    list from its end, dropping dead trackers from the tail and emitting
    snapshots of the confirmed ones. */
module Lifecycle {
  import opened Geometry
  import opened Records
  import opened Seqs
  import opened Motion
  import opened Association

  /** The Tracker constructor's parameters. */
  datatype Config = Config(maxAge: int, minHits: int, iouThreshold: real)

  /** The tracker list, the frame counter and the shared id counter. */
  datatype SortState = SortState(trackers: seq<TrackerState>, frameCount: nat, nextId: nat)

  /** The new value of the tracker and the snapshots one update returns. */
  datatype Outcome = Outcome(next: SortState, tracks: seq<Track>)

  function IdOf(t: TrackerState): nat { t.id }

  function Ids(s: seq<TrackerState>): seq<nat> { Map(s, IdOf) }

  ghost predicate UniqueIds(s: seq<TrackerState>) { Distinct(Ids(s)) }

  ghost predicate IdsBelow(s: seq<TrackerState>, bound: nat)
  {
    forall k :: 0 <= k < |s| ==> s[k].id < bound
  }

  // ---------------------------------------------------------------------------
  // Prediction and NaN removal
  // ---------------------------------------------------------------------------

  function BoxesOf(s: seq<TrackerState>, sqrt: real -> real): (r: seq<Box>)
    ensures |r| == |s|
    ensures forall k :: 0 <= k < |s| ==> r[k] == StateBox(s[k], sqrt)
  {
    seq(|s|, k requires 0 <= k < |s| => StateBox(s[k], sqrt))
  }

  lemma {:induction false} KeepBoxes(s: seq<TrackerState>, drop: seq<bool>, sqrt: real -> real)
    requires |s| == |drop|
    ensures Keep(BoxesOf(s, sqrt), drop) == BoxesOf(Keep(s, drop), sqrt)
  {
    if |s| > 0 {
      var n := |s|;
      KeepBoxes(s[..n - 1], drop[..n - 1], sqrt);
      assert BoxesOf(s, sqrt)[..n - 1] == BoxesOf(s[..n - 1], sqrt);
      var k := Keep(s[..n - 1], drop[..n - 1]);
      if !drop[n - 1] {
        assert BoxesOf(k + [s[n - 1]], sqrt) == BoxesOf(k, sqrt) + [StateBox(s[n - 1], sqrt)];
      }
    }
  }

  /** The trackers after predict whose prediction is a number, in order. */
  function Live(states: seq<TrackerState>): seq<TrackerState>
  {
    var predicted := Map(states, PredictState);
    Keep(predicted, Map(predicted, PredictionIsNaN))
  }

  lemma {:induction false} KeepProperties(s: seq<TrackerState>, drop: seq<bool>, P: TrackerState -> bool)
    requires |s| == |drop|
    requires forall k :: 0 <= k < |s| ==> P(s[k])
    ensures forall k :: 0 <= k < |Keep(s, drop)| ==> P(Keep(s, drop)[k])
  {
    forall k | 0 <= k < |Keep(s, drop)|
      ensures P(Keep(s, drop)[k])
    {
      KeepMembers(s, drop, Keep(s, drop)[k]);
    }
  }

  predicate TimeSinceUpdatePositive(t: TrackerState) { t.timeSinceUpdate > 0 }

  /** Every live tracker went one more frame without an update. */
  lemma LiveNotFresh(states: seq<TrackerState>)
    ensures forall k :: 0 <= k < |Live(states)| ==> Live(states)[k].timeSinceUpdate > 0
    ensures |Live(states)| <= |states|
  {
    var predicted := Map(states, PredictState);
    KeepProperties(predicted, Map(predicted, PredictionIsNaN), TimeSinceUpdatePositive);
  }

  lemma LiveIds(states: seq<TrackerState>, bound: nat)
    requires UniqueIds(states) && IdsBelow(states, bound)
    ensures UniqueIds(Live(states)) && IdsBelow(Live(states), bound)
  {
    var predicted := Map(states, PredictState);
    var drop := Map(predicted, PredictionIsNaN);
    assert Ids(predicted) == Ids(states);
    KeepMap(predicted, IdOf, drop);
    KeepDistinct(Ids(predicted), drop);
    forall k | 0 <= k < |Live(states)|
      ensures Live(states)[k].id < bound
    {
      KeepMembers(predicted, drop, Live(states)[k]);
    }
  }

  // ---------------------------------------------------------------------------
  // Association and correction
  // ---------------------------------------------------------------------------

  /** What the association hands to the rest of the update: matches in
      range and one-to-one, unmatched detections in range. */
  ghost predicate Fits(a: Assignment, detCount: nat, trkCount: nat)
  {
    && InRange(a.matches, detCount, trkCount)
    && Injective(a.matches)
    && forall j :: 0 <= j < |a.unmatchedDets| ==> a.unmatchedDets[j] < detCount
  }

  /** _associate_detections_to_tracks on the live trackers' predicted boxes. */
  function Assign(cfg: Config, states: seq<TrackerState>, dets: seq<Detection>, sqrt: real -> real, solve: Solver): (a: Assignment)
    requires IsSolver(solve)
    ensures Fits(a, |dets|, |Live(states)|)
  {
    var trks := BoxesOf(Live(states), sqrt);
    SolverProposal(dets, trks, solve);
    AssociatedSound(dets, trks, cfg.iouThreshold, solve);
    AssociatedPartition(dets, trks, cfg.iouThreshold, solve);
    Associated(dets, trks, cfg.iouThreshold, solve)
  }

  /** update() of every matched tracker with its detection's box, in order. */
  function ApplyMatches(s: seq<TrackerState>, matches: seq<Pair>, dets: seq<Detection>, correct: Correction): (r: seq<TrackerState>)
    requires InRange(matches, |dets|, |s|)
    ensures |r| == |s|
    decreases |matches|
  {
    if |matches| == 0 then s
    else
      var m := matches[|matches| - 1];
      var prev := ApplyMatches(s, matches[..|matches| - 1], dets, correct);
      prev[m.1 := UpdateState(prev[m.1], dets[m.0].bbox, correct)]
  }

  /** With every tracker matched at most once, a matched tracker received
      exactly its detection's update and the others are untouched. */
  lemma {:induction false} ApplyMatchesAt(s: seq<TrackerState>, matches: seq<Pair>, dets: seq<Detection>, correct: Correction, k: nat)
    requires InRange(matches, |dets|, |s|) && Injective(matches) && k < |s|
    ensures k !in ColsOf(matches) ==> ApplyMatches(s, matches, dets, correct)[k] == s[k]
    ensures forall j :: 0 <= j < |matches| && matches[j].1 == k ==>
              ApplyMatches(s, matches, dets, correct)[k] == UpdateState(s[k], dets[matches[j].0].bbox, correct)
    decreases |matches|
  {
    if |matches| > 0 {
      var n := |matches|;
      var init := matches[..n - 1];
      assert ColsOf(init) == ColsOf(matches)[..n - 1];
      ApplyMatchesAt(s, init, dets, correct, k);
      if matches[n - 1].1 == k {
        assert k !in ColsOf(init);
      }
    }
  }

  lemma {:induction false} ApplyMatchesIds(s: seq<TrackerState>, matches: seq<Pair>, dets: seq<Detection>, correct: Correction)
    requires InRange(matches, |dets|, |s|)
    ensures Ids(ApplyMatches(s, matches, dets, correct)) == Ids(s)
    decreases |matches|
  {
    if |matches| > 0 {
      ApplyMatchesIds(s, matches[..|matches| - 1], dets, correct);
    }
  }

  /** After the update loop a tracker that had gone without an update has
      just been updated exactly when it was matched; the others are
      untouched. */
  lemma ApplyMatchesFresh(live: seq<TrackerState>, matches: seq<Pair>, dets: seq<Detection>, correct: Correction)
    requires InRange(matches, |dets|, |live|) && Injective(matches)
    requires forall k :: 0 <= k < |live| ==> live[k].timeSinceUpdate > 0
    ensures var u := ApplyMatches(live, matches, dets, correct);
      && (forall k :: 0 <= k < |live| ==> (u[k].timeSinceUpdate == 0 <==> k in ColsOf(matches)))
      && (forall k :: 0 <= k < |live| && k !in ColsOf(matches) ==> u[k] == live[k])
      && (forall j :: 0 <= j < |matches| ==>
            u[matches[j].1] == UpdateState(live[matches[j].1], dets[matches[j].0].bbox, correct))
  {
    var u := ApplyMatches(live, matches, dets, correct);
    forall k | 0 <= k < |live|
      ensures (u[k].timeSinceUpdate == 0 <==> k in ColsOf(matches))
        && (k !in ColsOf(matches) ==> u[k] == live[k])
    {
      ApplyMatchesAt(live, matches, dets, correct, k);
      if k in ColsOf(matches) {
        var j :| 0 <= j < |matches| && ColsOf(matches)[j] == k;
        assert matches[j].1 == k;
      }
    }
    forall j | 0 <= j < |matches|
      ensures u[matches[j].1] == UpdateState(live[matches[j].1], dets[matches[j].0].bbox, correct)
    {
      ApplyMatchesAt(live, matches, dets, correct, matches[j].1);
    }
  }

  /** The trackers created for the unmatched detections, ids from firstId on. */
  function Spawned(dets: seq<Detection>, idxs: seq<nat>, firstId: nat): (r: seq<TrackerState>)
    requires forall j :: 0 <= j < |idxs| ==> idxs[j] < |dets|
    ensures |r| == |idxs|
    ensures forall j :: 0 <= j < |idxs| ==> r[j] == NewState(firstId + j, dets[idxs[j]].bbox)
  {
    seq(|idxs|, j requires 0 <= j < |idxs| => NewState(firstId + j, dets[idxs[j]].bbox))
  }

  /** The tracker list just before the output loop: the live trackers
      after the update loop, then one new tracker per unmatched detection. */
  function Extend(live: seq<TrackerState>, a: Assignment, dets: seq<Detection>, nextId: nat, correct: Correction): seq<TrackerState>
    requires Fits(a, |dets|, |live|)
  {
    ApplyMatches(live, a.matches, dets, correct) + Spawned(dets, a.unmatchedDets, nextId)
  }

  /** Live trackers that were matched have just been updated with their
      detection's box, the other live trackers are untouched, and the new
      trackers follow with consecutive ids and zero counters; so among
      trackers that had gone a frame without an update, exactly the matched
      ones have time_since_update 0. */
  lemma ExtendEffect(live: seq<TrackerState>, a: Assignment, dets: seq<Detection>, nextId: nat, correct: Correction)
    requires Fits(a, |dets|, |live|)
    requires forall k :: 0 <= k < |live| ==> live[k].timeSinceUpdate > 0
    ensures var all := Extend(live, a, dets, nextId, correct);
      && |all| == |live| + |a.unmatchedDets|
      && (forall k :: 0 <= k < |live| ==> (all[k].timeSinceUpdate == 0 <==> k in ColsOf(a.matches)))
      && (forall k :: 0 <= k < |live| && k !in ColsOf(a.matches) ==> all[k] == live[k])
      && (forall j :: 0 <= j < |a.matches| ==>
            all[a.matches[j].1] == UpdateState(live[a.matches[j].1], dets[a.matches[j].0].bbox, correct))
      && (forall j :: 0 <= j < |a.unmatchedDets| ==>
            all[|live| + j] == NewState(nextId + j, dets[a.unmatchedDets[j]].bbox))
  {
    var all := Extend(live, a, dets, nextId, correct);
    var u := ApplyMatches(live, a.matches, dets, correct);
    var spawned := Spawned(dets, a.unmatchedDets, nextId);
    forall k | 0 <= k < |live|
      ensures all[k] == u[k]
    {
    }
    forall j | 0 <= j < |spawned|
      ensures all[|live| + j] == spawned[j]
    {
    }
    ApplyMatchesFresh(live, a.matches, dets, correct);
  }

  /** New ids are handed out from the counter, so the ids stay distinct
      and below the advanced counter. */
  lemma ExtendIds(live: seq<TrackerState>, a: Assignment, dets: seq<Detection>, nextId: nat, correct: Correction)
    requires Fits(a, |dets|, |live|)
    requires UniqueIds(live) && IdsBelow(live, nextId)
    ensures var all := Extend(live, a, dets, nextId, correct);
      UniqueIds(all) && IdsBelow(all, nextId + |a.unmatchedDets|)
  {
    var updated := ApplyMatches(live, a.matches, dets, correct);
    var spawned := Spawned(dets, a.unmatchedDets, nextId);
    ApplyMatchesIds(live, a.matches, dets, correct);
    assert Ids(updated + spawned) == Ids(updated) + Ids(spawned);
    forall k | 0 <= k < |updated|
      ensures updated[k].id < nextId
    {
      assert Ids(updated)[k] == Ids(live)[k];
    }
    forall i, j | 0 <= i < j < |updated + spawned|
      ensures Ids(updated + spawned)[i] != Ids(updated + spawned)[j]
    {
      if j < |updated| {
        assert Ids(updated)[i] == Ids(live)[i] && Ids(updated)[j] == Ids(live)[j];
      }
    }
  }

  // ---------------------------------------------------------------------------
  // The output loop
  // ---------------------------------------------------------------------------

  predicate Dead(cfg: Config, t: TrackerState)
  {
    t.timeSinceUpdate > cfg.maxAge
  }

  /** A tracker reached by the output loop yields a snapshot. */
  predicate Emits(cfg: Config, frameCount: nat, t: TrackerState)
  {
    !Dead(cfg, t) && (t.hitStreak >= cfg.minHits || frameCount <= cfg.minHits)
  }

  /** The number of dead trackers among s[lo..]; each one pops the tail. */
  function DeadFrom(cfg: Config, s: seq<TrackerState>, lo: nat): (d: nat)
    requires lo <= |s|
    ensures d <= |s| - lo
    decreases |s| - lo
  {
    if lo == |s| then 0 else DeadFrom(cfg, s, lo + 1) + (if Dead(cfg, s[lo]) then 1 else 0)
  }

  /** No tail is popped exactly when no tracker is dead, and every entry
      from lo on is popped exactly when all of them are dead. */
  lemma {:induction false} DeadFromSpec(cfg: Config, s: seq<TrackerState>, lo: nat)
    requires lo <= |s|
    ensures DeadFrom(cfg, s, lo) == 0 <==> forall k :: lo <= k < |s| ==> !Dead(cfg, s[k])
    ensures DeadFrom(cfg, s, lo) == |s| - lo <==> forall k :: lo <= k < |s| ==> Dead(cfg, s[k])
    decreases |s| - lo
  {
    if lo < |s| {
      DeadFromSpec(cfg, s, lo + 1);
    }
  }

  /** The positions in s[lo..] that yield a snapshot, in visiting order
      (from the end of the list towards lo). */
  function EmittedIndices(cfg: Config, frameCount: nat, s: seq<TrackerState>, lo: nat): (r: seq<nat>)
    requires lo <= |s|
    ensures forall j :: 0 <= j < |r| ==> lo <= r[j] < |s|
    decreases |s| - lo
  {
    if lo == |s| then []
    else EmittedIndices(cfg, frameCount, s, lo + 1) + (if Emits(cfg, frameCount, s[lo]) then [lo] else [])
  }

  lemma {:induction false} EmittedIndicesSpec(cfg: Config, frameCount: nat, s: seq<TrackerState>, lo: nat)
    requires lo <= |s|
    ensures var r := EmittedIndices(cfg, frameCount, s, lo);
      && (forall k: nat :: k in r <==> lo <= k < |s| && Emits(cfg, frameCount, s[k]))
      && (forall i, j :: 0 <= i < j < |r| ==> r[i] > r[j])
    decreases |s| - lo
  {
    if lo < |s| {
      EmittedIndicesSpec(cfg, frameCount, s, lo + 1);
    }
  }

  /** The detection matched to list position k this frame: the first match
      whose tracker index is k, else label "unknown" and confidence 0.0. */
  function MatchedDetection(matches: seq<Pair>, dets: seq<Detection>, k: nat): (string, real)
    requires RowsBelow(matches, |dets|)
  {
    if |matches| == 0 then ("unknown", 0.0)
    else if matches[0].1 == k then (dets[matches[0].0].classLabel, dets[matches[0].0].confidence)
    else MatchedDetection(matches[1..], dets, k)
  }

  lemma {:induction false} MatchedDetectionSpec(matches: seq<Pair>, dets: seq<Detection>, k: nat)
    requires RowsBelow(matches, |dets|)
    ensures (forall j :: 0 <= j < |matches| ==> matches[j].1 != k) ==> MatchedDetection(matches, dets, k) == ("unknown", 0.0)
    ensures forall j :: 0 <= j < |matches| && matches[j].1 == k && (forall i :: 0 <= i < j ==> matches[i].1 != k) ==>
              MatchedDetection(matches, dets, k) == (dets[matches[j].0].classLabel, dets[matches[j].0].confidence)
  {
    if |matches| > 0 {
      MatchedDetectionSpec(matches[1..], dets, k);
      forall j | 0 < j < |matches| && matches[j].1 == k && (forall i :: 0 <= i < j ==> matches[i].1 != k)
        ensures MatchedDetection(matches, dets, k) == (dets[matches[j].0].classLabel, dets[matches[j].0].confidence)
      {
        assert matches[0].1 != k;
        assert matches[1..][j - 1] == matches[j];
        assert forall i :: 0 <= i < j - 1 ==> matches[1..][i].1 != k by {
          forall i | 0 <= i < j - 1 ensures matches[1..][i].1 != k {
            assert matches[1..][i] == matches[i + 1];
          }
        }
      }
    }
  }

  /** The Track built for the tracker at list position k. */
  function Snapshot(t: TrackerState, k: nat, matches: seq<Pair>, dets: seq<Detection>, sqrt: real -> real): Track
    requires RowsBelow(matches, |dets|)
  {
    var b := StateBox(t, sqrt);
    var found := MatchedDetection(matches, dets, k);
    Track(t.id, b, found.0, found.1, t.age, t.hits, t.timeSinceUpdate, (t.mean.vx, t.mean.vy), [Center(b)])
  }

  function Snapshots(s: seq<TrackerState>, idx: seq<nat>, matches: seq<Pair>, dets: seq<Detection>, sqrt: real -> real): (r: seq<Track>)
    requires forall j :: 0 <= j < |idx| ==> idx[j] < |s|
    requires RowsBelow(matches, |dets|)
    ensures |r| == |idx|
    ensures forall j :: 0 <= j < |idx| ==> r[j] == Snapshot(s[idx[j]], idx[j], matches, dets, sqrt)
  {
    seq(|idx|, j requires 0 <= j < |idx| => Snapshot(s[idx[j]], idx[j], matches, dets, sqrt))
  }

  predicate RowsBelow(matches: seq<Pair>, detCount: nat)
  {
    forall j :: 0 <= j < |matches| ==> matches[j].0 < detCount
  }

  /** The list after the output loop: each dead tracker popped the tail. */
  function Survivors(cfg: Config, all: seq<TrackerState>): seq<TrackerState>
  {
    all[..|all| - DeadFrom(cfg, all, 0)]
  }

  /** The snapshots the output loop returns. */
  function Emitted(cfg: Config, frameCount: nat, all: seq<TrackerState>, matches: seq<Pair>, dets: seq<Detection>, sqrt: real -> real): seq<Track>
    requires RowsBelow(matches, |dets|)
  {
    Snapshots(all, EmittedIndices(cfg, frameCount, all, 0), matches, dets, sqrt)
  }

  /** One call of Tracker.update, given the association's result. */
  function StepWith(cfg: Config, s: SortState, dets: seq<Detection>, a: Assignment, sqrt: real -> real, correct: Correction): Outcome
    requires Fits(a, |dets|, |Live(s.trackers)|)
  {
    var all := Extend(Live(s.trackers), a, dets, s.nextId, correct);
    Outcome(
      SortState(Survivors(cfg, all), s.frameCount + 1, s.nextId + |a.unmatchedDets|),
      Emitted(cfg, s.frameCount + 1, all, a.matches, dets, sqrt))
  }

  /** One call of Tracker.update. */
  function Step(cfg: Config, s: SortState, dets: seq<Detection>, sqrt: real -> real, correct: Correction, solve: Solver): Outcome
    requires IsSolver(solve)
  {
    StepWith(cfg, s, dets, Assign(cfg, s.trackers, dets, sqrt, solve), sqrt, correct)
  }

  // ---------------------------------------------------------------------------
  // Properties of the output loop
  // ---------------------------------------------------------------------------

  /** Popping from the tail keeps a prefix, so distinct ids stay distinct. */
  lemma SurvivorsIds(cfg: Config, all: seq<TrackerState>, bound: nat)
    requires UniqueIds(all) && IdsBelow(all, bound)
    ensures UniqueIds(Survivors(cfg, all)) && IdsBelow(Survivors(cfg, all), bound)
  {
    var n := |all| - DeadFrom(cfg, all, 0);
    assert Ids(all[..n]) == Ids(all)[..n];
  }

  /** A snapshot carries its tracker's counters, a box centred on the
      state, one history point at that centre, and the label and confidence
      of the detection matched to its position, or "unknown" and 0.0. */
  lemma SnapshotContents(t: TrackerState, k: nat, matches: seq<Pair>, dets: seq<Detection>, sqrt: real -> real)
    requires RowsBelow(matches, |dets|) && Injective(matches)
    ensures var tr := Snapshot(t, k, matches, dets, sqrt);
      && tr.id == t.id && tr.age == t.age && tr.hits == t.hits
      && tr.timeSinceUpdate == t.timeSinceUpdate
      && tr.velocity == (t.mean.vx, t.mean.vy)
      && tr.bbox == StateBox(t, sqrt)
      && Center(tr.bbox) == (t.mean.cx, t.mean.cy)
      && tr.history == [Center(tr.bbox)]
      && (k !in ColsOf(matches) ==> tr.classLabel == "unknown" && tr.confidence == 0.0)
      && (forall m :: 0 <= m < |matches| && matches[m].1 == k ==>
            tr.classLabel == dets[matches[m].0].classLabel && tr.confidence == dets[matches[m].0].confidence)
  {
    MatchedDetectionSpec(matches, dets, k);
    if k !in ColsOf(matches) {
      forall m | 0 <= m < |matches|
        ensures matches[m].1 != k
      {
        assert ColsOf(matches)[m] == matches[m].1;
      }
    }
  }

  /** The snapshots are those of the trackers that are alive and confirmed
      (or the warm-up frames are still running), taken from the end of the
      list towards its start. */
  lemma EmittedOrder(cfg: Config, frameCount: nat, all: seq<TrackerState>, matches: seq<Pair>, dets: seq<Detection>, sqrt: real -> real)
    requires RowsBelow(matches, |dets|) && Injective(matches)
    ensures var idx := EmittedIndices(cfg, frameCount, all, 0);
      var tracks := Emitted(cfg, frameCount, all, matches, dets, sqrt);
      && |tracks| == |idx|
      && (forall j :: 0 <= j < |idx| ==> idx[j] < |all| && tracks[j] == Snapshot(all[idx[j]], idx[j], matches, dets, sqrt))
      && (forall i, j :: 0 <= i < j < |idx| ==> idx[i] > idx[j])
      && (forall k: nat :: k in idx <==> k < |all| && Emits(cfg, frameCount, all[k]))
  {
    EmittedIndicesSpec(cfg, frameCount, all, 0);
  }

  /** A tracker whose id is distinct from the others appears among the
      snapshots exactly when it emits. */
  lemma EmittedIff(cfg: Config, frameCount: nat, all: seq<TrackerState>, matches: seq<Pair>, dets: seq<Detection>, sqrt: real -> real, k: nat)
    requires RowsBelow(matches, |dets|) && Injective(matches)
    requires UniqueIds(all) && k < |all|
    ensures var tracks := Emitted(cfg, frameCount, all, matches, dets, sqrt);
      (exists j :: 0 <= j < |tracks| && tracks[j].id == all[k].id) <==> Emits(cfg, frameCount, all[k])
  {
    var idx := EmittedIndices(cfg, frameCount, all, 0);
    var tracks := Emitted(cfg, frameCount, all, matches, dets, sqrt);
    EmittedOrder(cfg, frameCount, all, matches, dets, sqrt);
    if Emits(cfg, frameCount, all[k]) {
      assert k in idx;
      var j :| 0 <= j < |idx| && idx[j] == k;
      assert tracks[j].id == all[k].id;
    } else {
      forall j | 0 <= j < |tracks|
        ensures tracks[j].id != all[k].id
      {
        assert idx[j] in idx;
        assert Ids(all)[idx[j]] != Ids(all)[k];
      }
    }
  }

  lemma {:induction false} NoneEmit(cfg: Config, frameCount: nat, s: seq<TrackerState>, lo: nat)
    requires lo <= |s|
    requires forall k :: lo <= k < |s| ==> Dead(cfg, s[k])
    ensures EmittedIndices(cfg, frameCount, s, lo) == []
    decreases |s| - lo
  {
    if lo < |s| {
      NoneEmit(cfg, frameCount, s, lo + 1);
    }
  }

  /** When every tracker is dead the list empties and nothing is reported. */
  lemma AllDead(cfg: Config, frameCount: nat, all: seq<TrackerState>, matches: seq<Pair>, dets: seq<Detection>, sqrt: real -> real)
    requires RowsBelow(matches, |dets|)
    requires forall k :: 0 <= k < |all| ==> Dead(cfg, all[k])
    ensures Survivors(cfg, all) == [] && Emitted(cfg, frameCount, all, matches, dets, sqrt) == []
  {
    DeadFromSpec(cfg, all, 0);
    NoneEmit(cfg, frameCount, all, 0);
  }

  // ---------------------------------------------------------------------------
  // Properties of one update
  // ---------------------------------------------------------------------------

  /** The frame counter advances by one and the id counter by one per new
      tracker; the list first grows by one tracker per unmatched detection
      and then loses one entry from its tail per dead tracker. */
  lemma StepBookkeeping(cfg: Config, s: SortState, dets: seq<Detection>, a: Assignment, sqrt: real -> real, correct: Correction)
    requires Fits(a, |dets|, |Live(s.trackers)|)
    ensures var out := StepWith(cfg, s, dets, a, sqrt, correct);
      var all := Extend(Live(s.trackers), a, dets, s.nextId, correct);
      && out.next.frameCount == s.frameCount + 1
      && out.next.nextId == s.nextId + |a.unmatchedDets|
      && |all| == |Live(s.trackers)| + |a.unmatchedDets|
      && |out.next.trackers| == |all| - DeadFrom(cfg, all, 0)
      && out.next.trackers == all[..|out.next.trackers|]
  {
  }

  /** Within one update, a live tracker has time_since_update 0 exactly
      when it was matched. */
  lemma StepMatchedIffFresh(s: SortState, dets: seq<Detection>, a: Assignment, correct: Correction)
    requires Fits(a, |dets|, |Live(s.trackers)|)
    ensures var all := Extend(Live(s.trackers), a, dets, s.nextId, correct);
      forall k :: 0 <= k < |Live(s.trackers)| ==> (all[k].timeSinceUpdate == 0 <==> k in ColsOf(a.matches))
  {
    LiveNotFresh(s.trackers);
    ExtendEffect(Live(s.trackers), a, dets, s.nextId, correct);
  }

  /** StepWith assembled from the result of each of its stages. */
  lemma StepFromStages(cfg: Config, s: SortState, dets: seq<Detection>, a: Assignment, sqrt: real -> real, correct: Correction,
                       all: seq<TrackerState>)
    requires Fits(a, |dets|, |Live(s.trackers)|)
    requires all == Extend(Live(s.trackers), a, dets, s.nextId, correct)
    ensures RowsBelow(a.matches, |dets|)
    ensures StepWith(cfg, s, dets, a, sqrt, correct) ==
      Outcome(SortState(Survivors(cfg, all), s.frameCount + 1, s.nextId + |a.unmatchedDets|),
              Emitted(cfg, s.frameCount + 1, all, a.matches, dets, sqrt))
  {
  }

  /** Distinct ids below the counter are preserved from update to update. */
  lemma StepPreservesIds(cfg: Config, s: SortState, dets: seq<Detection>, a: Assignment, sqrt: real -> real, correct: Correction)
    requires Fits(a, |dets|, |Live(s.trackers)|)
    requires UniqueIds(s.trackers) && IdsBelow(s.trackers, s.nextId)
    ensures var next := StepWith(cfg, s, dets, a, sqrt, correct).next;
      UniqueIds(next.trackers) && IdsBelow(next.trackers, next.nextId) && next.nextId >= s.nextId
  {
    LiveIds(s.trackers, s.nextId);
    ExtendIds(Live(s.trackers), a, dets, s.nextId, correct);
    SurvivorsIds(cfg, Extend(Live(s.trackers), a, dets, s.nextId, correct), s.nextId + |a.unmatchedDets|);
  }

  /** One call of Tracker.update keeps ids distinct and below the counter. */
  lemma StepKeepsIds(cfg: Config, s: SortState, dets: seq<Detection>, sqrt: real -> real, correct: Correction, solve: Solver)
    requires IsSolver(solve)
    requires UniqueIds(s.trackers) && IdsBelow(s.trackers, s.nextId)
    ensures var next := Step(cfg, s, dets, sqrt, correct, solve).next;
      UniqueIds(next.trackers) && IdsBelow(next.trackers, next.nextId) && next.nextId >= s.nextId
  {
    StepPreservesIds(cfg, s, dets, Assign(cfg, s.trackers, dets, sqrt, solve), sqrt, correct);
  }

  /** Given distinct ids, a tracker of the list is reported by an update
      exactly when it emits. */
  lemma StepEmitsIff(cfg: Config, s: SortState, dets: seq<Detection>, a: Assignment, sqrt: real -> real, correct: Correction, k: nat)
    requires Fits(a, |dets|, |Live(s.trackers)|)
    requires UniqueIds(s.trackers) && IdsBelow(s.trackers, s.nextId)
    requires k < |Live(s.trackers)| + |a.unmatchedDets|
    ensures var out := StepWith(cfg, s, dets, a, sqrt, correct);
      var t := Extend(Live(s.trackers), a, dets, s.nextId, correct)[k];
      (exists j :: 0 <= j < |out.tracks| && out.tracks[j].id == t.id) <==> Emits(cfg, s.frameCount + 1, t)
  {
    var all := Extend(Live(s.trackers), a, dets, s.nextId, correct);
    assert UniqueIds(all) by {
      LiveIds(s.trackers, s.nextId);
      ExtendIds(Live(s.trackers), a, dets, s.nextId, correct);
    }
    EmittedIff(cfg, s.frameCount + 1, all, a.matches, dets, sqrt, k);
  }

  lemma LiveEmpty()
    ensures Live([]) == []
  {
    assert Map([], PredictState) == [];
  }

  /** An empty first frame returns nothing and keeps no tracker. */
  lemma EmptyFirstFrame(cfg: Config, nextId: nat, sqrt: real -> real, correct: Correction, solve: Solver)
    requires IsSolver(solve)
    ensures var out := Step(cfg, SortState([], 0, nextId), [], sqrt, correct, solve);
      out.tracks == [] && out.next == SortState([], 1, nextId)
  {
    LiveEmpty();
    NoDetections(cfg, SortState([], 0, nextId), sqrt, correct, solve);
  }

  /** A single detection that no tracker claims spawns one tracker; in the
      warm-up frames it is reported at once, under the next id, with the
      label "unknown", because its position is not among the matches. */
  lemma SpawnedReported(cfg: Config, nextId: nat, d: Detection, sqrt: real -> real, correct: Correction)
    requires cfg.minHits >= 1 && cfg.maxAge >= 0
    ensures Live([]) == []
    ensures var out := StepWith(cfg, SortState([], 0, nextId), [d], Assignment([], [0], []), sqrt, correct);
      var t := NewState(nextId, d.bbox);
      var b := StateBox(t, sqrt);
      && out.next == SortState([t], 1, nextId + 1)
      && out.tracks == [Track(nextId, b, "unknown", 0.0, 0, 0, 0, (0.0, 0.0), [Center(b)])]
  {
    LiveEmpty();
    var t := NewState(nextId, d.bbox);
    var all := Extend([], Assignment([], [0], []), [d], nextId, correct);
    assert all == [t] by {
      assert ApplyMatches([], [], [d], correct) == [];
    }
    assert DeadFrom(cfg, all, 0) == 0;
    assert EmittedIndices(cfg, 1, all, 0) == [0];
  }

  /** The first frame with one detection reports it at once. */
  lemma FirstDetection(cfg: Config, nextId: nat, d: Detection, sqrt: real -> real, correct: Correction, solve: Solver)
    requires IsSolver(solve)
    requires cfg.minHits >= 1 && cfg.maxAge >= 0
    ensures var out := Step(cfg, SortState([], 0, nextId), [d], sqrt, correct, solve);
      var t := NewState(nextId, d.bbox);
      var b := StateBox(t, sqrt);
      && out.next == SortState([t], 1, nextId + 1)
      && out.tracks == [Track(nextId, b, "unknown", 0.0, 0, 0, 0, (0.0, 0.0), [Center(b)])]
  {
    SpawnedReported(cfg, nextId, d, sqrt, correct);
    assert Assign(cfg, [], [d], sqrt, solve) == Assignment([], [0], []) by {
      assert BoxesOf([], sqrt) == [];
      assert Range(1) == [0];
    }
  }

  lemma NoDetections(cfg: Config, s: SortState, sqrt: real -> real, correct: Correction, solve: Solver)
    requires IsSolver(solve)
    ensures var a := Assign(cfg, s.trackers, [], sqrt, solve);
      a.matches == [] && a.unmatchedDets == [] && Extend(Live(s.trackers), a, [], s.nextId, correct) == Live(s.trackers)
  {
    AssociatedNoDetections(BoxesOf(Live(s.trackers), sqrt), cfg.iouThreshold, solve);
  }

  /** Without detections nothing is matched or spawned: every tracker of the
      new list went one more frame without an update. */
  lemma EmptyFrameAges(cfg: Config, s: SortState, sqrt: real -> real, correct: Correction, solve: Solver)
    requires IsSolver(solve)
    ensures var next := Step(cfg, s, [], sqrt, correct, solve).next;
      forall k :: 0 <= k < |next.trackers| ==> next.trackers[k].timeSinceUpdate >= 1
  {
    var a := Assign(cfg, s.trackers, [], sqrt, solve);
    assert Step(cfg, s, [], sqrt, correct, solve) == StepWith(cfg, s, [], a, sqrt, correct);
    var all := Extend(Live(s.trackers), a, [], s.nextId, correct);
    assert all == Live(s.trackers) by {
      NoDetections(cfg, s, sqrt, correct, solve);
    }
    LiveNotFresh(s.trackers);
  }

  predicate TwiceUnupdated(t: TrackerState) { t.timeSinceUpdate >= 2 }

  /** With max_age 1, two frames without detections leave no tracker and
      report nothing in the second frame. */
  lemma EmptyFramesExpire(cfg: Config, s: SortState, sqrt: real -> real, correct: Correction, solve: Solver)
    requires IsSolver(solve) && cfg.maxAge == 1
    ensures var first := Step(cfg, s, [], sqrt, correct, solve).next;
      var second := Step(cfg, first, [], sqrt, correct, solve);
      second.tracks == [] && second.next.trackers == []
  {
    var first := Step(cfg, s, [], sqrt, correct, solve).next;
    EmptyFrameAges(cfg, s, sqrt, correct, solve);
    NoDetections(cfg, first, sqrt, correct, solve);
    var predicted := Map(first.trackers, PredictState);
    KeepProperties(predicted, Map(predicted, PredictionIsNaN), TwiceUnupdated);
    var a := Assign(cfg, first.trackers, [], sqrt, solve);
    AllDead(cfg, first.frameCount + 1, Live(first.trackers), a.matches, [], sqrt);
  }
}
