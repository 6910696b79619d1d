/** The per-track motion record (KalmanBoxTracker): the mean of the
    7-dimensional state [cx, cy, s, r, vx, vy, vs], the constant-velocity
    transition, the frame counters and the process-wide id counter. */
module Motion {
  import opened Geometry

  /** The state mean kf.x. */
  datatype Mean = Mean(cx: real, cy: real, s: real, r: real, vx: real, vy: real, vs: real)

  function ToVector(m: Mean): (v: seq<real>)
    ensures |v| == 7
  {
    [m.cx, m.cy, m.s, m.r, m.vx, m.vy, m.vs]
  }

  /** The state transition matrix F of the constant-velocity model. */
  const F: seq<seq<real>> := [
    [1.0, 0.0, 0.0, 0.0, 1.0, 0.0, 0.0],
    [0.0, 1.0, 0.0, 0.0, 0.0, 1.0, 0.0],
    [0.0, 0.0, 1.0, 0.0, 0.0, 0.0, 1.0],
    [0.0, 0.0, 0.0, 1.0, 0.0, 0.0, 0.0],
    [0.0, 0.0, 0.0, 0.0, 1.0, 0.0, 0.0],
    [0.0, 0.0, 0.0, 0.0, 0.0, 1.0, 0.0],
    [0.0, 0.0, 0.0, 0.0, 0.0, 0.0, 1.0]
  ]

  function Dot(u: seq<real>, v: seq<real>): real
    requires |u| == |v|
  {
    if |u| == 0 then 0.0 else u[0] * v[0] + Dot(u[1..], v[1..])
  }

  ghost predicate Rows(m: seq<seq<real>>, width: nat)
  {
    forall i :: 0 <= i < |m| ==> |m[i]| == width
  }

  /** One step of the dot product of two suffixes. */
  lemma DotSuffix(u: seq<real>, v: seq<real>, k: nat)
    requires |u| == |v| && k < |u|
    ensures Dot(u[k..], v[k..]) == u[k] * v[k] + Dot(u[k + 1..], v[k + 1..])
  {
    assert u[k..][1..] == u[k + 1..] && v[k..][1..] == v[k + 1..];
  }

  lemma DotLast3(u: seq<real>, v: seq<real>)
    requires |u| == 7 && |v| == 7
    ensures Dot(u[4..], v[4..]) == u[4] * v[4] + u[5] * v[5] + u[6] * v[6]
  {
    DotSuffix(u, v, 4); DotSuffix(u, v, 5); DotSuffix(u, v, 6);
    assert Dot(u[7..], v[7..]) == 0.0;
  }

  lemma Dot7(u: seq<real>, v: seq<real>)
    requires |u| == 7 && |v| == 7
    ensures Dot(u, v) == u[0] * v[0] + u[1] * v[1] + u[2] * v[2] + u[3] * v[3]
                         + u[4] * v[4] + u[5] * v[5] + u[6] * v[6]
  {
    assert u[0..] == u && v[0..] == v;
    DotSuffix(u, v, 0); DotSuffix(u, v, 1); DotSuffix(u, v, 2); DotSuffix(u, v, 3);
    DotLast3(u, v);
  }

  /** The matrix-vector product m . v */
  function MatVec(m: seq<seq<real>>, v: seq<real>): (w: seq<real>)
    requires Rows(m, |v|)
    ensures |w| == |m|
  {
    if |m| == 0 then [] else [Dot(m[0], v)] + MatVec(m[1..], v)
  }

  lemma {:induction false} MatVecAt(m: seq<seq<real>>, v: seq<real>, i: nat)
    requires Rows(m, |v|) && i < |m|
    ensures MatVec(m, v)[i] == Dot(m[i], v)
  {
    if i > 0 {
      MatVecAt(m[1..], v, i - 1);
    }
  }

  /** The mean step of kf.predict(): the centre and the scale advance by
      their velocities, everything else is kept. */
  function Transition(m: Mean): Mean
  {
    Mean(m.cx + m.vx, m.cy + m.vy, m.s + m.vs, m.r, m.vx, m.vy, m.vs)
  }

  /** The mean step is the product x := F x with the transition matrix F. */
  lemma TransitionIsF(m: Mean)
    ensures Rows(F, 7) && ToVector(Transition(m)) == MatVec(F, ToVector(m))
  {
    var v := ToVector(m);
    assert Rows(F, 7);
    var w := MatVec(F, v);
    forall i | 0 <= i < 7
      ensures w[i] == Dot(F[i], v)
    {
      MatVecAt(F, v, i);
    }
    Dot7(F[0], v); Dot7(F[1], v); Dot7(F[2], v); Dot7(F[3], v);
    Dot7(F[4], v); Dot7(F[5], v); Dot7(F[6], v);
    assert w[0] == Dot(F[0], v) == m.cx + m.vx;
    assert w[1] == Dot(F[1], v) == m.cy + m.vy;
    assert w[2] == Dot(F[2], v) == m.s + m.vs;
    assert w[3] == Dot(F[3], v) == m.r;
    assert w[4] == Dot(F[4], v) == m.vx;
    assert w[5] == Dot(F[5], v) == m.vy;
    assert w[6] == Dot(F[6], v) == m.vs;
  }

  /** The scale-velocity guard of predict: vs becomes 0 when s + vs <= 0. */
  function ClampScaleVelocity(m: Mean): (c: Mean)
    ensures c.vs == (if m.vs + m.s <= 0.0 then 0.0 else m.vs)
    ensures c == m.(vs := c.vs)
  {
    if m.vs + m.s <= 0.0 then m.(vs := 0.0) else m
  }

  function MeasurementOf(m: Mean): Measurement
  {
    Measurement(m.cx, m.cy, m.s, m.r)
  }

  /** The mean of a new tracker: the box's measurement, zero velocities. */
  function InitialMean(b: Box): (m: Mean)
    ensures MeasurementOf(m) == BBoxToZ(b)
    ensures m.vx == 0.0 && m.vy == 0.0 && m.vs == 0.0
  {
    var z := BBoxToZ(b);
    Mean(z.cx, z.cy, z.s, z.r, 0.0, 0.0, 0.0)
  }

  /** The Kalman correction of filterpy is not part of this model: the
      caller supplies the posterior mean for a prior mean and a measurement. */
  type Correction = (Mean, Measurement) -> Mean

  /** The value of one KalmanBoxTracker. */
  datatype TrackerState = TrackerState(
    id: nat,
    mean: Mean,
    age: nat,
    hits: nat,
    hitStreak: nat,
    timeSinceUpdate: nat)

  function NewState(id: nat, b: Box): TrackerState
  {
    TrackerState(id, InitialMean(b), 0, 0, 0, 0)
  }

  /** The effect of predict on a tracker. */
  function PredictState(t: TrackerState): TrackerState
  {
    t.(mean := Transition(ClampScaleVelocity(t.mean)),
       age := t.age + 1,
       hitStreak := if t.timeSinceUpdate > 0 then 0 else t.hitStreak,
       timeSinceUpdate := t.timeSinceUpdate + 1)
  }

  /** The effect of update(bbox) on a tracker. */
  function UpdateState(t: TrackerState, b: Box, correct: Correction): TrackerState
  {
    t.(timeSinceUpdate := 0,
       hits := t.hits + 1,
       hitStreak := t.hitStreak + 1,
       mean := correct(t.mean, BBoxToZ(b)))
  }

  /** get_state: the box of the mean's measurement part. */
  function StateBox(t: TrackerState, sqrt: real -> real): (b: Box)
    ensures Center(b) == (t.mean.cx, t.mean.cy)
  {
    ZToBBox(MeasurementOf(t.mean), sqrt)
  }

  /** The np.sqrt of the predicted box's width is taken of a negative number. */
  predicate PredictionIsNaN(t: TrackerState)
  {
    SqrtOfNegative(MeasurementOf(t.mean))
  }

  lemma PredictEffect(t: TrackerState)
    ensures var p := PredictState(t);
      && p.id == t.id && p.hits == t.hits
      && p.age == t.age + 1
      && p.timeSinceUpdate == t.timeSinceUpdate + 1
      && (t.timeSinceUpdate > 0 ==> p.hitStreak == 0)
      && (t.timeSinceUpdate == 0 ==> p.hitStreak == t.hitStreak)
      && var c := if t.mean.vs + t.mean.s <= 0.0 then 0.0 else t.mean.vs;
         p.mean == Mean(t.mean.cx + t.mean.vx, t.mean.cy + t.mean.vy, t.mean.s + c,
                        t.mean.r, t.mean.vx, t.mean.vy, c)
  {
  }

  /** The guard keeps a positive scale positive: the predicted scale is
      positive, or it is the old scale when the velocity would not have
      made it positive. */
  lemma PredictScaleGuard(t: TrackerState)
    ensures PredictState(t).mean.s > 0.0 || PredictState(t).mean.s == t.mean.s
    ensures t.mean.s > 0.0 ==> PredictState(t).mean.s > 0.0
  {
  }

  /** A new tracker's box is the box it was created from. */
  lemma NewStateBox(id: nat, b: Box, sqrt: real -> real)
    requires IsSqrt(sqrt) && Width(b) > 0.0 && Height(b) > 0.0
    ensures StateBox(NewState(id, b), sqrt) == b
  {
    BoxRoundTrip(b, sqrt);
  }

  /** KalmanBoxTracker.count: one counter shared by every tracker manager. */
  class IdCounter {
    var count: nat

    constructor ()
      ensures count == 0
    {
      count := 0;
    }
  }

  /** One motion record; its fields are updated in place by predict and update. */
  class KalmanBoxTracker {
    const id: nat
    var mean: Mean
    var age: nat
    var hits: nat
    var hitStreak: nat
    var timeSinceUpdate: nat

    function State(): TrackerState
      reads this
    {
      TrackerState(id, mean, age, hits, hitStreak, timeSinceUpdate)
    }

    /** Takes the next id from the shared counter. */
    constructor (bbox: Box, counter: IdCounter)
      modifies counter
      ensures id == old(counter.count)
      ensures age == 0 && hits == 0 && hitStreak == 0 && timeSinceUpdate == 0
      ensures mean == InitialMean(bbox)
      ensures State() == NewState(old(counter.count), bbox)
      ensures counter.count == old(counter.count) + 1
    {
      mean := InitialMean(bbox);
      timeSinceUpdate := 0;
      id := counter.count;
      counter.count := counter.count + 1;
      hits := 0;
      hitStreak := 0;
      age := 0;
    }

    method Predict(sqrt: real -> real) returns (pos: Box)
      modifies this
      ensures mean == Transition(ClampScaleVelocity(old(mean)))
      ensures age == old(age) + 1 && timeSinceUpdate == old(timeSinceUpdate) + 1
      ensures hitStreak == (if old(timeSinceUpdate) > 0 then 0 else old(hitStreak))
      ensures hits == old(hits)
      ensures State() == PredictState(old(State()))
      ensures pos == StateBox(State(), sqrt)
    {
      if mean.vs + mean.s <= 0.0 {
        mean := mean.(vs := 0.0);
      }
      mean := Transition(mean);
      age := age + 1;
      if timeSinceUpdate > 0 {
        hitStreak := 0;
      }
      timeSinceUpdate := timeSinceUpdate + 1;
      pos := GetState(sqrt);
    }

    method Update(bbox: Box, correct: Correction)
      modifies this
      ensures timeSinceUpdate == 0 && hits == old(hits) + 1 && hitStreak == old(hitStreak) + 1
      ensures age == old(age) && mean == correct(old(mean), BBoxToZ(bbox))
      ensures State() == UpdateState(old(State()), bbox, correct)
    {
      timeSinceUpdate := 0;
      hits := hits + 1;
      hitStreak := hitStreak + 1;
      mean := correct(mean, BBoxToZ(bbox));
    }

    /** The current box estimate; it is centred on the state's centre. */
    function GetState(sqrt: real -> real): (b: Box)
      reads this
      ensures Center(b) == (mean.cx, mean.cy)
      ensures b == StateBox(State(), sqrt)
    {
      ZToBBox(MeasurementOf(mean), sqrt)
    }
  }
}
