/**
 Conservation in the spring mechanics: springs add no net force and no net torque,
 whatever the spring graph, and a Runge-Kutta step free of external forces keeps the
 total momentum exactly.
 */
module Momentum {
  import opened Common
  import opened Mechanics

  // ---------------------------------------------------------------------------
  // Weighted sums
  // ---------------------------------------------------------------------------

  function Dot(w: seq<real>, v: seq<real>): real
    requires |w| == |v|
  {
    if |w| == 0 then 0.0 else Dot(w[..|w| - 1], v[..|v| - 1]) + w[|w| - 1] * v[|v| - 1]
  }

  /** r = u + c * v, entry by entry. */
  ghost predicate Combines(r: seq<real>, u: seq<real>, c: real, v: seq<real>) {
    |r| == |u| == |v| && forall i :: 0 <= i < |r| ==> r[i] == u[i] + c * v[i]
  }

  lemma {:induction false} SumOfTimes(c: real, a: real, b: real)
    ensures Times(c, a) + Times(c, b) == Times(c, a + b)
  {
  }

  lemma {:induction false} ProductIsLinear(w: real, r: real, u: real, c: real, v: real)
    requires r == u + c * v
    ensures w * r == w * u + Times(c, w * v)
  {
    assert w * (c * v) == c * (w * v);
  }

  /** The last terms of three sums. */
  lemma {:induction false} LastTerms(w: seq<real>, r: seq<real>, u: seq<real>, c: real, v: seq<real>, n: nat)
    returns (rl: real, ul: real, vl: real)
    requires |w| == |r| == n + 1 && Combines(r, u, c, v)
    ensures Dot(w, r) == Dot(w[..n], r[..n]) + rl && Dot(w, u) == Dot(w[..n], u[..n]) + ul
    ensures Dot(w, v) == Dot(w[..n], v[..n]) + vl && rl == ul + Times(c, vl)
  {
    rl, ul, vl := w[n] * r[n], w[n] * u[n], w[n] * v[n];
    ProductIsLinear(w[n], r[n], u[n], c, v[n]);
    hide Times;
  }

  lemma {:induction false} DotIsScaled(w: seq<real>, r: seq<real>, u: seq<real>, c: real, v: seq<real>)
    requires |w| == |r| && Combines(r, u, c, v)
    ensures Dot(w, r) == Dot(w, u) + Times(c, Dot(w, v))
  {
    if |w| > 0 {
      var n := |w| - 1;
      assert Combines(r[..n], u[..n], c, v[..n]);
      hide Dot, Times;
      DotIsScaled(w[..n], r[..n], u[..n], c, v[..n]);
      var rl, ul, vl := LastTerms(w, r, u, c, v, n);
      SumOfTimes(c, Dot(w[..n], v[..n]), vl);
    }
  }

  lemma {:induction false} DotIsLinear(w: seq<real>, r: seq<real>, u: seq<real>, c: real, v: seq<real>)
    requires |w| == |r| && Combines(r, u, c, v)
    ensures Dot(w, r) == Dot(w, u) + c * Dot(w, v)
  {
    DotIsScaled(w, r, u, c, v);
  }

  lemma {:induction false} DotOfUpdate(w: seq<real>, v: seq<real>, k: nat, d: real)
    requires |w| == |v| && k < |v|
    ensures Dot(w, v[k := v[k] + d]) == Dot(w, v) + w[k] * d
  {
    var n, u := |w| - 1, v[k := v[k] + d];
    if k == n {
      assert u[..n] == v[..n];
      assert w[n] * (v[n] + d) == w[n] * v[n] + w[n] * d;
    } else {
      assert u[..n] == v[..n][k := v[k] + d];
      DotOfUpdate(w[..n], v[..n], k, d);
    }
  }

  /** Adding entries at two positions whose weighted values cancel changes no sum. */
  lemma {:induction false} CancellingPair(w: seq<real>, before: seq<real>, after: seq<real>, j: nat, k: nat, d: real,
                                          e: real)
    requires |w| == |before| == |after| && j < |w| && k < |w| && j != k
    requires after == before[j := before[j] + d][k := before[k] + e]
    requires w[j] * d + w[k] * e == 0.0
    ensures Dot(w, after) == Dot(w, before)
  {
    DotOfUpdate(w, before, j, d);
    DotOfUpdate(w, before[j := before[j] + d], k, e);
  }

  // ---------------------------------------------------------------------------
  // Forces and torques
  // ---------------------------------------------------------------------------

  /** Only the free bodies count. */
  function Weight(b: Body): real {
    if b.Free() then b.mass else 0.0
  }

  function Weights(bs: seq<Body>): (w: seq<real>)
    ensures |w| == |bs|
  {
    seq(|bs|, i requires 0 <= i < |bs| => Weight(bs[i]))
  }

  function Xs(vs: seq<Vec>): (r: seq<real>)
    ensures |r| == |vs|
  {
    seq(|vs|, i requires 0 <= i < |vs| => vs[i].x)
  }

  function Ys(vs: seq<Vec>): (r: seq<real>)
    ensures |r| == |vs|
  {
    seq(|vs|, i requires 0 <= i < |vs| => vs[i].y)
  }

  /** The moment of acceleration a of a body about the origin. */
  function Moment(p: Phase, a: Vec): real {
    p.x * a.y - p.y * a.x
  }

  function MomentArms(bs: seq<Body>, vs: seq<Vec>): (r: seq<real>)
    requires |bs| == |vs|
    ensures |r| == |vs|
  {
    seq(|vs|, i requires 0 <= i < |vs| => Moment(bs[i].at, vs[i]))
  }

  /** The total force on the free bodies under accelerations `as`. */
  function NetForce(bs: seq<Body>, acc: seq<Vec>): Vec
    requires |bs| == |acc|
  {
    Vec(Dot(Weights(bs), Xs(acc)), Dot(Weights(bs), Ys(acc)))
  }

  function NetTorque(bs: seq<Body>, acc: seq<Vec>): real
    requires |bs| == |acc|
  {
    Dot(Weights(bs), MomentArms(bs, acc))
  }

  function Accels(f: Field, bs: seq<Body>, n: nat): (acc: seq<Vec>)
    requires n <= |f.springs| && SpringsFit(bs, f.springs)
    ensures |acc| == |bs|
  {
    seq(|bs|, i requires 0 <= i < |bs| => Accel(f.lib, bs, f.springs, f.mst, i, n))
  }

  /** Every living spring joins two free bodies of non-zero mass. */
  ghost predicate JoinsFree(bs: seq<Body>, ss: seq<Spring>) {
    && SpringsFit(bs, ss)
    && forall j :: 0 <= j < |ss| && ss[j].alive ==>
         && bs[ss[j].m1].Free() && bs[ss[j].m1].mass != 0.0
         && bs[ss[j].m2].Free() && bs[ss[j].m2].mass != 0.0
  }

  function Scaled(m: real, a: Vec): Vec {
    Vec(m * a.x, m * a.y)
  }

  function Opposite(f: Vec): Vec {
    Vec(-f.x, -f.y)
  }

  function MassMoment(m: real, at: Phase, a: Vec): real {
    m * Moment(at, a)
  }

  lemma {:induction false} PullTimesMass(lib: Libm, bs: seq<Body>, s: Spring)
    requires s.m1 < |bs| && s.m2 < |bs| && Pulls(bs, s)
    requires bs[s.m1].mass != 0.0 && bs[s.m2].mass != 0.0
    ensures s.m1 != s.m2
    ensures Scaled(bs[s.m1].mass, Pull(lib, bs, s, s.m1)) == SpringForce(lib, bs, s)
    ensures Scaled(bs[s.m2].mass, Pull(lib, bs, s, s.m2)) == Opposite(SpringForce(lib, bs, s))
  {
    hide SpringForce;
  }

  /** A spring pulls its two ends along the line through them. */
  lemma {:induction false} PullsAreCentral(p: Phase, q: Phase, t: real)
    ensures var f := Along(t, p.x - q.x, p.y - q.y);
            Moment(p, f) == Moment(q, f)
  {
    var dx, dy := p.x - q.x, p.y - q.y;
    assert dx * (t * dy) == dy * (t * dx);
  }

  lemma {:induction false} PullsAtTwoBodies(f: Field, bs: seq<Body>, n: nat)
    requires n < |f.springs| && SpringsFit(bs, f.springs) && Pulls(bs, f.springs[n])
    requires f.springs[n].m1 != f.springs[n].m2
    ensures var s := f.springs[n];
            PairAdded(Accels(f, bs, n), Accels(f, bs, n + 1), s.m1, s.m2,
                      Pull(f.lib, bs, s, s.m1), Pull(f.lib, bs, s, s.m2))
  {
    hide External;
  }

  lemma {:induction false} SlackSpringAddsNothing(f: Field, bs: seq<Body>, n: nat)
    requires n < |f.springs| && SpringsFit(bs, f.springs) && !Pulls(bs, f.springs[n])
    ensures Accels(f, bs, n + 1) == Accels(f, bs, n)
  {
    hide External;
    forall i | 0 <= i < |bs| ensures Accels(f, bs, n + 1)[i] == Accels(f, bs, n)[i] {
      assert Pull(f.lib, bs, f.springs[n], i) == Vec(0.0, 0.0);
    }
  }

  lemma {:induction false} PullingSpringAddsNothingNet(f: Field, bs: seq<Body>, n: nat)
    requires n < |f.springs| && SpringsFit(bs, f.springs) && Pulls(bs, f.springs[n])
    requires bs[f.springs[n].m1].Free() && bs[f.springs[n].m1].mass != 0.0
    requires bs[f.springs[n].m2].Free() && bs[f.springs[n].m2].mass != 0.0
    ensures NetForce(bs, Accels(f, bs, n + 1)) == NetForce(bs, Accels(f, bs, n))
    ensures NetTorque(bs, Accels(f, bs, n + 1)) == NetTorque(bs, Accels(f, bs, n))
  {
    hide Pull, Accel, NetForce, NetTorque, Moment, PairAdded, Scaled, MassMoment;
    var s, before, after := f.springs[n], Accels(f, bs, n), Accels(f, bs, n + 1);
    PairCancels(f.lib, bs, s);
    PullsAtTwoBodies(f, bs, n);
    var p, q := Pull(f.lib, bs, s, s.m1), Pull(f.lib, bs, s, s.m2);
    hide Accels, Pulls, SpringsFit;
    PairAddsNoForce(bs, before, after, s.m1, s.m2, p, q);
    PairAddsNoTorque(bs, before, after, s.m1, s.m2, p, q);
  }

  /** One more spring changes neither the net force nor the net torque. */
  lemma {:induction false} SpringIsInternal(f: Field, bs: seq<Body>, n: nat)
    requires n < |f.springs| && JoinsFree(bs, f.springs)
    ensures NetForce(bs, Accels(f, bs, n + 1)) == NetForce(bs, Accels(f, bs, n))
    ensures NetTorque(bs, Accels(f, bs, n + 1)) == NetTorque(bs, Accels(f, bs, n))
  {
    if Pulls(bs, f.springs[n]) {
      PullingSpringAddsNothingNet(f, bs, n);
    } else {
      SlackSpringAddsNothing(f, bs, n);
    }
  }

  /** Mass times pull, and its moment, cancel over the two ends. */
  lemma {:induction false} PairCancels(lib: Libm, bs: seq<Body>, s: Spring)
    requires s.m1 < |bs| && s.m2 < |bs| && Pulls(bs, s)
    requires bs[s.m1].mass != 0.0 && bs[s.m2].mass != 0.0
    ensures s.m1 != s.m2
    ensures var a, b, p, q := bs[s.m1], bs[s.m2], Pull(lib, bs, s, s.m1), Pull(lib, bs, s, s.m2);
            && Scaled(b.mass, q) == Opposite(Scaled(a.mass, p))
            && MassMoment(a.mass, a.at, p) + MassMoment(b.mass, b.at, q) == 0.0
  {
    var f, p, q := SpringForce(lib, bs, s), bs[s.m1].at, bs[s.m2].at;
    PullTimesMass(lib, bs, s);
    PullsAreCentral(p, q, Tension(lib, s, p.x - q.x, p.y - q.y, p.vx - q.vx, p.vy - q.vy));
    hide Pull, Pulls, Tension, Moment, Along, Scaled, MassMoment;
    WeighedMoment(bs[s.m1].mass, p, Pull(lib, bs, s, s.m1));
    WeighedMoment(bs[s.m2].mass, q, Pull(lib, bs, s, s.m2));
    OppositeMoment(q, f);
  }

  lemma {:induction false} OppositeMoment(at: Phase, f: Vec)
    ensures Moment(at, Opposite(f)) == -Moment(at, f)
  {
  }

  /** Accelerations changed at two bodies only. */
  ghost predicate PairAdded(before: seq<Vec>, after: seq<Vec>, j: nat, k: nat, p: Vec, q: Vec) {
    && |before| == |after| && j < |before| && k < |before| && j != k
    && after == before[j := Vec(before[j].x + p.x, before[j].y + p.y)]
                      [k := Vec(before[k].x + q.x, before[k].y + q.y)]
  }

  lemma {:induction false} PairAddsNoForce(bs: seq<Body>, before: seq<Vec>, after: seq<Vec>, j: nat, k: nat, p: Vec,
                                           q: Vec)
    requires |bs| == |before| && PairAdded(before, after, j, k, p, q)
    requires bs[j].Free() && bs[k].Free()
    requires Scaled(bs[k].mass, q) == Opposite(Scaled(bs[j].mass, p))
    ensures NetForce(bs, after) == NetForce(bs, before)
  {
    CancellingPair(Weights(bs), Xs(before), Xs(after), j, k, p.x, q.x);
    CancellingPair(Weights(bs), Ys(before), Ys(after), j, k, p.y, q.y);
  }

  lemma {:induction false} PairAddsNoTorque(bs: seq<Body>, before: seq<Vec>, after: seq<Vec>, j: nat, k: nat, p: Vec,
                                            q: Vec)
    requires |bs| == |before| && PairAdded(before, after, j, k, p, q)
    requires bs[j].Free() && bs[k].Free()
    requires MassMoment(bs[j].mass, bs[j].at, p) + MassMoment(bs[k].mass, bs[k].at, q) == 0.0
    ensures NetTorque(bs, after) == NetTorque(bs, before)
  {
    var w, m, n := Weights(bs), MomentArms(bs, before), MomentArms(bs, after);
    MomentIsAdditive(bs[j].at, before[j], p);
    MomentIsAdditive(bs[k].at, before[k], q);
    hide Moment;
    CancellingPair(w, m, n, j, k, Moment(bs[j].at, p), Moment(bs[k].at, q));
  }

  lemma {:induction false} MomentIsAdditive(at: Phase, a: Vec, p: Vec)
    ensures Moment(at, Vec(a.x + p.x, a.y + p.y)) == Moment(at, a) + Moment(at, p)
  {
  }

  lemma {:induction false} WeighedMoment(m: real, at: Phase, p: Vec)
    ensures MassMoment(m, at, p) == Moment(at, Scaled(m, p))
  {
    assert m * (at.x * p.y) == at.x * (m * p.y);
    assert m * (at.y * p.x) == at.y * (m * p.x);
    assert m * Moment(at, p) == m * (at.x * p.y) - m * (at.y * p.x);
  }

  /** Springs are internal: the net force and net torque on the free bodies are those of
      the external forces alone. */
  lemma {:induction false} SpringsAreInternal(f: Field, bs: seq<Body>, n: nat)
    requires n <= |f.springs| && JoinsFree(bs, f.springs)
    ensures NetForce(bs, Accels(f, bs, n)) == NetForce(bs, Accels(f, bs, 0))
    ensures NetTorque(bs, Accels(f, bs, n)) == NetTorque(bs, Accels(f, bs, 0))
  {
    hide NetForce, NetTorque, Accel;
    if n > 0 {
      SpringsAreInternal(f, bs, n - 1);
      SpringIsInternal(f, bs, n - 1);
    }
  }

  /** No global force and no viscous drag. */
  predicate Quiet(mst: Settings) {
    !mst.gravity.on && !mst.cmass.on && !mst.attract.on && !mst.wall.on && mst.visc == 0.0
  }

  lemma {:induction false} DotOfZeros(w: seq<real>, v: seq<real>)
    requires |w| == |v| && forall i :: 0 <= i < |v| ==> v[i] == 0.0
    ensures Dot(w, v) == 0.0
  {
    if |w| > 0 { DotOfZeros(w[..|w| - 1], v[..|w| - 1]); }
  }

  lemma {:induction false} QuietIsStill(f: Field, bs: seq<Body>, i: nat)
    requires i < |bs| && Quiet(f.mst)
    ensures External(f.lib, bs, f.mst, i) == Vec(0.0, 0.0)
  {
    hide CentreAt, MomentsOf;
  }

  lemma {:induction false} NoForceNoTorque(bs: seq<Body>, acc: seq<Vec>)
    requires |acc| == |bs| && forall i :: 0 <= i < |bs| ==> acc[i] == Vec(0.0, 0.0)
    ensures NetForce(bs, acc) == Vec(0.0, 0.0) && NetTorque(bs, acc) == 0.0
  {
    DotOfZeros(Weights(bs), Xs(acc));
    DotOfZeros(Weights(bs), Ys(acc));
    DotOfZeros(Weights(bs), MomentArms(bs, acc));
  }

  lemma {:induction false} QuietHasNoNetForce(f: Field, bs: seq<Body>)
    requires JoinsFree(bs, f.springs) && Quiet(f.mst)
    ensures NetForce(bs, Accels(f, bs, |f.springs|)) == Vec(0.0, 0.0)
    ensures NetTorque(bs, Accels(f, bs, |f.springs|)) == 0.0
  {
    SpringsAreInternal(f, bs, |f.springs|);
    hide External, NetForce, NetTorque, Quiet;
    forall i | 0 <= i < |bs| ensures Accels(f, bs, 0)[i] == Vec(0.0, 0.0) {
      QuietIsStill(f, bs, i);
    }
    NoForceNoTorque(bs, Accels(f, bs, 0));
  }

  // ---------------------------------------------------------------------------
  // Momentum over a Runge-Kutta step
  // ---------------------------------------------------------------------------

  function Velocities(bs: seq<Body>): (vs: seq<Vec>)
    ensures |vs| == |bs|
  {
    seq(|bs|, i requires 0 <= i < |bs| => Vec(bs[i].at.vx, bs[i].at.vy))
  }

  /** The total momentum of the free bodies. */
  function Momentum(bs: seq<Body>): Vec {
    Vec(Dot(Weights(bs), Xs(Velocities(bs))), Dot(Weights(bs), Ys(Velocities(bs))))
  }

  /** Same masses and states, possibly elsewhere. */
  ghost predicate SameBodies(bs: seq<Body>, cs: seq<Body>) {
    |bs| == |cs| && forall i :: 0 <= i < |bs| ==> cs[i] == bs[i].(at := cs[i].at)
  }

  lemma {:induction false} StagesAreSameBodies(f: Field, bs: seq<Body>, h: real, n: nat)
    requires 1 <= n <= 4 && SpringsFit(bs, f.springs)
    ensures SameBodies(bs, Stage(f, bs, h, n))
    decreases n
  {
    if n > 1 { StagesAreSameBodies(f, bs, h, n - 1); }
  }

  function SpeedChangeX(ks: seq<Phase>): (r: seq<real>)
    ensures |r| == |ks|
  {
    seq(|ks|, i requires 0 <= i < |ks| => ks[i].vx)
  }

  function SpeedChangeY(ks: seq<Phase>): (r: seq<real>)
    ensures |r| == |ks|
  {
    seq(|ks|, i requires 0 <= i < |ks| => ks[i].vy)
  }

  /** Increments that add no momentum to bodies of the given weights. */
  ghost predicate AddsNoMomentum(w: seq<real>, ks: seq<Phase>) {
    |w| == |ks| && Dot(w, SpeedChangeX(ks)) == 0.0 && Dot(w, SpeedChangeY(ks)) == 0.0
  }

  /** h times an acceleration, written as a rate. */
  lemma {:induction false} RatesScaleAccels(f: Field, bs: seq<Body>, h: real)
    requires SpringsFit(bs, f.springs)
    ensures var acc, ks, zeros := Accels(f, bs, |f.springs|), Rates(f, bs, h), seq(|bs|, _ => 0.0);
            && Combines(SpeedChangeX(ks), zeros, h, Xs(acc))
            && Combines(SpeedChangeY(ks), zeros, h, Ys(acc))
  {
    hide Accel;
    var acc, ks, zeros := Accels(f, bs, |f.springs|), Rates(f, bs, h), seq(|bs|, _ => 0.0);
    forall i | 0 <= i < |bs|
      ensures SpeedChangeX(ks)[i] == zeros[i] + h * Xs(acc)[i]
      ensures SpeedChangeY(ks)[i] == zeros[i] + h * Ys(acc)[i]
    {
      assert ks[i] == Rate(f, bs, h, i);
    }
  }

  lemma {:induction false} RatesAddNoMomentum(f: Field, bs: seq<Body>, h: real)
    requires JoinsFree(bs, f.springs) && Quiet(f.mst)
    ensures AddsNoMomentum(Weights(bs), Rates(f, bs, h))
  {
    var acc, ks, zeros := Accels(f, bs, |f.springs|), Rates(f, bs, h), seq(|bs|, _ => 0.0);
    QuietHasNoNetForce(f, bs);
    RatesScaleAccels(f, bs, h);
    DotOfZeros(Weights(bs), zeros);
    hide Accels, Rates, Dot, Weights, SpeedChangeX, SpeedChangeY, Xs, Ys, JoinsFree, SpringsFit, Quiet;
    DotIsLinear(Weights(bs), SpeedChangeX(ks), zeros, h, Xs(acc));
    DotIsLinear(Weights(bs), SpeedChangeY(ks), zeros, h, Ys(acc));
  }

  lemma {:induction false} IncrementsAddNoMomentum(f: Field, bs: seq<Body>, h: real, n: nat)
    requires 1 <= n <= 4 && JoinsFree(bs, f.springs) && Quiet(f.mst)
    ensures AddsNoMomentum(Weights(bs), Increments(f, bs, h, n))
  {
    StagesAreSameBodies(f, bs, h, n);
    var ms := Stage(f, bs, h, n);
    assert Weights(ms) == Weights(bs);
    hide Stage, Rates;
    RatesAddNoMomentum(f, ms, h);
  }

  lemma {:induction false} SumAddsNoMomentum(w: seq<real>, r: seq<Phase>, ks: seq<Phase>, c: real, ls: seq<Phase>)
    requires AddsNoMomentum(w, ks) && AddsNoMomentum(w, ls) && |r| == |ks|
    requires forall i :: 0 <= i < |r| ==> r[i] == ks[i].Plus(ls[i], c)
    ensures AddsNoMomentum(w, r)
  {
    hide Dot;
    DotIsLinear(w, SpeedChangeX(r), SpeedChangeX(ks), c, SpeedChangeX(ls));
    DotIsLinear(w, SpeedChangeY(r), SpeedChangeY(ks), c, SpeedChangeY(ls));
  }

  lemma {:induction false} DotIgnoresWeightless(w: seq<real>, u: seq<real>, v: seq<real>)
    requires |w| == |u| == |v| && forall i :: 0 <= i < |w| && w[i] != 0.0 ==> u[i] == v[i]
    ensures Dot(w, u) == Dot(w, v)
  {
    if |w| > 0 { DotIgnoresWeightless(w[..|w| - 1], u[..|w| - 1], v[..|w| - 1]); }
  }

  lemma {:induction false} MovingWithoutMomentum(bs: seq<Body>, ks: seq<Phase>)
    requires AddsNoMomentum(Weights(bs), ks)
    ensures Momentum(Moved(bs, ks, 1.0)) == Momentum(bs)
  {
    var ms, w, vs := Moved(bs, ks, 1.0), Weights(bs), Velocities(bs);
    assert Weights(ms) == w;
    var rx := seq(|bs|, i requires 0 <= i < |bs| => vs[i].x + ks[i].vx);
    var ry := seq(|bs|, i requires 0 <= i < |bs| => vs[i].y + ks[i].vy);
    DotIsLinear(w, rx, Xs(vs), 1.0, SpeedChangeX(ks));
    DotIsLinear(w, ry, Ys(vs), 1.0, SpeedChangeY(ks));
    DotIgnoresWeightless(w, Xs(Velocities(ms)), rx);
    DotIgnoresWeightless(w, Ys(Velocities(ms)), ry);
  }

  lemma {:induction false} BlendAddsNoMomentum(w: seq<real>, k1: seq<Phase>, k2: seq<Phase>, k3: seq<Phase>,
                                               k4: seq<Phase>)
    requires AddsNoMomentum(w, k1) && AddsNoMomentum(w, k2) && AddsNoMomentum(w, k3) && AddsNoMomentum(w, k4)
    ensures AddsNoMomentum(w, seq(|w|, i requires 0 <= i < |w| => Blend(k1[i], k2[i], k3[i], k4[i])))
  {
    var n := |w|;
    var r0 := seq(n, _ => Phase(0.0, 0.0, 0.0, 0.0));
    DotOfZeros(w, SpeedChangeX(r0));
    DotOfZeros(w, SpeedChangeY(r0));
    var r1 := seq(n, i requires 0 <= i < n => r0[i].Plus(k1[i], 1.0 / 6.0));
    SumAddsNoMomentum(w, r1, r0, 1.0 / 6.0, k1);
    var r2 := seq(n, i requires 0 <= i < n => r1[i].Plus(k2[i], 1.0 / 3.0));
    SumAddsNoMomentum(w, r2, r1, 1.0 / 3.0, k2);
    var r3 := seq(n, i requires 0 <= i < n => r2[i].Plus(k3[i], 1.0 / 3.0));
    SumAddsNoMomentum(w, r3, r2, 1.0 / 3.0, k3);
    var r4 := seq(n, i requires 0 <= i < n => r3[i].Plus(k4[i], 1.0 / 6.0));
    SumAddsNoMomentum(w, r4, r3, 1.0 / 6.0, k4);
    var r := seq(n, i requires 0 <= i < n => Blend(k1[i], k2[i], k3[i], k4[i]));
    forall i | 0 <= i < n ensures r[i] == r4[i] {}
    assert r == r4;
  }

  /** A step of any size without external forces keeps the total momentum, whatever the
      springs between the free bodies. */
  lemma {:induction false} StepKeepsMomentum(f: Field, bs: seq<Body>, h: real)
    requires JoinsFree(bs, f.springs) && Quiet(f.mst)
    ensures Momentum(RK4(f, bs, h)) == Momentum(bs)
  {
    var k1, k2 := Increments(f, bs, h, 1), Increments(f, bs, h, 2);
    var k3, k4 := Increments(f, bs, h, 3), Increments(f, bs, h, 4);
    IncrementsAddNoMomentum(f, bs, h, 1);
    IncrementsAddNoMomentum(f, bs, h, 2);
    IncrementsAddNoMomentum(f, bs, h, 3);
    IncrementsAddNoMomentum(f, bs, h, 4);
    hide Increments, AddsNoMomentum, Momentum, Moved, Weights, Blend;
    BlendAddsNoMomentum(Weights(bs), k1, k2, k3, k4);
    var r := seq(|bs|, i requires 0 <= i < |bs| => Blend(k1[i], k2[i], k3[i], k4[i]));
    MovingWithoutMomentum(bs, r);
    assert RK4(f, bs, h) == Moved(bs, r, 1.0);
  }
}
