/**
 The total momentum of masses joined by springs, under gravity and viscous drag: whatever
 the springs, a Runge-Kutta step moves it as it moves the velocity of one mass in free flight.
 */
module Gliding {
  import opened Common
  import opened Mechanics
  import opened Momentum
  import FreeFlight

  /** No global force but gravity, and drag; unlike in free flight, there may be springs. */
  predicate Glides(mst: Settings) {
    !mst.cmass.on && !mst.attract.on && !mst.wall.on
  }

  /** The total mass of the free bodies. */
  function Mass(bs: seq<Body>): real {
    Dot(Weights(bs), Ones(|bs|))
  }

  function Ones(n: nat): (r: seq<real>)
    ensures |r| == n && forall i :: 0 <= i < n ==> r[i] == 1.0
  {
    seq(n, _ => 1.0)
  }

  function Zeros(n: nat): (r: seq<real>)
    ensures |r| == n && forall i :: 0 <= i < n ==> r[i] == 0.0
  {
    seq(n, _ => 0.0)
  }

  // ---------------------------------------------------------------------------
  // One evaluation of the forces
  // ---------------------------------------------------------------------------

  lemma {:induction false} ExternalIsDrag(f: Field, bs: seq<Body>, i: nat)
    requires Glides(f.mst) && i < |bs|
    ensures External(f.lib, bs, f.mst, i) == Dragged(Gravity(f.lib, f.mst), f.mst.visc, bs[i].at.vx, bs[i].at.vy)
  {
    hide CentreAt, MomentsOf, Gravity, Dragged;
    var g := Gravity(f.lib, f.mst);
    FreeFlight.NothingAdded(g);
    FreeFlight.NothingAdded(Dragged(g, f.mst.visc, bs[i].at.vx, bs[i].at.vy));
  }

  lemma {:induction false} ExternalsAreDrag(f: Field, bs: seq<Body>)
    requires Glides(f.mst) && SpringsFit(bs, f.springs)
    ensures var acc, g := Accels(f, bs, 0), Gravity(f.lib, f.mst);
            && |acc| == |bs|
            && forall i :: 0 <= i < |bs| ==> acc[i] == Dragged(g, f.mst.visc, bs[i].at.vx, bs[i].at.vy)
  {
    hide External, Gravity, Dragged;
    forall i | 0 <= i < |bs|
      ensures Accels(f, bs, 0)[i] == Dragged(Gravity(f.lib, f.mst), f.mst.visc, bs[i].at.vx, bs[i].at.vy)
    {
      ExternalIsDrag(f, bs, i);
    }
  }

  lemma {:induction false} DragAt(g: real, visc: real, v: real)
    ensures g == 0.0 + g * 1.0 && g - visc * v == g + (-visc) * v
  {
  }

  lemma {:induction false} NegativeTimes(visc: real, p: real)
    ensures Times(-visc, p) == -Times(visc, p)
  {
  }

  /** The weighted sum of g - visc v. */
  lemma {:induction false} DragSum(w: seq<real>, acc: seq<real>, g: real, visc: real, v: seq<real>)
    requires |w| == |acc| == |v| && forall i :: 0 <= i < |acc| ==> acc[i] == g - visc * v[i]
    ensures Dot(w, acc) == Times(g, Dot(w, Ones(|w|))) - Times(visc, Dot(w, v))
  {
    var n := |w|;
    var gs := seq(n, _ => g);
    forall i | 0 <= i < n
      ensures gs[i] == Zeros(n)[i] + g * Ones(n)[i] && acc[i] == gs[i] + (-visc) * v[i]
    {
      DragAt(g, visc, v[i]);
    }
    assert Combines(gs, Zeros(n), g, Ones(n)) && Combines(acc, gs, -visc, v);
    hide Dot, Combines, Times;
    DotIsScaled(w, gs, Zeros(n), g, Ones(n));
    DotOfZeros(w, Zeros(n));
    DotIsScaled(w, acc, gs, -visc, v);
    NegativeTimes(visc, Dot(w, v));
  }

  /** Increments as a change of momentum. */
  function Gain(w: seq<real>, ks: seq<Phase>): Vec
    requires |w| == |ks|
  {
    Vec(Dot(w, SpeedChangeX(ks)), Dot(w, SpeedChangeY(ks)))
  }

  lemma {:induction false} RatesGain(f: Field, bs: seq<Body>, h: real)
    requires SpringsFit(bs, f.springs)
    ensures var force := NetForce(bs, Accels(f, bs, |f.springs|));
            Gain(Weights(bs), Rates(f, bs, h)) == Vec(Times(h, force.x), Times(h, force.y))
  {
    var acc, ks, w := Accels(f, bs, |f.springs|), Rates(f, bs, h), Weights(bs);
    RatesScaleAccels(f, bs, h);
    var zeros := seq(|bs|, _ => 0.0);
    DotOfZeros(w, zeros);
    hide Accels, Rates, Dot, Weights, SpeedChangeX, SpeedChangeY, Xs, Ys, SpringsFit, Combines, Times;
    DotIsScaled(w, SpeedChangeX(ks), zeros, h, Xs(acc));
    DotIsScaled(w, SpeedChangeY(ks), zeros, h, Ys(acc));
  }

  /** The net force at momentum p, along one axis. */
  function Force(g: real, m: real, visc: real, p: real): real {
    Times(g, m) - Times(visc, p)
  }

  lemma {:induction false} DraggedComponents(acc: seq<Vec>, bs: seq<Body>, g: Vec, visc: real)
    requires |acc| == |bs|
    requires forall i :: 0 <= i < |bs| ==> acc[i] == Dragged(g, visc, bs[i].at.vx, bs[i].at.vy)
    ensures forall i :: 0 <= i < |bs| ==> Xs(acc)[i] == g.x - visc * Xs(Velocities(bs))[i]
    ensures forall i :: 0 <= i < |bs| ==> Ys(acc)[i] == g.y - visc * Ys(Velocities(bs))[i]
  {
  }

  lemma {:induction false} ForceOfDragged(bs: seq<Body>, acc: seq<Vec>, g: Vec, visc: real)
    requires |acc| == |bs|
    requires forall i :: 0 <= i < |bs| ==> acc[i] == Dragged(g, visc, bs[i].at.vx, bs[i].at.vy)
    ensures var m, p := Mass(bs), Momentum.Momentum(bs);
            NetForce(bs, acc) == Vec(Force(g.x, m, visc, p.x), Force(g.y, m, visc, p.y))
  {
    var w, vs := Weights(bs), Velocities(bs);
    DraggedComponents(acc, bs, g, visc);
    hide Weights, Dot, Dragged, Xs, Ys, Velocities, Times;
    DragSum(w, Xs(acc), g.x, visc, Xs(vs));
    DragSum(w, Ys(acc), g.y, visc, Ys(vs));
  }

  lemma {:induction false} GlidingForce(f: Field, bs: seq<Body>)
    requires JoinsFree(bs, f.springs) && Glides(f.mst)
    ensures var g, m, p := Gravity(f.lib, f.mst), Mass(bs), Momentum.Momentum(bs);
            NetForce(bs, Accels(f, bs, |f.springs|))
            == Vec(Force(g.x, m, f.mst.visc, p.x), Force(g.y, m, f.mst.visc, p.y))
  {
    SpringsAreInternal(f, bs, |f.springs|);
    ExternalsAreDrag(f, bs);
    hide Accels, Gravity, Mass, Momentum.Momentum, NetForce, JoinsFree, Dragged, Force;
    ForceOfDragged(bs, Accels(f, bs, 0), Gravity(f.lib, f.mst), f.mst.visc);
  }

  /** What one evaluation adds, with momentum p. */
  function Pushed(g: Vec, m: real, visc: real, p: Vec, h: real): Vec {
    Vec(FreeFlight.Kick(Times(g.x, m), visc, p.x, h), FreeFlight.Kick(Times(g.y, m), visc, p.y, h))
  }

  lemma {:induction false} ForceIsKick(g: real, m: real, visc: real, p: real, h: real)
    ensures Times(h, Force(g, m, visc, p)) == FreeFlight.Kick(Times(g, m), visc, p, h)
  {
  }

  lemma {:induction false} GlidingGain(f: Field, bs: seq<Body>, h: real)
    requires JoinsFree(bs, f.springs) && Glides(f.mst)
    ensures Gain(Weights(bs), Rates(f, bs, h))
         == Pushed(Gravity(f.lib, f.mst), Mass(bs), f.mst.visc, Momentum.Momentum(bs), h)
  {
    var g, m, visc, p := Gravity(f.lib, f.mst), Mass(bs), f.mst.visc, Momentum.Momentum(bs);
    GlidingForce(f, bs);
    RatesGain(f, bs, h);
    ForceIsKick(g.x, m, visc, p.x, h);
    ForceIsKick(g.y, m, visc, p.y, h);
    hide Accels, NetForce, Gravity, Mass, Momentum.Momentum, Gain, Weights, Rates, Times, Force,
      FreeFlight.Kick, JoinsFree;
  }

  // ---------------------------------------------------------------------------
  // One step
  // ---------------------------------------------------------------------------

  /** p after gaining c times k. */
  function Gained(p: Vec, c: real, k: Vec): Vec {
    Vec(p.x + Times(c, k.x), p.y + Times(c, k.y))
  }

  lemma {:induction false} MovedVelocities(bs: seq<Body>, ks: seq<Phase>, c: real)
    returns (rx: seq<real>, ry: seq<real>)
    requires |ks| == |bs|
    ensures Combines(rx, Xs(Velocities(bs)), c, SpeedChangeX(ks))
    ensures Combines(ry, Ys(Velocities(bs)), c, SpeedChangeY(ks))
    ensures var ms, w := Moved(bs, ks, c), Weights(bs);
            && Weights(ms) == w
            && (forall i :: 0 <= i < |w| && w[i] != 0.0 ==> Xs(Velocities(ms))[i] == rx[i])
            && (forall i :: 0 <= i < |w| && w[i] != 0.0 ==> Ys(Velocities(ms))[i] == ry[i])
  {
    var ms, w, vs := Moved(bs, ks, c), Weights(bs), Velocities(bs);
    assert Weights(ms) == w;
    rx := seq(|bs|, i requires 0 <= i < |bs| => vs[i].x + c * ks[i].vx);
    ry := seq(|bs|, i requires 0 <= i < |bs| => vs[i].y + c * ks[i].vy);
  }

  lemma {:induction false} MovingAddsGain(bs: seq<Body>, ks: seq<Phase>, c: real)
    requires |ks| == |bs|
    ensures Momentum.Momentum(Moved(bs, ks, c)) == Gained(Momentum.Momentum(bs), c, Gain(Weights(bs), ks))
    ensures Weights(Moved(bs, ks, c)) == Weights(bs)
  {
    var rx, ry := MovedVelocities(bs, ks, c);
    var ms, w, vs := Moved(bs, ks, c), Weights(bs), Velocities(bs);
    hide Dot, Combines, Weights, Velocities, Moved, Times, Xs, Ys, SpeedChangeX, SpeedChangeY;
    DotIsScaled(w, rx, Xs(vs), c, SpeedChangeX(ks));
    DotIsScaled(w, ry, Ys(vs), c, SpeedChangeY(ks));
    DotIgnoresWeightless(w, Xs(Velocities(ms)), rx);
    DotIgnoresWeightless(w, Ys(Velocities(ms)), ry);
  }

  lemma {:induction false} PlusCombines(r: seq<Phase>, ks: seq<Phase>, c: real, ls: seq<Phase>)
    requires |r| == |ks| == |ls| && forall i :: 0 <= i < |r| ==> r[i] == ks[i].Plus(ls[i], c)
    ensures Combines(SpeedChangeX(r), SpeedChangeX(ks), c, SpeedChangeX(ls))
    ensures Combines(SpeedChangeY(r), SpeedChangeY(ks), c, SpeedChangeY(ls))
  {
  }

  lemma {:induction false} GainOfSum(w: seq<real>, r: seq<Phase>, ks: seq<Phase>, c: real, ls: seq<Phase>)
    requires |w| == |r| == |ks| == |ls| && forall i :: 0 <= i < |r| ==> r[i] == ks[i].Plus(ls[i], c)
    ensures Gain(w, r) == Gained(Gain(w, ks), c, Gain(w, ls))
  {
    PlusCombines(r, ks, c, ls);
    hide Dot, Times, Combines, SpeedChangeX, SpeedChangeY, Phase.Plus;
    DotIsScaled(w, SpeedChangeX(r), SpeedChangeX(ks), c, SpeedChangeX(ls));
    DotIsScaled(w, SpeedChangeY(r), SpeedChangeY(ks), c, SpeedChangeY(ls));
  }

  function Blended(k1: real, k2: real, k3: real, k4: real): real {
    (k1 / 2.0 + k2 + k3 + k4 / 2.0) / 3.0
  }

  lemma {:induction false} GainOfBlend(w: seq<real>, k1: seq<Phase>, k2: seq<Phase>, k3: seq<Phase>, k4: seq<Phase>)
    requires |w| == |k1| == |k2| == |k3| == |k4|
    ensures var r := seq(|w|, i requires 0 <= i < |w| => Blend(k1[i], k2[i], k3[i], k4[i]));
            Gain(w, r) == Vec(Blended(Gain(w, k1).x, Gain(w, k2).x, Gain(w, k3).x, Gain(w, k4).x),
                              Blended(Gain(w, k1).y, Gain(w, k2).y, Gain(w, k3).y, Gain(w, k4).y))
  {
    var n := |w|;
    var r0 := seq(n, _ => Phase(0.0, 0.0, 0.0, 0.0));
    DotOfZeros(w, SpeedChangeX(r0));
    DotOfZeros(w, SpeedChangeY(r0));
    var r1 := seq(n, i requires 0 <= i < n => r0[i].Plus(k1[i], 1.0 / 6.0));
    var r2 := seq(n, i requires 0 <= i < n => r1[i].Plus(k2[i], 1.0 / 3.0));
    var r3 := seq(n, i requires 0 <= i < n => r2[i].Plus(k3[i], 1.0 / 3.0));
    var r4 := seq(n, i requires 0 <= i < n => r3[i].Plus(k4[i], 1.0 / 6.0));
    var r := seq(n, i requires 0 <= i < n => Blend(k1[i], k2[i], k3[i], k4[i]));
    forall i | 0 <= i < n ensures r[i] == r4[i] {}
    assert r == r4 && Gain(w, r0) == Vec(0.0, 0.0);
    hide Gain;
    GainOfSum(w, r1, r0, 1.0 / 6.0, k1);
    GainOfSum(w, r2, r1, 1.0 / 3.0, k2);
    GainOfSum(w, r3, r2, 1.0 / 3.0, k3);
    GainOfSum(w, r4, r3, 1.0 / 6.0, k4);
  }

  lemma {:induction false} StageGain(f: Field, bs: seq<Body>, h: real, n: nat)
    requires 1 <= n <= 4 && JoinsFree(bs, f.springs) && Glides(f.mst)
    ensures var ms, g := Stage(f, bs, h, n), Gravity(f.lib, f.mst);
            Gain(Weights(bs), Increments(f, bs, h, n)) == Pushed(g, Mass(bs), f.mst.visc, Momentum.Momentum(ms), h)
  {
    StagesAreSameBodies(f, bs, h, n);
    var ms := Stage(f, bs, h, n);
    assert Weights(ms) == Weights(bs);
    assert JoinsFree(ms, f.springs);
    hide Stage, Rates, Gain, Momentum.Momentum, Pushed, Gravity, Weights;
    GlidingGain(f, ms, h);
  }

  lemma {:induction false} StageMomentum(f: Field, bs: seq<Body>, h: real, n: nat)
    requires 1 <= n < 4 && SpringsFit(bs, f.springs)
    ensures var p, q := Momentum.Momentum(bs), Momentum.Momentum(Stage(f, bs, h, n + 1));
            var k := Gain(Weights(bs), Increments(f, bs, h, n));
            var c := if n == 3 then 1.0 else 0.5;
            q == Gained(p, c, k)
  {
    MovingAddsGain(bs, Increments(f, bs, h, n), if n == 3 then 1.0 else 0.5);
    hide Momentum.Momentum, Gain, Weights, Moved, Rates, Gained;
  }

  /** The four gains of a step, each from the momentum at its stage. */
  lemma {:induction false} FourGains(f: Field, bs: seq<Body>, h: real) returns (k1: Vec, k2: Vec, k3: Vec, k4: Vec)
    requires JoinsFree(bs, f.springs) && Glides(f.mst)
    ensures var g, m, visc, p := Gravity(f.lib, f.mst), Mass(bs), f.mst.visc, Momentum.Momentum(bs);
            && k1 == Pushed(g, m, visc, p, h)
            && k2 == Pushed(g, m, visc, Gained(p, 0.5, k1), h)
            && k3 == Pushed(g, m, visc, Gained(p, 0.5, k2), h)
            && k4 == Pushed(g, m, visc, Gained(p, 1.0, k3), h)
    ensures var p := Momentum.Momentum(bs);
            Momentum.Momentum(RK4(f, bs, h))
            == Gained(p, 1.0, Vec(Blended(k1.x, k2.x, k3.x, k4.x), Blended(k1.y, k2.y, k3.y, k4.y)))
  {
    var w := Weights(bs);
    var s1, s2 := Increments(f, bs, h, 1), Increments(f, bs, h, 2);
    var s3, s4 := Increments(f, bs, h, 3), Increments(f, bs, h, 4);
    k1, k2, k3, k4 := Gain(w, s1), Gain(w, s2), Gain(w, s3), Gain(w, s4);
    assert Stage(f, bs, h, 1) == bs;
    StageGain(f, bs, h, 1);
    StageGain(f, bs, h, 2);
    StageGain(f, bs, h, 3);
    StageGain(f, bs, h, 4);
    StageMomentum(f, bs, h, 1);
    StageMomentum(f, bs, h, 2);
    StageMomentum(f, bs, h, 3);
    hide Stage, Increments, Gain, Momentum.Momentum, Pushed, Gravity, Weights, Mass, Moved, Blend, Blended,
      JoinsFree, Gained;
    GainOfBlend(w, s1, s2, s3, s4);
    var r := seq(|bs|, i requires 0 <= i < |bs| => Blend(s1[i], s2[i], s3[i], s4[i]));
    MovingAddsGain(bs, r, 1.0);
    assert RK4(f, bs, h) == Moved(bs, r, 1.0);
  }

  lemma {:induction false} HalfAndWhole(k: real)
    ensures Times(0.5, k) == 0.5 * k && Times(1.0, k) == 1.0 * k
  {
  }

  lemma {:induction false} AxisFollowsSeries(g: real, visc: real, p: real, h: real,
                                             k1: real, k2: real, k3: real, k4: real)
    requires k1 == FreeFlight.Kick(g, visc, p, h) && k2 == FreeFlight.Kick(g, visc, p + Times(0.5, k1), h)
    requires k3 == FreeFlight.Kick(g, visc, p + Times(0.5, k2), h)
    requires k4 == FreeFlight.Kick(g, visc, p + Times(1.0, k3), h)
    ensures p + Times(1.0, Blended(k1, k2, k3, k4)) == FreeFlight.VelocitySeries(g, visc, p, h, 4)
  {
    HalfAndWhole(k1);
    HalfAndWhole(k2);
    HalfAndWhole(k3);
    HalfAndWhole(Blended(k1, k2, k3, k4));
    hide FreeFlight.Kick, FreeFlight.Impulse, FreeFlight.VelocitySeries, Times;
    FreeFlight.VelocityStep(g, visc, p, h, k1, k2, k3, k4);
    FreeFlight.VelocityIsSeries(g, visc, p, h);
  }

  lemma {:induction false} GainsFollowSeries(g: Vec, m: real, visc: real, p: Vec, h: real,
                                             k1: Vec, k2: Vec, k3: Vec, k4: Vec)
    requires k1 == Pushed(g, m, visc, p, h) && k2 == Pushed(g, m, visc, Gained(p, 0.5, k1), h)
    requires k3 == Pushed(g, m, visc, Gained(p, 0.5, k2), h) && k4 == Pushed(g, m, visc, Gained(p, 1.0, k3), h)
    ensures Gained(p, 1.0, Vec(Blended(k1.x, k2.x, k3.x, k4.x), Blended(k1.y, k2.y, k3.y, k4.y)))
         == Glided(g, m, visc, p, h)
  {
    hide FreeFlight.Kick, FreeFlight.VelocitySeries, Times, Blended;
    AxisFollowsSeries(Times(g.x, m), visc, p.x, h, k1.x, k2.x, k3.x, k4.x);
    AxisFollowsSeries(Times(g.y, m), visc, p.y, h, k1.y, k2.y, k3.y, k4.y);
  }

  /** Momentum p after a time h along the power series of p' = m g - visc p. */
  function Glided(g: Vec, m: real, visc: real, p: Vec, h: real): Vec {
    Vec(FreeFlight.VelocitySeries(Times(g.x, m), visc, p.x, h, 4),
        FreeFlight.VelocitySeries(Times(g.y, m), visc, p.y, h, 4))
  }

  /** A step of any size, whatever the springs between free bodies, takes the total momentum
      along that series, cut after the fourth power. */
  lemma {:induction false} MomentumFollowsSeries(f: Field, bs: seq<Body>, h: real)
    requires JoinsFree(bs, f.springs) && Glides(f.mst)
    ensures Momentum.Momentum(RK4(f, bs, h))
         == Glided(Gravity(f.lib, f.mst), Mass(bs), f.mst.visc, Momentum.Momentum(bs), h)
  {
    var k1, k2, k3, k4 := FourGains(f, bs, h);
    hide *;
    GainsFollowSeries(Gravity(f.lib, f.mst), Mass(bs), f.mst.visc, Momentum.Momentum(bs), h, k1, k2, k3, k4);
  }

  // ---------------------------------------------------------------------------
  // When momentum is kept
  // ---------------------------------------------------------------------------

  lemma {:induction false} SeriesWithoutDrag(g: real, visc: real, v: real, h: real)
    requires visc == 0.0
    ensures FreeFlight.VelocitySeries(g, visc, v, h, 4) == v + Times(g, h)
  {
    FreeFlight.VelocityIsSeries(g, visc, v, h);
    FreeFlight.NoDrag(g, v, h);
    assert visc * h == 0.0;
    hide FreeFlight.VelocitySeries, FreeFlight.Impulse, FreeFlight.Kick, Times;
  }

  /** Without drag, a step keeps the momentum exactly when gravity gives it no impulse. */
  lemma {:induction false} KeptExactlyWithoutImpulse(f: Field, bs: seq<Body>, h: real)
    requires JoinsFree(bs, f.springs) && Glides(f.mst) && f.mst.visc == 0.0
    ensures var g, m := Gravity(f.lib, f.mst), Mass(bs);
            Momentum.Momentum(RK4(f, bs, h)) == Momentum.Momentum(bs)
            <==> Times(Times(g.x, m), h) == 0.0 && Times(Times(g.y, m), h) == 0.0
  {
    var g, m, p := Gravity(f.lib, f.mst), Mass(bs), Momentum.Momentum(bs);
    MomentumFollowsSeries(f, bs, h);
    hide Gravity, Mass, Momentum.Momentum, RK4, FreeFlight.VelocitySeries, JoinsFree, Times;
    SeriesWithoutDrag(Times(g.x, m), f.mst.visc, p.x, h);
    SeriesWithoutDrag(Times(g.y, m), f.mst.visc, p.y, h);
  }

  /** Drag takes momentum: a step of size 1 / visc leaves three eighths of it. */
  lemma {:induction false} DragTakesMomentum(f: Field, bs: seq<Body>, h: real)
    requires JoinsFree(bs, f.springs) && Glides(f.mst) && !f.mst.gravity.on && f.mst.visc * h == 1.0
    ensures var p := Momentum.Momentum(bs);
            Momentum.Momentum(RK4(f, bs, h)) == Vec(0.375 * p.x, 0.375 * p.y)
  {
    var p, m := Momentum.Momentum(bs), Mass(bs);
    MomentumFollowsSeries(f, bs, h);
    assert Gravity(f.lib, f.mst) == Vec(0.0, 0.0);
    assert Times(0.0, m) == 0.0;
    hide Gravity, Mass, Momentum.Momentum, RK4, JoinsFree, FreeFlight.VelocitySeries, Times;
    ThreeEighths(f.mst.visc, p.x, h);
    ThreeEighths(f.mst.visc, p.y, h);
  }

  lemma {:induction false} ThreeEighths(visc: real, v: real, h: real)
    requires visc * h == 1.0
    ensures FreeFlight.VelocitySeries(0.0, visc, v, h, 4) == 0.375 * v
  {
    var w := FreeFlight.Kick(0.0, visc, v, h);
    assert w == -v by { assert (0.0 - visc * v) * h == -((visc * h) * v); }
    FreeFlight.VelocityIsSeries(0.0, visc, v, h);
    assert Times(1.0, w) == w;
    hide FreeFlight.VelocitySeries, FreeFlight.Kick, Times;
  }
}
