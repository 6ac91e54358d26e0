/**
 What the Runge-Kutta step is worth: under gravity and viscous drag, whose exact motion is
 known, one step of any size is the Taylor polynomial of that motion, to fourth order.
 */
module FreeFlight {
  import opened Common
  import opened Mechanics

  /** h times the acceleration at velocity v, along one axis. */
  function Kick(g: real, visc: real, v: real, h: real): real {
    (g - visc * v) * h
  }

  /** With w = h a(0) and z = visc h: the terms of w (1 - exp(-z)) / z up to z^3, which is
      how far the velocity gets in the time h. */
  function Impulse(w: real, z: real): real {
    w - Times(z, w) / 2.0 + Times(z, Times(z, w)) / 6.0 - Times(z, Times(z, Times(z, w))) / 24.0
  }

  /** With w = h^2 a(0): the terms of w (exp(-z) - 1 + z) / z^2 up to z^2, which is how far
      the position gets beyond h v. */
  function Drift(w: real, z: real): real {
    w / 2.0 - Times(z, w) / 6.0 + Times(z, Times(z, w)) / 24.0
  }

  lemma {:induction false} Distribute(z: real, a: real, c: real, b: real)
    ensures Times(z, a + c * b) == Times(z, a) + c * Times(z, b)
  {
  }

  lemma {:induction false} KickShift(g: real, visc: real, v: real, e: real, h: real)
    ensures Kick(g, visc, v + e, h) == Kick(g, visc, v, h) - Times(visc * h, e)
  {
    assert visc * (v + e) == visc * v + visc * e;
    assert (g - (visc * v + visc * e)) * h == (g - visc * v) * h - (visc * e) * h;
    assert (visc * e) * h == (visc * h) * e;
  }

  lemma {:induction false} KickHalf(g: real, visc: real, v: real, d: real, h: real)
    ensures Kick(g, visc, v + 0.5 * d, h) == Kick(g, visc, v, h) - 0.5 * Times(visc * h, d)
  {
    var e, z := 0.5 * d, visc * h;
    KickShift(g, visc, v, e, h);
    HalfTimes(z, d, e);
    hide Kick, Times;
  }

  lemma {:induction false} HalfTimes(z: real, d: real, e: real)
    requires e == 0.5 * d
    ensures Times(z, e) == 0.5 * Times(z, d)
  {
  }

  lemma {:induction false} KickWhole(g: real, visc: real, v: real, d: real, h: real)
    ensures Kick(g, visc, v + 1.0 * d, h) == Kick(g, visc, v, h) - 1.0 * Times(visc * h, d)
  {
    KickShift(g, visc, v, d, h);
    hide Kick, Times;
  }

  /** Four increments, each corrected by the one before. */
  lemma {:induction false} Corrected(z: real, k1: real, k2: real, k3: real, k4: real)
    requires k2 == k1 - 0.5 * Times(z, k1) && k3 == k1 - 0.5 * Times(z, k2) && k4 == k1 - 1.0 * Times(z, k3)
    ensures k3 == k1 - 0.5 * Times(z, k1) + 0.25 * Times(z, Times(z, k1))
    ensures k4 == k1 - Times(z, k1) + 0.5 * Times(z, Times(z, k1)) - 0.25 * Times(z, Times(z, Times(z, k1)))
  {
    hide Times;
    var zw, zzw := Times(z, k1), Times(z, Times(z, k1));
    Distribute(z, k1, -0.5, zw);
    assert k2 == k1 + -0.5 * zw;
    assert Times(z, k2) == zw + -0.5 * zzw;
    Distribute(z, k2, 0.25, zzw);
    assert k3 == k2 + 0.25 * zzw;
    assert Times(z, k3) == Times(z, k2) + 0.25 * Times(z, zzw);
  }

  /** The four velocity increments along one axis. */
  lemma {:induction false} Kicks(g: real, visc: real, v: real, h: real, k1: real, k2: real, k3: real, k4: real)
    requires k1 == Kick(g, visc, v, h) && k2 == Kick(g, visc, v + 0.5 * k1, h)
    requires k3 == Kick(g, visc, v + 0.5 * k2, h) && k4 == Kick(g, visc, v + 1.0 * k3, h)
    ensures var z := visc * h;
            && k2 == k1 - 0.5 * Times(z, k1)
            && k3 == k1 - 0.5 * Times(z, k1) + 0.25 * Times(z, Times(z, k1))
            && k4 == k1 - Times(z, k1) + 0.5 * Times(z, Times(z, k1)) - 0.25 * Times(z, Times(z, Times(z, k1)))
  {
    hide Kick, Times;
    KickHalf(g, visc, v, k1, h);
    KickHalf(g, visc, v, k2, h);
    KickWhole(g, visc, v, k3, h);
    Corrected(visc * h, k1, k2, k3, k4);
  }

  lemma {:induction false} VelocityStep(g: real, visc: real, v: real, h: real, k1: real, k2: real, k3: real, k4: real)
    requires k1 == Kick(g, visc, v, h) && k2 == Kick(g, visc, v + 0.5 * k1, h)
    requires k3 == Kick(g, visc, v + 0.5 * k2, h) && k4 == Kick(g, visc, v + 1.0 * k3, h)
    ensures (k1 / 2.0 + k2 + k3 + k4 / 2.0) / 3.0 == Impulse(k1, visc * h)
  {
    Kicks(g, visc, v, h, k1, k2, k3, k4);
    hide Kick, Times;
  }

  lemma {:induction false} PositionStep(g: real, visc: real, v: real, h: real, k1: real, k2: real, k3: real, k4: real)
    requires k1 == Kick(g, visc, v, h) && k2 == Kick(g, visc, v + 0.5 * k1, h)
    requires k3 == Kick(g, visc, v + 0.5 * k2, h) && k4 == Kick(g, visc, v + 1.0 * k3, h)
    ensures var x1, x2, x3, x4 := Times(v, h), Times(v + 0.5 * k1, h), Times(v + 0.5 * k2, h), Times(v + 1.0 * k3, h);
            (x1 / 2.0 + x2 + x3 + x4 / 2.0) / 3.0 == Times(v, h) + Drift(Times(h, k1), visc * h)
  {
    Kicks(g, visc, v, h, k1, k2, k3, k4);
    var z := visc * h;
    ScaledBy(h, z, k1);
    Sided(v, 0.5, k1, h);
    Sided(v, 0.5, k2, h);
    Sided(v, 1.0, k3, h);
    hide Kick, Times;
    assert k2 == k1 + -0.5 * Times(z, k1);
    Distribute(h, k1, -0.5, Times(z, k1));
    assert k3 == k2 + 0.25 * Times(z, Times(z, k1));
    Distribute(h, k2, 0.25, Times(z, Times(z, k1)));
  }

  lemma {:induction false} Sided(v: real, c: real, k: real, h: real)
    ensures Times(v + c * k, h) == Times(v, h) + c * Times(h, k)
  {
  }

  lemma {:induction false} ScaledBy(h: real, z: real, k: real)
    ensures Times(h, Times(z, k)) == Times(z, Times(h, k))
    ensures Times(h, Times(z, Times(z, k))) == Times(z, Times(z, Times(h, k)))
  {
    Swap(h, z, k);
    Swap(h, z, Times(z, k));
  }

  lemma {:induction false} Swap(h: real, z: real, k: real)
    ensures Times(h, Times(z, k)) == Times(z, Times(h, k))
  {
  }

  // ---------------------------------------------------------------------------
  // A mass in free flight
  // ---------------------------------------------------------------------------

  /** No force but gravity and viscous drag. */
  ghost predicate Flight(f: Field) {
    && !f.mst.cmass.on && !f.mst.attract.on && !f.mst.wall.on
    && forall j :: 0 <= j < |f.springs| ==> !f.springs[j].alive
  }

  lemma {:induction false} NothingAdded(v: Vec)
    ensures Sum(v, Vec(0.0, 0.0)) == v
  {
  }

  lemma {:induction false} FlightExternal(f: Field, bs: seq<Body>, i: nat)
    requires Flight(f) && i < |bs|
    ensures External(f.lib, bs, f.mst, i) == Dragged(Gravity(f.lib, f.mst), f.mst.visc, bs[i].at.vx, bs[i].at.vy)
  {
    hide CentreAt, MomentsOf, Gravity, Dragged;
    var g := Gravity(f.lib, f.mst);
    NothingAdded(g);
    NothingAdded(Dragged(g, f.mst.visc, bs[i].at.vx, bs[i].at.vy));
  }

  lemma {:induction false} FlightAccel(f: Field, bs: seq<Body>, i: nat, n: nat)
    requires Flight(f) && i < |bs| && n <= |f.springs|
    ensures Accel(f.lib, bs, f.springs, f.mst, i, n)
         == Dragged(Gravity(f.lib, f.mst), f.mst.visc, bs[i].at.vx, bs[i].at.vy)
  {
    if n == 0 {
      FlightExternal(f, bs, i);
    } else {
      FlightAccel(f, bs, i, n - 1);
      NothingAdded(Dragged(Gravity(f.lib, f.mst), f.mst.visc, bs[i].at.vx, bs[i].at.vy));
      hide External, Dragged, Gravity, SpringForce;
    }
  }

  /** The increments of a mass at p, under gravity g. */
  function FlightIncrement(g: Vec, visc: real, p: Phase, h: real): Phase {
    Phase(Times(p.vx, h), Times(p.vy, h), Kick(g.x, visc, p.vx, h), Kick(g.y, visc, p.vy, h))
  }

  lemma {:induction false} DraggedIncrement(g: Vec, visc: real, p: Phase, h: real)
    ensures Increment(p, Dragged(g, visc, p.vx, p.vy), h) == FlightIncrement(g, visc, p, h)
  {
  }

  lemma {:induction false} FlightRate(f: Field, bs: seq<Body>, h: real, i: nat)
    requires Flight(f) && i < |bs|
    ensures Rates(f, bs, h)[i] == FlightIncrement(Gravity(f.lib, f.mst), f.mst.visc, bs[i].at, h)
  {
    FlightAccel(f, bs, i, |f.springs|);
    DraggedIncrement(Gravity(f.lib, f.mst), f.mst.visc, bs[i].at, h);
    hide Accel, Increment, Dragged, Gravity, FlightIncrement;
  }

  /** Where the four stages find a free mass. */
  lemma {:induction false} FlightStages(f: Field, bs: seq<Body>, h: real, i: nat)
    requires Flight(f) && i < |bs| && bs[i].Free()
    ensures var p := bs[i].at;
            && Stage(f, bs, h, 1)[i].at == p
            && Stage(f, bs, h, 2)[i].at == p.Plus(Increments(f, bs, h, 1)[i], 0.5)
            && Stage(f, bs, h, 3)[i].at == p.Plus(Increments(f, bs, h, 2)[i], 0.5)
            && Stage(f, bs, h, 4)[i].at == p.Plus(Increments(f, bs, h, 3)[i], 1.0)
  {
    hide Rates, Phase.Plus;
    assert bs[i] == Stage(f, bs, h, 1)[i];
  }

  lemma {:induction false} PhaseStep(g: Vec, visc: real, p: Phase, h: real, k1: Phase, k2: Phase, k3: Phase, k4: Phase)
    requires k1 == FlightIncrement(g, visc, p, h) && k2 == FlightIncrement(g, visc, p.Plus(k1, 0.5), h)
    requires k3 == FlightIncrement(g, visc, p.Plus(k2, 0.5), h) && k4 == FlightIncrement(g, visc, p.Plus(k3, 1.0), h)
    ensures Blend(k1, k2, k3, k4)
         == Phase(Times(p.vx, h) + Drift(Times(h, k1.vx), visc * h), Times(p.vy, h) + Drift(Times(h, k1.vy), visc * h),
                  Impulse(k1.vx, visc * h), Impulse(k1.vy, visc * h))
  {
    VelocityStep(g.x, visc, p.vx, h, k1.vx, k2.vx, k3.vx, k4.vx);
    VelocityStep(g.y, visc, p.vy, h, k1.vy, k2.vy, k3.vy, k4.vy);
    PositionStep(g.x, visc, p.vx, h, k1.vx, k2.vx, k3.vx, k4.vx);
    PositionStep(g.y, visc, p.vy, h, k1.vy, k2.vy, k3.vy, k4.vy);
    hide Times, Kick, Drift, Impulse;
  }

  lemma {:induction false} StepBlends(f: Field, bs: seq<Body>, h: real, i: nat)
    requires i < |bs| && bs[i].Free() && SpringsFit(bs, f.springs)
    ensures RK4(f, bs, h)[i].at
         == bs[i].at.Plus(Blend(Increments(f, bs, h, 1)[i], Increments(f, bs, h, 2)[i],
                                Increments(f, bs, h, 3)[i], Increments(f, bs, h, 4)[i]), 1.0)
  {
    hide Increments, Blend, Phase.Plus;
  }

  lemma {:induction false} StageRates(f: Field, bs: seq<Body>, h: real, i: nat)
    requires Flight(f) && i < |bs|
    ensures forall n :: 1 <= n <= 4 ==>
              Increments(f, bs, h, n)[i]
              == FlightIncrement(Gravity(f.lib, f.mst), f.mst.visc, Stage(f, bs, h, n)[i].at, h)
  {
    forall n | 1 <= n <= 4
      ensures Increments(f, bs, h, n)[i]
          == FlightIncrement(Gravity(f.lib, f.mst), f.mst.visc, Stage(f, bs, h, n)[i].at, h)
    {
      FlightRate(f, Stage(f, bs, h, n), h, i);
    }
  }

  /** The motion from p after a time h, as the step computes it. */
  function TaylorMotion(g: Vec, visc: real, p: Phase, h: real): Phase {
    var wx, wy, z := Kick(g.x, visc, p.vx, h), Kick(g.y, visc, p.vy, h), visc * h;
    Phase(p.x + Times(p.vx, h) + Drift(Times(h, wx), z), p.y + Times(p.vy, h) + Drift(Times(h, wy), z),
          p.vx + Impulse(wx, z), p.vy + Impulse(wy, z))
  }

  lemma {:induction false} BlendIsTaylor(g: Vec, visc: real, p: Phase, h: real, k1: Phase, k2: Phase, k3: Phase,
                                         k4: Phase)
    requires k1 == FlightIncrement(g, visc, p, h) && k2 == FlightIncrement(g, visc, p.Plus(k1, 0.5), h)
    requires k3 == FlightIncrement(g, visc, p.Plus(k2, 0.5), h) && k4 == FlightIncrement(g, visc, p.Plus(k3, 1.0), h)
    ensures p.Plus(Blend(k1, k2, k3, k4), 1.0) == TaylorMotion(g, visc, p, h)
  {
    PhaseStep(g, visc, p, h, k1, k2, k3, k4);
    hide Blend, Times, Kick, Drift, Impulse;
  }

  lemma {:induction false} NoDrag(g: real, v: real, h: real)
    ensures var w := Kick(g, 0.0, v, h);
            w == Times(g, h) && Impulse(w, 0.0) == w && Drift(Times(h, w), 0.0) == Times(h, w) / 2.0
  {
  }

  // ---------------------------------------------------------------------------
  // Where the polynomial comes from
  // ---------------------------------------------------------------------------

  /** Coefficient n of the power series of the velocity along one axis: comparing the powers of
      the time in v' = g - visc v gives (n + 1) v[n + 1] = -visc v[n], with g added for n = 0. */
  function VelocityCoefficient(g: real, visc: real, v: real, n: nat): real {
    if n <= 0 then v
    else ((if n == 1 then g else 0.0) - visc * VelocityCoefficient(g, visc, v, n - 1)) / n as real
  }

  /** Likewise of the position: x' = v gives (n + 1) x[n + 1] = v[n]. */
  function PositionCoefficient(g: real, visc: real, x: real, v: real, n: nat): real {
    if n <= 0 then x else VelocityCoefficient(g, visc, v, n - 1) / n as real
  }

  function VelocityTerm(g: real, visc: real, v: real, h: real, n: nat): real {
    VelocityCoefficient(g, visc, v, n) * Power(h, n)
  }

  function PositionTerm(g: real, visc: real, x: real, v: real, h: real, n: nat): real {
    PositionCoefficient(g, visc, x, v, n) * Power(h, n)
  }

  /** The series up to the power n. */
  function VelocitySeries(g: real, visc: real, v: real, h: real, n: nat): real {
    VelocityTerm(g, visc, v, h, n) + if n <= 0 then 0.0 else VelocitySeries(g, visc, v, h, n - 1)
  }

  function PositionSeries(g: real, visc: real, x: real, v: real, h: real, n: nat): real {
    PositionTerm(g, visc, x, v, h, n) + if n <= 0 then 0.0 else PositionSeries(g, visc, x, v, h, n - 1)
  }

  lemma {:induction false} DragOnTerm(visc: real, c: real, m: real, h: real, p: real)
    requires m > 0.0
    ensures ((0.0 - visc * c) / m) * (h * p) == -Times(visc * h, c * p) / m
  {
    var q := visc * c;
    assert ((0.0 - q) / m) * (h * p) == -(q * (h * p)) / m;
    assert q * (h * p) == (visc * h) * (c * p);
  }

  lemma {:induction false} NextVelocityTerm(g: real, visc: real, v: real, h: real, n: nat)
    requires n > 0
    ensures VelocityTerm(g, visc, v, h, n + 1) == -Times(visc * h, VelocityTerm(g, visc, v, h, n)) / (n + 1) as real
  {
    DragOnTerm(visc, VelocityCoefficient(g, visc, v, n), (n + 1) as real, h, Power(h, n));
    assert VelocityCoefficient(g, visc, v, n + 1)
        == (0.0 - visc * VelocityCoefficient(g, visc, v, n)) / (n + 1) as real;
    assert Power(h, n + 1) == h * Power(h, n);
    hide VelocityCoefficient, Power, Times;
  }

  lemma {:induction false} FirstVelocityTerms(g: real, visc: real, v: real, h: real)
    ensures VelocityTerm(g, visc, v, h, 0) == v && VelocityTerm(g, visc, v, h, 1) == Kick(g, visc, v, h)
  {
    var c := VelocityCoefficient(g, visc, v, 1);
    assert c == g - visc * v by {
      assert c == (g - visc * VelocityCoefficient(g, visc, v, 0)) / 1.0;
    }
    assert Power(h, 0) == 1.0;
    assert Power(h, 1) == h * Power(h, 0);
  }

  lemma {:induction false} Quotients(c: real, m: real, h: real, p: real)
    requires m > 0.0
    ensures (c / m) * (h * p) == Times(h, c * p) / m
  {
    assert (c / m) * (h * p) == (c * (h * p)) / m;
  }

  lemma {:induction false} NextPositionTerm(g: real, visc: real, x: real, v: real, h: real, n: nat)
    ensures PositionTerm(g, visc, x, v, h, n + 1) == Times(h, VelocityTerm(g, visc, v, h, n)) / (n + 1) as real
    ensures PositionTerm(g, visc, x, v, h, 0) == x
  {
    Quotients(VelocityCoefficient(g, visc, v, n), (n + 1) as real, h, Power(h, n));
    assert Power(h, n + 1) == h * Power(h, n) && Power(h, 0) == 1.0;
    hide VelocityCoefficient, Power, Times;
  }

  lemma {:induction false} HalvesAndSixths(z: real, b: real)
    ensures Times(z, -0.5 * b) == -0.5 * Times(z, b)
    ensures Times(z, (1.0 / 6.0) * b) == (1.0 / 6.0) * Times(z, b)
  {
  }

  /** The terms of the velocity series, in the products the step uses. */
  lemma {:induction false} VelocityTerms(g: real, visc: real, v: real, h: real)
    ensures var w, z := Kick(g, visc, v, h), visc * h;
            && VelocityTerm(g, visc, v, h, 0) == v && VelocityTerm(g, visc, v, h, 1) == w
            && VelocityTerm(g, visc, v, h, 2) == -0.5 * Times(z, w)
            && VelocityTerm(g, visc, v, h, 3) == (1.0 / 6.0) * Times(z, Times(z, w))
            && VelocityTerm(g, visc, v, h, 4) == (-1.0 / 24.0) * Times(z, Times(z, Times(z, w)))
  {
    var w, z := Kick(g, visc, v, h), visc * h;
    FirstVelocityTerms(g, visc, v, h);
    NextVelocityTerm(g, visc, v, h, 1);
    NextVelocityTerm(g, visc, v, h, 2);
    NextVelocityTerm(g, visc, v, h, 3);
    HalvesAndSixths(z, Times(z, w));
    HalvesAndSixths(z, Times(z, Times(z, w)));
    hide VelocityTerm, Kick, Times;
  }

  lemma {:induction false} VelocityIsSeries(g: real, visc: real, v: real, h: real)
    ensures v + Impulse(Kick(g, visc, v, h), visc * h) == VelocitySeries(g, visc, v, h, 4)
  {
    VelocityTerms(g, visc, v, h);
    hide VelocityTerm, Kick, Times;
    assert VelocitySeries(g, visc, v, h, 2) == VelocityTerm(g, visc, v, h, 2) + VelocitySeries(g, visc, v, h, 1);
  }

  lemma {:induction false} PositionTerms(g: real, visc: real, x: real, v: real, h: real)
    ensures var u, z := Times(h, Kick(g, visc, v, h)), visc * h;
            && PositionTerm(g, visc, x, v, h, 0) == x && PositionTerm(g, visc, x, v, h, 1) == Times(v, h)
            && PositionTerm(g, visc, x, v, h, 2) == u / 2.0
            && PositionTerm(g, visc, x, v, h, 3) == (-1.0 / 6.0) * Times(z, u)
            && PositionTerm(g, visc, x, v, h, 4) == (1.0 / 24.0) * Times(z, Times(z, u))
  {
    VelocityTerms(g, visc, v, h);
    NextPositionTerm(g, visc, x, v, h, 0);
    NextPositionTerm(g, visc, x, v, h, 1);
    NextPositionTerm(g, visc, x, v, h, 2);
    NextPositionTerm(g, visc, x, v, h, 3);
    hide VelocityTerm, PositionTerm, Kick, Times;
    ScaledTerms(Kick(g, visc, v, h), visc * h, v, h);
  }

  /** h times the terms of the velocity series. */
  lemma {:induction false} ScaledTerms(w: real, z: real, v: real, h: real)
    ensures Times(h, v) == Times(v, h)
    ensures Times(h, -0.5 * Times(z, w)) == -0.5 * Times(z, Times(h, w))
    ensures Times(h, (1.0 / 6.0) * Times(z, Times(z, w))) == (1.0 / 6.0) * Times(z, Times(z, Times(h, w)))
  {
    TimesCommutes(h, v);
    hide Times;
    HalvesAndSixths(h, Times(z, w));
    HalvesAndSixths(h, Times(z, Times(z, w)));
    ScaledBy(h, z, w);
  }

  lemma {:induction false} TimesCommutes(a: real, b: real)
    ensures Times(a, b) == Times(b, a)
  {
  }

  lemma {:induction false} PositionIsSeries(g: real, visc: real, x: real, v: real, h: real)
    ensures x + Times(v, h) + Drift(Times(h, Kick(g, visc, v, h)), visc * h) == PositionSeries(g, visc, x, v, h, 4)
  {
    PositionTerms(g, visc, x, v, h);
    hide PositionTerm, Kick, Times;
    assert PositionSeries(g, visc, x, v, h, 1)
        == PositionTerm(g, visc, x, v, h, 1) + PositionSeries(g, visc, x, v, h, 0);
    assert PositionSeries(g, visc, x, v, h, 2)
        == PositionTerm(g, visc, x, v, h, 2) + PositionSeries(g, visc, x, v, h, 1);
    assert PositionSeries(g, visc, x, v, h, 3)
        == PositionTerm(g, visc, x, v, h, 3) + PositionSeries(g, visc, x, v, h, 2);
  }

  /** The power series of the motion from p, cut after the fourth power of the time. */
  function SeriesMotion(g: Vec, visc: real, p: Phase, h: real): Phase {
    Phase(PositionSeries(g.x, visc, p.x, p.vx, h, 4), PositionSeries(g.y, visc, p.y, p.vy, h, 4),
          VelocitySeries(g.x, visc, p.vx, h, 4), VelocitySeries(g.y, visc, p.vy, h, 4))
  }

  /** The polynomial is the power series of the motion, cut after the fourth power. */
  lemma {:induction false} TaylorMotionIsSeries(g: Vec, visc: real, p: Phase, h: real)
    ensures TaylorMotion(g, visc, p, h) == SeriesMotion(g, visc, p, h)
  {
    PositionIsSeries(g.x, visc, p.x, p.vx, h);
    PositionIsSeries(g.y, visc, p.y, p.vy, h);
    VelocityIsSeries(g.x, visc, p.vx, h);
    VelocityIsSeries(g.y, visc, p.vy, h);
    hide PositionSeries, VelocitySeries, Times, Kick, Drift, Impulse;
  }

  /** One step of any size h moves a free mass by the power series of its exact motion under
      gravity and drag, cut after the fourth power. */
  lemma {:induction false} StepIsTaylor(f: Field, bs: seq<Body>, h: real, i: nat)
    requires Flight(f) && i < |bs| && bs[i].Free()
    ensures RK4(f, bs, h)[i].at == SeriesMotion(Gravity(f.lib, f.mst), f.mst.visc, bs[i].at, h)
  {
    FlightStages(f, bs, h, i);
    StageRates(f, bs, h, i);
    StepBlends(f, bs, h, i);
    hide *;
    BlendIsTaylor(Gravity(f.lib, f.mst), f.mst.visc, bs[i].at, h, Increments(f, bs, h, 1)[i],
                  Increments(f, bs, h, 2)[i], Increments(f, bs, h, 3)[i], Increments(f, bs, h, 4)[i]);
    TaylorMotionIsSeries(Gravity(f.lib, f.mst), f.mst.visc, bs[i].at, h);
  }

  /** Without drag that is the exact parabola. */
  lemma {:induction false} FreeFallIsExact(g: Vec, p: Phase, h: real)
    ensures SeriesMotion(g, 0.0, p, h)
         == Phase(p.x + Times(p.vx, h) + Times(h, Times(g.x, h)) / 2.0,
                  p.y + Times(p.vy, h) + Times(h, Times(g.y, h)) / 2.0,
                  p.vx + Times(g.x, h), p.vy + Times(g.y, h))
  {
    TaylorMotionIsSeries(g, 0.0, p, h);
    NoDrag(g.x, p.vx, h);
    NoDrag(g.y, p.vy, h);
    assert 0.0 * h == 0.0;
    hide Times, Kick, Drift, Impulse, SeriesMotion;
  }
}
