/**
 The reference mechanics of the mass and spring simulator: what acceleration each mass
 feels, gathered mass by mass, and the classical fourth-order Runge-Kutta step.  It
 mentions only positions, velocities and the constants of each mass, never the
 integrator's scratch fields.  Doubles are modelled as reals.
 */
module Mechanics {

  /** The C library functions the simulator calls, and the value of a division by zero. */
  datatype Libm = Libm(
    sqrt: real -> real, sin: real -> real, cos: real -> real, pow: (real, real) -> real,
    exp: real -> real, log: real -> real, byZero: real -> real)
  {
    function Sqrt(t: real): real { sqrt(t) }

    function Sin(t: real): real { sin(t) }

    function Cos(t: real): real { cos(t) }

    function Pow(t: real, u: real): real { pow(t, u) }

    function Exp(t: real): real { exp(t) }

    function Log(t: real): real { log(t) }

    function Div(a: real, b: real): real {
      if b != 0.0 then a / b else byZero(a)
    }

    /** All that is assumed of exp and log. */
    ghost predicate Good() {
      && (forall t: real :: t >= 1.0 ==> Log(t) >= 0.0)
      && (forall t: real :: t <= 0.0 ==> 0.0 < Exp(t) <= 1.0)
    }
  }

  datatype Vec = Vec(x: real, y: real)

  datatype Phase = Phase(x: real, y: real, vx: real, vy: real)
  {
    function Plus(k: Phase, f: real): Phase {
      Phase(x + f * k.x, y + f * k.y, vx + f * k.vx, vy + f * k.vy)
    }
  }

  datatype Body = Body(at: Phase, mass: real, radius: int, alive: bool, fixed: bool)
  {
    predicate Free() {
      alive && !fixed
    }
  }

  datatype Spring = Spring(m1: nat, m2: nat, ks: real, kd: real, restlen: real, alive: bool)

  /** A global force: on, with its two parameters. */
  datatype Force = Force(on: bool, val: real, misc: real)

  datatype Settings = Settings(
    centre: int, gravity: Force, cmass: Force, attract: Force, wall: Force,
    visc: real, top: bool, left: bool, right: bool, bottom: bool, wid: int, ht: int)

  function Along(t: real, dx: real, dy: real): Vec {
    Vec(t * dx, t * dy)
  }

  const PI := 3.14159265358979323846

  /** The C cast of a double to an int. */
  function Trunc(t: real): real {
    if t >= 0.0 then t.Floor as real else -((-t).Floor as real)
  }

  // ---------------------------------------------------------------------------
  // Global forces
  // ---------------------------------------------------------------------------

  /** The centre mass if it is alive, -1 if there is none. */
  function Centre(bs: seq<Body>, mst: Settings): int {
    if 0 <= mst.centre < |bs| && bs[mst.centre].alive then mst.centre else -1
  }

  function CentreAt(bs: seq<Body>, mst: Settings): Vec {
    var c := Centre(bs, mst);
    if c >= 0 then Vec(bs[c].at.x, bs[c].at.y) else Vec(mst.wid as real / 2.0, mst.ht as real / 2.0)
  }

  function Gravity(lib: Libm, mst: Settings): Vec {
    PullOfGravity(lib, mst.gravity)
  }

  function PullOfGravity(lib: Libm, f: Force): Vec {
    if !f.on then Vec(0.0, 0.0)
    else
      var angle := f.misc * PI / 180.0;
      Vec(Trunc(f.val * lib.Sin(angle)), Trunc(-(f.val * lib.Cos(angle))))
  }

  /** Mass and first moments of the free masses among the first n, the centre mass apart. */
  datatype Moments = Moments(mass: real, x: real, y: real, vx: real, vy: real)
  {
    function Plus(m: real, p: Phase): Moments {
      Moments(mass + m, x + m * p.x, y + m * p.y, vx + m * p.vx, vy + m * p.vy)
    }
  }

  function MomentsOf(bs: seq<Body>, centre: int, n: nat): Moments
    requires n <= |bs|
  {
    if n == 0 then Moments(0.0, 0.0, 0.0, 0.0, 0.0)
    else
      var m, b := MomentsOf(bs, centre, n - 1), bs[n - 1];
      if n - 1 != centre && b.Free() then m.Plus(b.mass, b.at) else m
  }

  /** The force keeping the centre of mass at the centre, per unit mass. */
  function Centring(bs: seq<Body>, mst: Settings): Vec {
    var m := MomentsOf(bs, Centre(bs, mst), |bs|);
    if !mst.cmass.on || m.mass == 0.0 then Vec(0.0, 0.0)
    else
      var c, f := CentreAt(bs, mst), mst.cmass;
      Vec(0.0 - (f.val * (m.x / m.mass - c.x) + f.misc * (m.vx / m.mass)) / m.mass,
          0.0 - (f.val * (m.y / m.mass - c.y) + f.misc * (m.vy / m.mass)) / m.mass)
  }

  /** A point attracting a body at offset (dx, dy) and distance `mag`. */
  function AttractedBy(lib: Libm, f: Force, dx: real, dy: real, mag: real): Vec {
    var strength := lib.Div(f.val, lib.Pow(mag, f.misc));
    var pull := Along(strength, dx, dy);
    Vec(lib.Div(pull.x, mag), lib.Div(pull.y, mag))
  }

  /** Point attraction, softened when the body and the point (of radius 1) overlap. */
  function SoftAttraction(lib: Libm, f: Force, dx: real, dy: real, reach: real): Vec {
    var dist := Hypot(lib, dx, dy);
    var near := Along(lib.Div(dist, reach), dx, dy);
    if dist < reach then AttractedBy(lib, f, near.x, near.y, reach) else AttractedBy(lib, f, dx, dy, dist)
  }

  function Hypot(lib: Libm, dx: real, dy: real): real {
    lib.Sqrt(dx * dx + dy * dy)
  }

  function Attraction(lib: Libm, bs: seq<Body>, mst: Settings, b: Body): Vec {
    var c := CentreAt(bs, mst);
    if !mst.attract.on then Vec(0.0, 0.0)
    else SoftAttraction(lib, mst.attract, c.x - b.at.x, c.y - b.at.y, b.radius as real + 1.0)
  }

  /** The push of one wall at distance `dist`: none behind it, no nearer than 1. */
  function WallPush(lib: Libm, mst: Settings, on: bool, dist: real): real {
    if on && dist >= 0.0 then
      lib.Div(-mst.wall.val, lib.Pow(if dist < 1.0 then 1.0 else dist, mst.wall.misc))
    else 0.0
  }

  function WallForce(lib: Libm, mst: Settings, b: Body): Vec {
    if !mst.wall.on then Vec(0.0, 0.0)
    else
      var r, w, h := b.radius as real, mst.wid as real, mst.ht as real;
      Vec(0.0 - WallPush(lib, mst, mst.left, b.at.x - r) + WallPush(lib, mst, mst.right, w - r - b.at.x),
          WallPush(lib, mst, mst.top, h - r - b.at.y) - WallPush(lib, mst, mst.bottom, b.at.y - r))
  }

  function Sum(u: Vec, v: Vec): Vec {
    Vec(u.x + v.x, u.y + v.y)
  }

  function Dragged(a: Vec, visc: real, vx: real, vy: real): Vec {
    Vec(a.x - visc * vx, a.y - visc * vy)
  }

  /** Gravity, centring and viscous drag on mass i. */
  function Base(lib: Libm, bs: seq<Body>, mst: Settings, i: nat): Vec
    requires i < |bs|
  {
    var g, v := Gravity(lib, mst), bs[i].at;
    var c := if i != Centre(bs, mst) then Centring(bs, mst) else Vec(0.0, 0.0);
    Dragged(Sum(g, c), mst.visc, v.vx, v.vy)
  }

  /** The acceleration of mass i by everything but springs. */
  function External(lib: Libm, bs: seq<Body>, mst: Settings, i: nat): Vec
    requires i < |bs|
  {
    Sum(Sum(Base(lib, bs, mst, i), Attraction(lib, bs, mst, bs[i])), WallForce(lib, mst, bs[i]))
  }

  // ---------------------------------------------------------------------------
  // Springs
  // ---------------------------------------------------------------------------

  predicate SpringsFit(bs: seq<Body>, ss: seq<Spring>) {
    forall j :: 0 <= j < |ss| && ss[j].alive ==> ss[j].m1 < |bs| && ss[j].m2 < |bs|
  }

  /** Hooke's law with damping, for a spring of length `mag` whose ends part at rate `damp`. */
  function Hooke(s: Spring, mag: real, damp: real): real {
    if s.kd != 0.0 then s.ks * (s.restlen - mag) - s.kd * damp else s.ks * (s.restlen - mag)
  }

  /** The tension per unit of span of a spring whose ends are (dx, dy) apart and part at
      (dvx, dvy); positive pushes them apart. */
  function Tension(lib: Libm, s: Spring, dx: real, dy: real, dvx: real, dvy: real): real {
    var mag := Hypot(lib, dx, dy);
    lib.Div(Hooke(s, mag, lib.Div(dvx * dx + dvy * dy, mag)), mag)
  }

  /** A living spring pulls unless its ends coincide. */
  predicate Pulls(bs: seq<Body>, s: Spring)
    requires s.alive ==> s.m1 < |bs| && s.m2 < |bs|
  {
    s.alive && (bs[s.m1].at.x - bs[s.m2].at.x != 0.0 || bs[s.m1].at.y - bs[s.m2].at.y != 0.0)
  }

  /** The force of a pulling spring on its end m1; the other end gets the opposite. */
  function SpringForce(lib: Libm, bs: seq<Body>, s: Spring): Vec
    requires s.m1 < |bs| && s.m2 < |bs|
  {
    var p, q := bs[s.m1].at, bs[s.m2].at;
    var t := Tension(lib, s, p.x - q.x, p.y - q.y, p.vx - q.vx, p.vy - q.vy);
    Along(t, p.x - q.x, p.y - q.y)
  }

  /** What spring s adds to the acceleration of mass i. */
  function Pull(lib: Libm, bs: seq<Body>, s: Spring, i: nat): Vec
    requires i < |bs| && (s.alive ==> s.m1 < |bs| && s.m2 < |bs|)
  {
    if !Pulls(bs, s) || (i != s.m1 && i != s.m2) then Vec(0.0, 0.0)
    else
      var f := SpringForce(lib, bs, s);
      var ax, ay := lib.Div(f.x, bs[i].mass), lib.Div(f.y, bs[i].mass);
      if i == s.m1 then Vec(ax, ay) else Vec(-ax, -ay)
  }

  /** The acceleration of mass i: external forces and the pulls of the first n springs. */
  function Accel(lib: Libm, bs: seq<Body>, ss: seq<Spring>, mst: Settings, i: nat, n: nat): Vec
    requires i < |bs| && n <= |ss| && SpringsFit(bs, ss)
  {
    if n == 0 then External(lib, bs, mst, i)
    else Sum(Accel(lib, bs, ss, mst, i, n - 1), Pull(lib, bs, ss[n - 1], i))
  }

  // ---------------------------------------------------------------------------
  // Runge-Kutta
  // ---------------------------------------------------------------------------

  /** A force field: the simulator's constants. */
  datatype Field = Field(lib: Libm, springs: seq<Spring>, mst: Settings)

  function FieldAccel(f: Field, bs: seq<Body>, i: nat): Vec
    requires i < |bs| && SpringsFit(bs, f.springs)
  {
    Accel(f.lib, bs, f.springs, f.mst, i, |f.springs|)
  }

  /** The increment over a step h: h times velocity and acceleration. */
  function Increment(at: Phase, a: Vec, h: real): Phase {
    Phase(at.vx * h, at.vy * h, a.x * h, a.y * h)
  }

  function Rate(f: Field, bs: seq<Body>, h: real, i: nat): Phase
    requires i < |bs| && SpringsFit(bs, f.springs)
  {
    Increment(bs[i].at, FieldAccel(f, bs, i), h)
  }

  function Rates(f: Field, bs: seq<Body>, h: real): (ks: seq<Phase>)
    requires SpringsFit(bs, f.springs)
    ensures |ks| == |bs|
  {
    seq(|bs|, i requires 0 <= i < |bs| => Rate(f, bs, h, i))
  }

  /** Every free body moved from where it is by c times its increment. */
  function Moved(bs: seq<Body>, ks: seq<Phase>, c: real): (ms: seq<Body>)
    requires |ks| == |bs|
    ensures |ms| == |bs|
    ensures forall i :: 0 <= i < |bs| ==>
              ms[i] == bs[i].(at := if bs[i].Free() then bs[i].at.Plus(ks[i], c) else bs[i].at)
  {
    seq(|bs|, i requires 0 <= i < |bs| =>
      bs[i].(at := if bs[i].Free() then bs[i].at.Plus(ks[i], c) else bs[i].at))
  }

  /** (k1/2 + k2 + k3 + k4/2) / 3 */
  function Blend(k1: Phase, k2: Phase, k3: Phase, k4: Phase): Phase {
    Phase((k1.x / 2.0 + k2.x + k3.x + k4.x / 2.0) / 3.0, (k1.y / 2.0 + k2.y + k3.y + k4.y / 2.0) / 3.0,
          (k1.vx / 2.0 + k2.vx + k3.vx + k4.vx / 2.0) / 3.0, (k1.vy / 2.0 + k2.vy + k3.vy + k4.vy / 2.0) / 3.0)
  }

  /** The bodies at the four stages of a step. */
  function Stage(f: Field, bs: seq<Body>, h: real, n: nat): (ms: seq<Body>)
    requires 1 <= n <= 4 && SpringsFit(bs, f.springs)
    ensures |ms| == |bs|
    decreases n
  {
    if n == 1 then bs
    else Moved(bs, Rates(f, Stage(f, bs, h, n - 1), h), if n == 4 then 1.0 else 0.5)
  }

  function Increments(f: Field, bs: seq<Body>, h: real, n: nat): (ks: seq<Phase>)
    requires 1 <= n <= 4 && SpringsFit(bs, f.springs)
    ensures |ks| == |bs|
  {
    Rates(f, Stage(f, bs, h, n), h)
  }

  /** One classical fourth-order Runge-Kutta step of size h. */
  function RK4(f: Field, bs: seq<Body>, h: real): (ms: seq<Body>)
    requires SpringsFit(bs, f.springs)
    ensures |ms| == |bs|
  {
    var k1, k2 := Increments(f, bs, h, 1), Increments(f, bs, h, 2);
    var k3, k4 := Increments(f, bs, h, 3), Increments(f, bs, h, 4);
    Moved(bs, seq(|bs|, i requires 0 <= i < |bs| => Blend(k1[i], k2[i], k3[i], k4[i])), 1.0)
  }
}
