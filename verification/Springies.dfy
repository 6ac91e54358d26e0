/**
 The simulator itself: it updates the mass array in place, scattering spring forces over
 it, keeping Runge-Kutta increments in scratch fields of each mass, and retrying steps
 whose error is too large.
 */
module Springies {
  import opened Common
  import opened Mechanics
  import opened StepSize
  import Walls
  import Momentum
  import Gliding
  import FreeFlight

  /** `last` is the state saved at the start of a frame, `cur` at the start of a step. */
  datatype Mass = Mass(
    body: Body, acc: Vec, elastic: real,
    cur: Phase, last: Phase, test: Phase,
    k1: Phase, k2: Phase, k3: Phase, k4: Phase)
  {
    predicate Free() {
      body.Free()
    }
  }

  function Bodies(ms: seq<Mass>): (bs: seq<Body>)
    ensures |bs| == |ms|
    ensures forall i :: 0 <= i < |ms| ==> bs[i] == ms[i].body
  {
    seq(|ms|, i requires 0 <= i < |ms| => ms[i].body)
  }

  /** Accelerations apart, nothing differs. */
  ghost predicate OnlyAccels(before: seq<Mass>, after: seq<Mass>) {
    |before| == |after| && forall i :: 0 <= i < |before| ==> after[i] == before[i].(acc := after[i].acc)
  }

  class World {
    const lib: Libm
    const masses: array<Mass>
    var springs: seq<Spring>
    var mst: Settings
    var dt: real
    var prec: real
    var stick: real
    var adaptive: bool

    constructor (lib: Libm, masses: array<Mass>, springs: seq<Spring>, mst: Settings)
      ensures this.lib == lib && this.masses == masses && this.springs == springs && this.mst == mst
      ensures dt == 0.025 && prec == 1.0 && stick == 0.0 && !adaptive
    {
      this.lib, this.masses, this.springs, this.mst := lib, masses, springs, mst;
      dt, prec, stick, adaptive := 0.025, 1.0, 0.0, false;
    }

    function Now(): (bs: seq<Body>)
      reads masses
      ensures |bs| == masses.Length
      ensures forall i :: 0 <= i < masses.Length ==> bs[i] == masses[i].body
    {
      Bodies(masses[..])
    }

    ghost predicate Valid()
      reads this, masses
    {
      SpringsFit(Now(), springs) && -1 <= mst.centre < masses.Length
    }

    /** The force field in effect: a dead centre mass counts as none. */
    function Forces(): Field
      reads this, masses
    {
      Field(lib, springs, mst.(centre := Centre(Now(), mst)))
    }

    method TotalMoments() returns (m: Moments)
      ensures m == MomentsOf(Now(), mst.centre, masses.Length)
    {
      ghost var bs := Now();
      hide Moments.Plus;
      m := Moments(0.0, 0.0, 0.0, 0.0, 0.0);
      for i := 0 to masses.Length
        invariant m == MomentsOf(bs, mst.centre, i)
      {
        var b := masses[i].body;
        assert b == bs[i];
        if i != mst.centre && b.Free() {
          m := m.Plus(b.mass, b.at);
        }
      }
    }

    method CentringForce() returns (g: Vec)
      requires mst.centre == Centre(Now(), mst)
      ensures g == Centring(Now(), mst)
    {
      hide MomentsOf, CentreAt;
      g := Vec(0.0, 0.0);
      if mst.cmass.on {
        var m := TotalMoments();
        if m.mass != 0.0 {
          var c := CentreAt(Now(), mst);
          var mixix, mixiy := m.x / m.mass - c.x, m.y / m.mass - c.y;
          var mivix, miviy := m.vx / m.mass, m.vy / m.mass;
          g := Vec(g.x - (mst.cmass.val * mixix + mst.cmass.misc * mivix) / m.mass,
                   g.y - (mst.cmass.val * mixiy + mst.cmass.misc * miviy) / m.mass);
        }
      }
    }

    /** Pull of mass `b` towards the centre point. */
    method PointPull(b: Body) returns (a: Vec)
      requires mst.attract.on
      ensures a == Attraction(lib, Now(), mst, b)
    {
      var c := CentreAt(Now(), mst);
      a := SoftPull(c.x - b.at.x, c.y - b.at.y, b.radius as real + 1.0);
    }

    /** Softened when the mass and the point overlap. */
    method SoftPull(dx: real, dy: real, reach: real) returns (a: Vec)
      ensures a == SoftAttraction(lib, mst.attract, dx, dy, reach)
    {
      var px, py, mag := dx, dy, lib.Sqrt(dx * dx + dy * dy);
      assert mag == Hypot(lib, dx, dy);
      hide Libm.Div, Hypot, Along;
      if mag < reach {
        px, py := Components(lib.Div(mag, reach), px, py);
        mag := reach;
      }
      assert SoftAttraction(lib, mst.attract, dx, dy, reach) == AttractedBy(lib, mst.attract, px, py, mag);
      var fmag := lib.Div(mst.attract.val, lib.Pow(mag, mst.attract.misc));
      px, py := Components(fmag, px, py);
      a := Vec(lib.Div(px, mag), lib.Div(py, mag));
    }

    method Components(force: real, dx: real, dy: real) returns (forcex: real, forcey: real)
      ensures Vec(forcex, forcey) == Along(force, dx, dy)
    {
      forcex := force * dx;
      forcey := force * dy;
    }

    method PushFrom(on: bool, distance: real) returns (push: real)
      ensures push == WallPush(lib, mst, on, distance)
    {
      push := 0.0;
      if on && distance >= 0.0 {
        var dist := if distance < 1.0 then 1.0 else distance;
        push := lib.Div(-mst.wall.val, lib.Pow(dist, mst.wall.misc));
      }
    }

    method WallPushes(b: Body) returns (a: Vec)
      requires mst.wall.on
      ensures a == WallForce(lib, mst, b)
    {
      var r, w, h := b.radius as real, mst.wid as real, mst.ht as real;
      var left := PushFrom(mst.left, b.at.x - r);
      var right := PushFrom(mst.right, w - r - b.at.x);
      var top := PushFrom(mst.top, h - r - b.at.y);
      var bottom := PushFrom(mst.bottom, b.at.y - r);
      a := Vec(0.0 - left + right, top - bottom);
    }

    method AddAccel(i: nat, a: Vec)
      requires i < masses.Length
      modifies masses
      ensures masses[..] == old(masses[..])[i := old(masses[i]).(acc := Sum(old(masses[i].acc), a))]
    {
      masses[i] := masses[i].(acc := Vec(masses[i].acc.x + a.x, masses[i].acc.y + a.y));
    }

    method Drag(a: Vec, visc: real, vx: real, vy: real) returns (d: Vec)
      ensures d == Dragged(a, visc, vx, vy)
    {
      d := Vec(a.x - visc * vx, a.y - visc * vy);
    }

    method BaseOn(i: nat, g: Vec, c: Vec) returns (a: Vec)
      requires i < masses.Length && mst.centre == Centre(Now(), mst)
      requires g == Gravity(lib, mst) && c == Centring(Now(), mst)
      ensures a == Base(lib, Now(), mst, i)
    {
      hide Gravity, Centring, Dragged;
      var v, k := masses[i].body.at, if i != mst.centre then c else Vec(0.0, 0.0);
      a := Drag(Vec(g.x + k.x, g.y + k.y), mst.visc, v.vx, v.vy);
    }

    /** Gravity, centring and drag: sets the accelerations. */
    method BaseForces()
      requires mst.centre == Centre(Now(), mst)
      modifies masses
      ensures OnlyAccels(old(masses[..]), masses[..])
      ensures forall i :: 0 <= i < masses.Length && masses[i].Free() ==> masses[i].acc == Base(lib, old(Now()), mst, i)
    {
      ghost var bs, start := Now(), masses[..];
      var g := Gravity(lib, mst);
      var c := CentringForce();
      hide Base, Gravity, Centring, Centre;
      for i := 0 to masses.Length
        invariant OnlyAccels(start, masses[..])
        invariant forall k :: 0 <= k < i && masses[k].Free() ==> masses[k].acc == Base(lib, bs, mst, k)
      {
        var m := masses[i];
        if m.Free() {
          assert Now() == bs;
          var a := BaseOn(i, g, c);
          masses[i] := m.(acc := a);
        }
      }
    }

    /** Point attraction: adds to the accelerations. */
    method AttractToPoint()
      modifies masses
      ensures OnlyAccels(old(masses[..]), masses[..])
      ensures forall i :: 0 <= i < masses.Length && masses[i].Free() ==>
                masses[i].acc == Sum(old(masses[i].acc), Attraction(lib, old(Now()), mst, masses[i].body))
    {
      ghost var bs, start := Now(), masses[..];
      hide Attraction;
      if mst.attract.on {
        for i := 0 to masses.Length
          invariant OnlyAccels(start, masses[..])
          invariant forall k :: i <= k < masses.Length ==> masses[k] == start[k]
          invariant forall k :: 0 <= k < i && masses[k].Free() ==>
                      masses[k].acc == Sum(start[k].acc, Attraction(lib, bs, mst, masses[k].body))
        {
          if masses[i].Free() {
            assert Now() == bs;
            var a := PointPull(masses[i].body);
            AddAccel(i, a);
          }
        }
      } else {
        NoAttraction(lib, bs, mst);
      }
    }

    /** Wall attraction or repulsion: adds to the accelerations. */
    method RepelFromWalls()
      modifies masses
      ensures OnlyAccels(old(masses[..]), masses[..])
      ensures forall i :: 0 <= i < masses.Length && masses[i].Free() ==>
                masses[i].acc == Sum(old(masses[i].acc), WallForce(lib, mst, masses[i].body))
    {
      ghost var start := masses[..];
      if mst.wall.on {
        hide WallForce;
        for i := 0 to masses.Length
          invariant OnlyAccels(start, masses[..])
          invariant forall k :: i <= k < masses.Length ==> masses[k] == start[k]
          invariant forall k :: 0 <= k < i && masses[k].Free() ==>
                      masses[k].acc == Sum(start[k].acc, WallForce(lib, mst, masses[k].body))
        {
          if masses[i].Free() {
            var a := WallPushes(masses[i].body);
            AddAccel(i, a);
          }
        }
      }
    }

    /** The force of one living spring on its two ends, scattered over the array. */
    method PullEnds(s: Spring)
      requires s.alive && s.m1 < masses.Length && s.m2 < masses.Length
      modifies masses
      ensures OnlyAccels(old(masses[..]), masses[..])
      ensures forall i :: 0 <= i < masses.Length ==>
                masses[i].acc == Sum(old(masses[i].acc), Pull(lib, old(Now()), s, i))
    {
      var p, q := masses[s.m1].body, masses[s.m2].body;
      var dx, dy := p.at.x - q.at.x, p.at.y - q.at.y;
      if dx != 0.0 || dy != 0.0 {
        var force := SpringTension(s, dx, dy, p.at.vx - q.at.vx, p.at.vy - q.at.vy);
        var forcex, forcey := Components(force, dx, dy);
        hide Tension, Along;
        AddAccel(s.m1, Vec(lib.Div(forcex, p.mass), lib.Div(forcey, p.mass)));
        AddAccel(s.m2, Vec(-lib.Div(forcex, q.mass), -lib.Div(forcey, q.mass)));
      }
    }

    method SpringTension(s: Spring, dx: real, dy: real, dvx: real, dvy: real) returns (force: real)
      ensures force == Tension(lib, s, dx, dy, dvx, dvy)
    {
      hide Libm.Div;
      var mag := lib.Sqrt(dx * dx + dy * dy);
      assert mag == Hypot(lib, dx, dy);
      ghost var parting := lib.Div(dvx * dx + dvy * dy, mag);
      force := s.ks * (s.restlen - mag);
      if s.kd != 0.0 {
        var damp := lib.Div(dvx * dx + dvy * dy, mag);
        force := force - s.kd * damp;
      }
      assert force == Hooke(s, mag, parting);
      force := lib.Div(force, mag);
    }

    /** The acceleration of every free mass, from scratch. */
    method AccumulateAccel()
      requires Valid()
      modifies masses, this`mst
      ensures Valid() && mst == old(Forces()).mst
      ensures OnlyAccels(old(masses[..]), masses[..])
      ensures forall i :: 0 <= i < masses.Length && masses[i].Free() ==>
                masses[i].acc == FieldAccel(old(Forces()), old(Now()), i)
    {
      ghost var bs, start, f := Now(), masses[..], Forces();
      if mst.centre >= 0 && !masses[mst.centre].body.alive {
        mst := mst.(centre := -1);
      }
      assert mst == f.mst;
      GlobalAccel();
      SpringAccel(f, bs);
    }

    /** The springs' share of the accelerations. */
    method SpringAccel(ghost f: Field, ghost bs: seq<Body>)
      requires bs == Now() && SpringsFit(bs, springs) && f == Field(lib, springs, mst)
      requires forall i :: 0 <= i < masses.Length && masses[i].Free() ==> masses[i].acc == External(lib, bs, mst, i)
      modifies masses
      ensures Now() == bs && OnlyAccels(old(masses[..]), masses[..])
      ensures forall i :: 0 <= i < masses.Length && masses[i].Free() ==> masses[i].acc == FieldAccel(f, bs, i)
    {
      ghost var start := masses[..];
      hide External, Pull, Sum, Accel;
      NoSpringFelt(f, bs, start);
      for j := 0 to |springs|
        invariant FeltFrom(f, bs, start, masses[..], j)
      {
        hide FeltFrom, OnlyAccels;
        ghost var before := masses[..];
        FeltIsNow(f, bs, start, before, j);
        if springs[j].alive {
          PullEnds(springs[j]);
          SpringFelt(f, bs, start, before, masses[..], j);
        } else {
          SlackFelt(f, bs, start, before, j);
        }
      }
    }

    /** Every global force on every free mass. */
    method GlobalAccel()
      requires mst.centre == Centre(Now(), mst)
      modifies masses
      ensures OnlyAccels(old(masses[..]), masses[..])
      ensures forall i :: 0 <= i < masses.Length && masses[i].Free() ==>
                masses[i].acc == External(lib, old(Now()), mst, i)
    {
      ghost var bs := Now();
      hide Base, Attraction, WallForce, Sum;
      BaseForces();
      assert Now() == bs;
      AttractToPoint();
      assert Now() == bs;
      RepelFromWalls();
    }

    /** The loop ending stage n: keeps the increment and moves to where stage n + 1 looks. */
    method KeepStage(h: real, n: nat)
      requires 1 <= n <= 4
      modifies masses
      ensures Stored(old(masses[..]), masses[..], h, n)
    {
      ghost var start := masses[..];
      hide Increment;
      for i := 0 to masses.Length
        invariant forall k :: i <= k < masses.Length ==> masses[k] == start[k]
        invariant forall k :: 0 <= k < i ==> masses[k] == StoredMass(start[k], h, n)
      {
        var m := masses[i];
        if m.Free() {
          var k := Increment(m.body.at, m.acc, h);
          if n == 1 {
            m := m.(cur := m.body.at, k1 := k);
            m := m.(body := m.body.(at := m.cur.Plus(k, 0.5)));
          } else if n == 2 {
            m := m.(k2 := k, body := m.body.(at := m.cur.Plus(k, 0.5)));
          } else if n == 3 {
            m := m.(k3 := k, body := m.body.(at := m.cur.Plus(k, 1.0)));
          } else {
            m := m.(k4 := k);
          }
          masses[i] := m;
        }
      }
    }

    /** The loop ending a step: the blend of the increments goes to the test state or to
        the bodies themselves. */
    method FindNext(testloc: bool)
      modifies masses
      ensures |old(masses[..])| == masses.Length
      ensures forall i :: 0 <= i < masses.Length ==>
                masses[i] == NextMass(old(masses[i]), testloc)
    {
      ghost var start := masses[..];
      hide Blend;
      for i := 0 to masses.Length
        invariant forall k :: i <= k < masses.Length ==> masses[k] == start[k]
        invariant forall k :: 0 <= k < i ==> masses[k] == NextMass(start[k], testloc)
      {
        var m := masses[i];
        if m.Free() {
          var next := m.cur.Plus(Blend(m.k1, m.k2, m.k3, m.k4), 1.0);
          if testloc {
            masses[i] := m.(test := next);
          } else {
            masses[i] := m.(body := m.body.(at := next));
          }
        }
      }
    }

    /** One stage: accelerations at the current positions, then the increment. */
    method RunStage(h: real, n: nat, ghost f: Field, ghost bs: seq<Body>, ghost start: seq<Mass>)
      requires 1 <= n <= 4 && Valid() && f == Forces()
      requires AfterStage(f, bs, h, start, masses[..], n - 1)
      modifies masses, this`mst
      ensures Valid() && mst == f.mst && f == Forces()
      ensures AfterStage(f, bs, h, start, masses[..], n)
    {
      ghost var before := masses[..];
      assert Now() == Stage(f, bs, h, n);
      AccumulateAccel();
      ghost var middle := masses[..];
      KeepStage(h, n);
      StageDone(f, bs, h, start, before, middle, masses[..], n);
      SameBodiesSameForces(f, bs, h, n);
    }

    /** One Runge-Kutta step: the free masses move by the reference step, or, when only
        testing, the reference step lands in their test state. */
    method RungeKutta(h: real, testloc: bool)
      requires Valid()
      modifies masses, this`mst
      ensures Valid() && mst == old(Forces()).mst && Forces() == old(Forces())
      ensures var next := RK4(old(Forces()), old(Now()), h);
              if testloc then TestedAt(old(masses[..]), masses[..], next)
              else MovedTo(old(masses[..]), masses[..], next)
    {
      ghost var f, bs, start := Forces(), Now(), masses[..];
      RunStage(h, 1, f, bs, start);
      RunStage(h, 2, f, bs, start);
      RunStage(h, 3, f, bs, start);
      RunStage(h, 4, f, bs, start);
      ghost var staged := masses[..];
      FindNext(testloc);
      StepDone(f, bs, h, start, staged, masses[..], testloc);
    }

    /** Every free mass back to the state saved at the start of the frame. */
    method RollBack(ghost bs: seq<Body>)
      requires SavedAs(masses[..], bs)
      modifies masses
      ensures Now() == bs && SavedAs(masses[..], bs) && Kept(masses[..]) == Kept(old(masses[..]))
      ensures forall i :: 0 <= i < masses.Length ==> masses[i].test == old(masses[i].test)
    {
      ghost var start := masses[..];
      for i := 0 to masses.Length
        invariant forall k :: i <= k < masses.Length ==> masses[k] == start[k]
        invariant forall k :: 0 <= k < i ==> masses[k] == start[k].(body := bs[k])
      {
        var m := masses[i];
        if m.Free() {
          masses[i] := m.(body := m.body.(at := m.last));
        }
      }
    }

    /** Two half steps into the test states, then, from the saved state again, a full step. */
    method Trial(ghost f: Field, ghost bs: seq<Body>)
      requires Valid() && f == Forces() && Now() == bs && SavedAs(masses[..], bs)
      modifies masses, this`mst
      ensures Valid() && mst == f.mst && f == Forces()
      ensures SavedAs(masses[..], bs) && Kept(masses[..]) == Kept(old(masses[..]))
      ensures Now() == RK4(f, bs, dt)
      ensures TestStates(masses[..], RK4(f, RK4(f, bs, dt / 2.0), dt / 2.0))
    {
      hide RK4, SavedAs, Kept, TestStates, MovedTo;
      HalfSteps(f, bs);
      ghost var back := masses[..];
      RungeKutta(dt, false);
      MovingKeepsSaved(back, masses[..], RK4(f, bs, dt), bs, RK4(f, RK4(f, bs, dt / 2.0), dt / 2.0));
    }

    method HalfSteps(ghost f: Field, ghost bs: seq<Body>)
      requires Valid() && f == Forces() && Now() == bs && SavedAs(masses[..], bs)
      modifies masses, this`mst
      ensures Valid() && f == Forces()
      ensures Now() == bs && SavedAs(masses[..], bs) && Kept(masses[..]) == Kept(old(masses[..]))
      ensures TestStates(masses[..], RK4(f, RK4(f, bs, dt / 2.0), dt / 2.0))
    {
      hide RK4;
      RungeKutta(dt / 2.0, false);
      ghost var half := RK4(f, bs, dt / 2.0);
      assert Now() == half && SavedAs(masses[..], bs);
      RungeKutta(dt / 2.0, true);
      assert SavedAs(masses[..], bs);
      RollBack(bs);
    }

    method MaxError() returns (maxerr: real)
      ensures IsMaxError(masses[..], maxerr)
    {
      maxerr := 0.00001;
      for i := 0 to masses.Length
        invariant IsMaxError(masses[..i], maxerr)
      {
        var m := masses[i];
        assert masses[..i + 1] == masses[..i] + [m];
        if m.Free() {
          var err := Abs(m.body.at.x - m.test.x) + Abs(m.body.at.y - m.test.y)
                   + Abs(m.body.at.vx - m.test.vx) + Abs(m.body.at.vy - m.test.vy);
          if err > maxerr {
            maxerr := err;
          }
        }
      }
      assert masses[..masses.Length] == masses[..];
    }

    method ClampStep()
      modifies this`dt
      ensures dt == Clamped(old(dt))
    {
      if dt > DT_MAX {
        dt := DT_MAX;
      }
      if dt < DT_MIN {
        dt := DT_MIN;
      }
    }

    /** What a rejected trial does to the step. */
    method ShrinkStep(maxerr: real, ghost restarts: nat)
      requires lib.Good() && maxerr >= 1.0 && DT_MIN < dt <= Shrunk(restarts)
      modifies this`dt
      ensures dt == NextStep(lib, old(dt), maxerr)
      ensures 0.0 < dt <= Shrunk(restarts + 1) && restarts < MAX_RESTARTS
    {
      RestartsAreBounded(dt, restarts);
      ShrinkFactor(lib, maxerr);
      var shrink := lib.Exp(-lib.Log(maxerr) / 4.0);
      RejectionShrinks(dt, shrink, restarts);
      dt := dt * (0.9 * shrink);
    }

    /** One trial: accepted, with the masses a step of size dt from the saved state, or
        rolled back with a smaller step to try. */
    method TrialStep(ghost f: Field, ghost bs: seq<Body>, ghost restarts: nat) returns (accepted: bool, ghost d: real)
      requires Valid() && f == Forces() && Now() == bs && SavedAs(masses[..], bs)
      requires lib.Good() && prec > 0.0 && (restarts == 0 || 0.0 < dt <= Shrunk(restarts))
      modifies masses, this`mst, this`dt
      ensures Valid() && mst == f.mst && f == Forces()
      ensures SavedAs(masses[..], bs) && Kept(masses[..]) == Kept(old(masses[..]))
      ensures d == Clamped(old(dt)) && (accepted <==> AcceptedFrom(f, bs, prec, old(dt)))
      ensures dt == LeftFrom(f, bs, prec, old(dt))
      ensures accepted ==> Accepted(f, bs, Now(), d, prec) && (Rising(lib) ==> dt >= 0.9 * d)
      ensures !accepted ==> Now() == bs && restarts < MAX_RESTARTS && 0.0 < dt <= Shrunk(restarts + 1)
    {
      hide RK4, Libm.Good, SavedAs, Kept, AccurateStep, IsMaxError, TestStates, Shrunk, WorstError;
      ClampStep();
      ShrunkNone();
      d := dt;
      Trial(f, bs);
      var worst := MaxError();
      WorstIsFound(f, bs, masses[..], d, worst);
      var maxerr := worst / prec;
      accepted := true;
      if maxerr < 1.0 {
        SmallErrorIsAccurate(f, bs, d, prec);
        dt := dt * (0.9 * lib.Exp(-lib.Log(maxerr) / 8.0));
      } else if dt > DT_MIN {
        RollBack(bs);
        ShrinkStep(maxerr, restarts);
        accepted := false;
      }
      ErrorIsPositive(worst, prec);
      if accepted && Rising(lib) {
        AcceptanceKeepsNineTenths(lib, d, maxerr);
      }
    }

    /** The search for a step: no trial has left a trace, and the step is where the rejections so
        far have led; or the search is over. */
    ghost predicate Searching(f: Field, bs: seq<Body>, start: seq<Mass>, first: real, restarts: nat, done: bool,
                              d: real)
      reads this, masses
    {
      && Valid() && f == Forces() && lib.Good() && Adapting(f, bs, prec, first, restarts, dt, done, d)
      && SavedAs(masses[..], bs) && Kept(masses[..]) == Kept(start) && restarts <= MAX_RESTARTS
      && if done then mst == f.mst && Accepted(f, bs, Now(), d, prec) && (Rising(lib) ==> dt >= 0.9 * d)
         else Now() == bs && (restarts == 0 || 0.0 < dt <= Shrunk(restarts))
    }

    method NextTrial(ghost f: Field, ghost bs: seq<Body>, ghost start: seq<Mass>, ghost first: real,
                     ghost before: nat, ghost d0: real)
      returns (accepted: bool, ghost d: real, ghost restarts: nat)
      requires Searching(f, bs, start, first, before, false, d0)
      modifies masses, this`mst, this`dt
      ensures Searching(f, bs, start, first, restarts, accepted, d)
      ensures restarts == if accepted then before else before + 1
    {
      hide RK4, Libm.Good, SavedAs, Kept, Accepted, Shrunk, Clamped, AcceptedFrom, LeftFrom, AccurateStep, Centre;
      ghost var tried := dt;
      accepted, d := TrialStep(f, bs, before);
      hide Adapting;
      TrialCounted(f, bs, prec, first, before, tried, d0, d);
      restarts := if accepted then before else before + 1;
    }

    /** Retries with ever smaller steps until the error is small enough or the step minimal.
        The masses end exactly one reference step of the accepted size d from the saved
        state: no trial leaves a trace. */
    method AdaptiveRungeKutta() returns (ghost d: real, ghost restarts: nat)
      requires Valid() && lib.Good() && prec > 0.0 && SavedAs(masses[..], Now())
      modifies masses, this`mst, this`dt
      ensures Valid() && mst == old(Forces()).mst && Forces() == old(Forces())
      ensures Accepted(old(Forces()), old(Now()), Now(), d, prec) && restarts <= MAX_RESTARTS
      ensures Adapted(old(Forces()), old(Now()), prec, old(dt), restarts, d, dt) && (Rising(lib) ==> dt >= 0.9 * d)
      ensures SavedAs(masses[..], old(Now())) && Kept(masses[..]) == Kept(old(masses[..]))
    {
      ghost var f, bs, start, first := Forces(), Now(), masses[..], dt;
      restarts, d := 0, DT_MIN;
      NoneRejected(f, bs, prec, first, d);
      hide RK4, SavedAs, Kept, Accepted, Adapted, Rejected, StepAfter;
      var accepted := false;
      while !accepted
        invariant Searching(f, bs, start, first, restarts, accepted, d) && restarts <= MAX_RESTARTS
        decreases MAX_RESTARTS - restarts, !accepted
      {
        hide Searching;
        accepted, d, restarts := NextTrial(f, bs, start, first, restarts, d);
        SearchIsBounded(f, bs, start, first, restarts, accepted, d);
      }
    }

    lemma {:induction false} SearchIsBounded(f: Field, bs: seq<Body>, start: seq<Mass>, first: real, restarts: nat,
                                             done: bool, d: real)
      requires Searching(f, bs, start, first, restarts, done, d)
      ensures restarts <= MAX_RESTARTS
    {
    }

    /** Bounce off the low or the high wall of one axis. */
    method BounceOff(low: bool, high: bool, was: real, pos: real, v: real, u: real, r: real, size: real,
                     elastic: real, slow: real)
      returns (pos': real, v': real, u': real)
      ensures Walls.Axis(pos', v', u') == Walls.Bounce(low, high, was, Walls.Axis(pos, v, u), r, size, elastic, slow)
    {
      pos', v', u' := pos, v, u;
      if low && pos < r && was >= r {
        pos' := r;
        if v < 0.0 {
          v', u' := -v * elastic, u * elastic;
          if v' > 0.0 {
            v' := v' - slow;
            if v' < 0.0 {
              v', u' := 0.0, 0.0;
            }
          }
        }
      } else if high && pos > size - r && was <= size - r {
        pos' := size - r;
        if v > 0.0 {
          v', u' := -v * elastic, u * elastic;
          if v' < 0.0 {
            v' := v' + slow;
            if v' > 0.0 {
              v', u' := 0.0, 0.0;
            }
          }
        }
      }
    }

    method IsStuck(r: real, hold: real, was: Phase, at: Phase) returns (stuck: bool)
      ensures stuck == Walls.Stuck(mst, r, hold, was, at)
    {
      stuck := false;
      if was.vx == 0.0 && was.vy == 0.0 {
        if (mst.left && Abs(was.x - r) < 0.5) || (mst.right && Abs(was.x - mst.wid as real + r) < 0.5) {
          stuck := Abs(at.vx) < hold;
        } else if (mst.bottom && Abs(was.y - r) < 0.5)
               || (mst.top && Abs(was.y - mst.ht as real + r) < 0.5) {
          stuck := Abs(at.vy) < hold;
        }
      }
    }

    /** The walls' part of a frame. */
    method MeetWalls(stickMag: real)
      modifies masses
      ensures MetWalls(lib, mst, stickMag, stick, old(masses[..]), masses[..])
    {
      ghost var start := masses[..];
      hide Walls.Collide, Walls.Bounce, Walls.Stuck, Libm.Div;
      for i := 0 to masses.Length
        invariant forall k :: i <= k < masses.Length ==> masses[k] == start[k]
        invariant forall k :: 0 <= k < i ==> masses[k] == start[k].(body := Walled(lib, mst, stickMag, stick, start[k]))
      {
        var m := masses[i];
        if m.Free() {
          var p := MeetWall(m, stickMag);
          masses[i] := m.(body := m.body.(at := p));
        }
      }
    }

    method MeetWall(m: Mass, stickMag: real) returns (p: Phase)
      ensures p == Walls.Collide(mst, m.body.radius as real, m.elastic, lib.Div(stick, m.body.mass),
                                 lib.Div(stickMag, m.body.mass), m.last, m.body.at)
    {
      hide Walls.Bounce, Walls.Stuck, Libm.Div;
      var r := m.body.radius as real;
      p := m.body.at;
      var stuck := IsStuck(r, lib.Div(stickMag, m.body.mass), m.last, p);
      if stuck {
        p := Phase(m.last.x, m.last.y, 0.0, 0.0);
      } else {
        var slow := lib.Div(stick, m.body.mass);
        var x, vx, vy := BounceOff(mst.left, mst.right, m.last.x, p.x, p.vx, p.vy, r, mst.wid as real, m.elastic, slow);
        var y, wy, wx := BounceOff(mst.bottom, mst.top, m.last.y, p.y, vy, vx, r, mst.ht as real, m.elastic, slow);
        p := Phase(x, y, wx, wy);
      }
    }

    /** Saves the state of the free masses at the start of a frame. */
    method SaveStates()
      modifies masses
      ensures Now() == old(Now()) && SavedAs(masses[..], Now())
      ensures Elastics(masses[..]) == Elastics(old(masses[..]))
    {
      ghost var start := masses[..];
      for i := 0 to masses.Length
        invariant forall k :: i <= k < masses.Length ==> masses[k] == start[k]
        invariant forall k :: 0 <= k < i ==>
                    masses[k] == start[k].(last := if start[k].Free() then start[k].body.at else start[k].last)
      {
        var m := masses[i];
        if m.Free() {
          masses[i] := m.(last := m.body.at);
        }
      }
    }

    method AnySpring() returns (any: bool)
      ensures any <==> exists j :: 0 <= j < |springs| && springs[j].alive
    {
      any := false;
      for j := 0 to |springs|
        invariant !any && forall k :: 0 <= k < j ==> !springs[k].alive
      {
        if springs[j].alive {
          return true;
        }
      }
    }

    /** The step of a frame, fixed or adaptive. */
    method StepFrame() returns (ghost d: real)
      requires Valid() && SavedAs(masses[..], Now()) && (adaptive ==> lib.Good() && prec > 0.0)
      modifies masses, this`mst, this`dt
      ensures Valid() && mst == old(Forces()).mst && Forces() == old(Forces())
      ensures Now() == RK4(old(Forces()), old(Now()), d)
      ensures SavedAs(masses[..], old(Now())) && Kept(masses[..]) == Kept(old(masses[..]))
      ensures IsFrameStep(old(Forces()), old(Now()), adaptive, prec, old(dt), dt, d)
    {
      hide RK4, AccurateStep;
      if adaptive {
        var any := AnySpring();
        if any {
          ghost var restarts;
          d, restarts := AdaptiveRungeKutta();
        } else {
          dt := DEF_TSTEP;
          d := dt;
          RungeKutta(dt, false);
        }
      } else {
        d := dt;
        RungeKutta(dt, false);
      }
    }

    /** One frame: a step of the masses, then the walls. */
    method AnimateObj() returns (ghost d: real)
      requires Valid() && (adaptive ==> lib.Good() && prec > 0.0)
      modifies masses, this`mst, this`dt
      ensures Valid() && mst == old(Forces()).mst
      ensures Now() == WalledBodies(lib, mst, dt, stick, old(masses[..]), RK4(old(Forces()), old(Now()), d))
      ensures IsFrameStep(old(Forces()), old(Now()), adaptive, prec, old(dt), dt, d)
      ensures Elastics(masses[..]) == Elastics(old(masses[..]))
    {
      ghost var start, bs, f := masses[..], Now(), Forces();
      SaveStates();
      ghost var saved := masses[..];
      d := StepFrame();
      ghost var stepped := masses[..];
      hide RK4, MetWalls, SavedAs, StickMag, Elastics, Kept, IsFrameStep;
      MeetWalls(StickMag(dt, stick));
      FrameDone(lib, mst, dt, stick, start, saved, stepped, masses[..], RK4(f, bs, d));
    }

    /** Any number of frames without edits; ds are the sizes of their steps.  Inside four walls
        every free mass stays inside.  Without walls, and with springs between free masses, the
        total momentum never changes if there are no global forces and no drag, and follows the
        series of its equation of motion if there are gravity and drag only. */
    method RunFrames(n: nat) returns (ghost ds: seq<real>)
      requires Valid() && (adaptive ==> lib.Good() && prec > 0.0)
      modifies masses, this`mst, this`dt
      ensures Valid() && mst == old(mst).(centre := mst.centre)
      ensures |ds| == n && StepsFit(adaptive, old(dt), ds) && FixedStay(old(Now()), Now())
      ensures Walls.WalledIn(mst) && AllInside(mst, old(Now())) ==> AllInside(mst, Now())
      ensures Unwalled(mst) && Momentum.Quiet(mst) && Momentum.JoinsFree(old(Now()), springs) ==>
                Momentum.Momentum(Now()) == Momentum.Momentum(old(Now()))
      ensures Unwalled(mst) && Gliding.Glides(mst) && Momentum.JoinsFree(old(Now()), springs) ==>
                Momentum.Momentum(Now()) == GlidedOver(lib, mst, old(Now()), ds)
    {
      ghost var first := Now();
      ds := [];
      RunBegins(lib, mst, springs, first);
      for i := 0 to n
        invariant Valid() && mst == old(mst).(centre := mst.centre)
        invariant |ds| == i && StepsFit(adaptive, old(dt), ds) && (!adaptive ==> dt == old(dt))
        invariant RunSoFar(lib, mst, springs, first, Now(), ds)
      {
        hide RunSoFar, Valid;
        ghost var d := NextFrame(first, ds);
        ds := ds + [d];
      }
    }

    /** One frame of a run. */
    method NextFrame(ghost first: seq<Body>, ghost ds: seq<real>) returns (ghost d: real)
      requires Valid() && (adaptive ==> lib.Good() && prec > 0.0)
      requires RunSoFar(lib, mst, springs, first, Now(), ds)
      modifies masses, this`mst, this`dt
      ensures Valid() && mst == old(mst).(centre := mst.centre)
      ensures RunSoFar(lib, mst, springs, first, Now(), ds + [d])
      ensures if adaptive then DT_MIN <= d <= DT_MAX else d == dt == old(dt)
    {
      ghost var f, start, bs, before := Forces(), masses[..], Now(), mst;
      hide RunSoFar, AccurateStep, RK4, WalledBodies, Elastics;
      SettingsCarryOver(lib, before, f.mst, springs, first, bs, ds);
      d := AnimateObj();
      RunGoesOn(f, start, first, bs, ds, d, dt, stick);
    }
  }

  /** Steps of the size set, or of sizes within the limits. */
  ghost predicate StepsFit(adaptive: bool, dt: real, ds: seq<real>) {
    forall i :: 0 <= i < |ds| ==> if adaptive then DT_MIN <= ds[i] <= DT_MAX else ds[i] == dt
  }

  /** What a run of frames with steps of sizes ds guarantees. */
  ghost predicate RunSoFar(lib: Libm, mst: Settings, springs: seq<Spring>, first: seq<Body>, bs: seq<Body>,
                           ds: seq<real>)
  {
    && FixedStay(first, bs)
    && (Walls.WalledIn(mst) && AllInside(mst, first) ==> AllInside(mst, bs))
    && (Loose(mst) && Momentum.JoinsFree(first, springs) ==> Drifted(lib, mst, springs, first, bs, ds))
  }

  /** Bodies that are not free stay as they are, and no body changes but its place and motion. */
  ghost predicate FixedStay(first: seq<Body>, bs: seq<Body>) {
    && |bs| == |first|
    && forall i :: 0 <= i < |bs| ==> bs[i] == if first[i].Free() then first[i].(at := bs[i].at) else first[i]
  }

  lemma {:induction false} RunBegins(lib: Libm, mst: Settings, springs: seq<Spring>, first: seq<Body>)
    ensures RunSoFar(lib, mst, springs, first, first, [])
  {
    hide Momentum.JoinsFree, Momentum.Momentum, Gliding.Mass;
  }

  lemma {:induction false} RunGoesOn(f: Field, start: seq<Mass>, first: seq<Body>, bs: seq<Body>, ds: seq<real>,
                                     d: real, dt: real, stick: real)
    requires bs == Bodies(start) && SpringsFit(bs, f.springs)
    requires RunSoFar(f.lib, f.mst, f.springs, first, bs, ds)
    ensures var next := WalledBodies(f.lib, f.mst, dt, stick, start, RK4(f, bs, d));
            RunSoFar(f.lib, f.mst, f.springs, first, next, ds + [d])
  {
    hide RK4, AllInside, Drifted, WalledBodies, Momentum.JoinsFree, FixedStay;
    FrameKeepsFixed(f, start, first, bs, d, dt, stick);
    FrameConfinesAll(f, start, bs, d, dt, stick);
    if Loose(f.mst) && Momentum.JoinsFree(first, f.springs) {
      FrameDrifts(f, start, first, bs, ds, d, dt, stick);
    }
  }

  lemma {:induction false} FrameKeepsFixed(f: Field, start: seq<Mass>, first: seq<Body>, bs: seq<Body>, d: real,
                                           dt: real, stick: real)
    requires bs == Bodies(start) && SpringsFit(bs, f.springs) && FixedStay(first, bs)
    ensures FixedStay(first, WalledBodies(f.lib, f.mst, dt, stick, start, RK4(f, bs, d)))
  {
    var next := RK4(f, bs, d);
    var after := WalledBodies(f.lib, f.mst, dt, stick, start, next);
    hide Walls.Collide, RK4, Libm.Div;
    forall i | 0 <= i < |bs| ensures after[i] == if first[i].Free() then first[i].(at := after[i].at) else first[i] {
      StepKeepsBody(f, bs, d, i);
    }
  }

  lemma {:induction false} StepKeepsBody(f: Field, bs: seq<Body>, d: real, i: nat)
    requires SpringsFit(bs, f.springs) && i < |bs|
    ensures RK4(f, bs, d)[i] == if bs[i].Free() then bs[i].(at := RK4(f, bs, d)[i].at) else bs[i]
  {
    hide Increments, Blend;
  }

  /** No walls, and no global force but gravity. */
  predicate Loose(mst: Settings) {
    Unwalled(mst) && Gliding.Glides(mst)
  }

  /** The momentum after steps of the given sizes. */
  function GlidedOver(lib: Libm, mst: Settings, bs: seq<Body>, ds: seq<real>): Vec {
    if ds == [] then Momentum.Momentum(bs)
    else Gliding.Glided(Gravity(lib, mst), Gliding.Mass(bs), mst.visc, GlidedOver(lib, mst, bs, ds[..|ds| - 1]),
                        ds[|ds| - 1])
  }

  /** What frames without walls make of the masses as a whole. */
  ghost predicate Drifted(lib: Libm, mst: Settings, springs: seq<Spring>, first: seq<Body>, bs: seq<Body>,
                          ds: seq<real>)
  {
    && Momentum.JoinsFree(bs, springs) && Gliding.Mass(bs) == Gliding.Mass(first)
    && Momentum.Momentum(bs) == GlidedOver(lib, mst, first, ds)
    && (Momentum.Quiet(mst) ==> Momentum.Momentum(bs) == Momentum.Momentum(first))
  }

  /** The centre mass makes no difference to any of this. */
  lemma {:induction false} SettingsCarryOver(lib: Libm, mst: Settings, mst': Settings, springs: seq<Spring>,
                                             first: seq<Body>, bs: seq<Body>, ds: seq<real>)
    requires mst' == mst.(centre := mst'.centre) && RunSoFar(lib, mst, springs, first, bs, ds)
    ensures RunSoFar(lib, mst', springs, first, bs, ds)
  {
    SameGliding(lib, mst, mst', first, ds);
    hide Momentum.JoinsFree, Momentum.Momentum, Gliding.Mass, GlidedOver;
  }

  lemma {:induction false} SameGliding(lib: Libm, mst: Settings, mst': Settings, bs: seq<Body>, ds: seq<real>)
    requires mst' == mst.(centre := mst'.centre)
    ensures GlidedOver(lib, mst, bs, ds) == GlidedOver(lib, mst', bs, ds)
  {
    assert Gravity(lib, mst) == Gravity(lib, mst');
    if ds != [] { SameGliding(lib, mst, mst', bs, ds[..|ds| - 1]); }
  }

  ghost predicate AllInside(mst: Settings, bs: seq<Body>) {
    forall i :: 0 <= i < |bs| && bs[i].Free() ==> Walls.Inside(mst, bs[i].radius as real, bs[i].at)
  }

  predicate Unwalled(mst: Settings) {
    !mst.left && !mst.right && !mst.top && !mst.bottom
  }

  lemma {:induction false} StepIsSameBodies(f: Field, bs: seq<Body>, h: real)
    requires SpringsFit(bs, f.springs)
    ensures Momentum.SameBodies(bs, RK4(f, bs, h))
  {
    hide Increments, Blend;
  }

  lemma {:induction false} FrameConfines(lib: Libm, mst: Settings, dt: real, stick: real, start: seq<Mass>,
                                         next: seq<Body>)
    requires Walls.WalledIn(mst) && AllInside(mst, Bodies(start)) && Momentum.SameBodies(Bodies(start), next)
    ensures AllInside(mst, WalledBodies(lib, mst, dt, stick, start, next))
  {
    var bs, done := Bodies(start), WalledBodies(lib, mst, dt, stick, start, next);
    hide Walls.Collide, Walls.Inside, Libm.Div;
    forall i | 0 <= i < |done| && done[i].Free()
      ensures Walls.Inside(mst, done[i].radius as real, done[i].at)
    {
      var b := next[i];
      assert b == bs[i].(at := b.at);
      Walls.WallsConfine(mst, b.radius as real, start[i].elastic, lib.Div(stick, b.mass),
                         lib.Div(StickMag(dt, stick), b.mass), bs[i].at, b.at);
    }
  }

  lemma {:induction false} FrameWithoutWalls(lib: Libm, mst: Settings, dt: real, stick: real, start: seq<Mass>,
                                             next: seq<Body>)
    requires Unwalled(mst) && |start| == |next|
    ensures WalledBodies(lib, mst, dt, stick, start, next) == next
  {
    hide Libm.Div;
  }

  lemma {:induction false} FrameConfinesAll(f: Field, start: seq<Mass>, bs: seq<Body>, d: real, dt: real, stick: real)
    requires bs == Bodies(start) && SpringsFit(bs, f.springs)
    ensures var next := WalledBodies(f.lib, f.mst, dt, stick, start, RK4(f, bs, d));
            Walls.WalledIn(f.mst) && AllInside(f.mst, bs) ==> AllInside(f.mst, next)
  {
    StepIsSameBodies(f, bs, d);
    hide RK4, AllInside;
    if Walls.WalledIn(f.mst) && AllInside(f.mst, bs) {
      FrameConfines(f.lib, f.mst, dt, stick, start, RK4(f, bs, d));
    }
  }

  lemma {:induction false} SameBodiesSameMass(bs: seq<Body>, cs: seq<Body>, ss: seq<Spring>)
    requires Momentum.SameBodies(bs, cs) && Momentum.JoinsFree(bs, ss)
    ensures Momentum.JoinsFree(cs, ss) && Gliding.Mass(cs) == Gliding.Mass(bs)
  {
    assert Momentum.Weights(cs) == Momentum.Weights(bs);
  }

  /** One frame more. */
  lemma {:induction false} FrameDrifts(f: Field, start: seq<Mass>, first: seq<Body>, bs: seq<Body>, ds: seq<real>,
                                       d: real, dt: real, stick: real)
    requires bs == Bodies(start) && SpringsFit(bs, f.springs) && Loose(f.mst)
    requires Drifted(f.lib, f.mst, f.springs, first, bs, ds)
    ensures var next := WalledBodies(f.lib, f.mst, dt, stick, start, RK4(f, bs, d));
            Drifted(f.lib, f.mst, f.springs, first, next, ds + [d])
  {
    var next := RK4(f, bs, d);
    StepIsSameBodies(f, bs, d);
    SameBodiesSameMass(bs, next, f.springs);
    FrameWithoutWalls(f.lib, f.mst, dt, stick, start, next);
    Gliding.MomentumFollowsSeries(f, bs, d);
    if Momentum.Quiet(f.mst) { Momentum.StepKeepsMomentum(f, bs, d); }
    assert (ds + [d])[..|ds|] == ds;
    hide RK4, Momentum.JoinsFree, Momentum.Momentum, Gliding.Mass, Gliding.Glided, Gravity, WalledBodies;
  }

  lemma {:induction false} MovingKeepsSaved(start: seq<Mass>, ms: seq<Mass>, next: seq<Body>, bs: seq<Body>,
                                            tests: seq<Body>)
    requires MovedTo(start, ms, next) && SavedAs(start, bs) && TestStates(start, tests)
    ensures SavedAs(ms, bs) && Kept(ms) == Kept(start) && Bodies(ms) == next && TestStates(ms, tests)
  {
  }

  /** The size d of a frame's step: the one set, when fixed; the default, when no spring lives;
      else a legal one, minimal or accurate to the precision. */
  ghost predicate IsFrameStep(f: Field, bs: seq<Body>, adaptive: bool, prec: real, before: real, after: real, d: real)
    requires SpringsFit(bs, f.springs)
  {
    if !adaptive then d == after == before
    else if forall j :: 0 <= j < |f.springs| ==> !f.springs[j].alive then d == after == DEF_TSTEP
    else
      && DT_MIN <= d <= DT_MAX && (d == DT_MIN || AccurateStep(f, bs, d, prec))
      && prec > 0.0 && exists n: nat :: n <= MAX_RESTARTS && Adapted(f, bs, prec, before, n, d, after)
  }

  /** `next` is one reference step of a legal size d, minimal or accurate. */
  ghost predicate Accepted(f: Field, bs: seq<Body>, next: seq<Body>, d: real, prec: real)
    requires SpringsFit(bs, f.springs)
  {
    DT_MIN <= d <= DT_MAX && next == RK4(f, bs, d) && (d == DT_MIN || AccurateStep(f, bs, d, prec))
  }

  /** A step of size d agrees with two half steps to within the precision, for every free mass. */
  ghost predicate AccurateStep(f: Field, bs: seq<Body>, d: real, prec: real)
    requires SpringsFit(bs, f.springs)
  {
    var full, halves := RK4(f, bs, d), RK4(f, RK4(f, bs, d / 2.0), d / 2.0);
    forall i :: 0 <= i < |bs| && bs[i].Free() ==> Distance(full[i].at, halves[i].at) < prec
  }

  /** The largest distance of the first n free masses, but at least 0.00001. */
  function WorstOf(bs: seq<Body>, full: seq<Body>, halves: seq<Body>, n: nat): real
    requires n <= |bs| == |full| == |halves|
  {
    if n <= 0 then 0.00001
    else
      var w, e := WorstOf(bs, full, halves, n - 1), Distance(full[n - 1].at, halves[n - 1].at);
      if bs[n - 1].Free() && e > w then e else w
  }

  ghost predicate IsWorst(bs: seq<Body>, full: seq<Body>, halves: seq<Body>, n: nat, worst: real)
    requires n <= |bs| == |full| == |halves|
  {
    && worst >= 0.00001
    && (forall i :: 0 <= i < n && bs[i].Free() ==> Distance(full[i].at, halves[i].at) <= worst)
    && (worst == 0.00001
        || exists i :: 0 <= i < n && bs[i].Free() && Distance(full[i].at, halves[i].at) == worst)
  }

  /** It is the largest, and there is only one. */
  lemma {:induction false} WorstIsLargest(bs: seq<Body>, full: seq<Body>, halves: seq<Body>, n: nat)
    requires n <= |bs| == |full| == |halves|
    ensures IsWorst(bs, full, halves, n, WorstOf(bs, full, halves, n))
  {
    hide Distance;
    if n > 0 { WorstIsLargest(bs, full, halves, n - 1); }
  }

  lemma {:induction false} WorstIsUnique(bs: seq<Body>, full: seq<Body>, halves: seq<Body>, n: nat, worst: real)
    requires n <= |bs| == |full| == |halves| && IsWorst(bs, full, halves, n, worst)
    ensures worst == WorstOf(bs, full, halves, n)
  {
    WorstIsLargest(bs, full, halves, n);
    hide Distance, WorstOf;
  }

  /** How far a step of size d and two half steps are apart at worst. */
  function WorstError(f: Field, bs: seq<Body>, d: real): real
    requires SpringsFit(bs, f.springs)
  {
    WorstOf(bs, RK4(f, bs, d), RK4(f, RK4(f, bs, d / 2.0), d / 2.0), |bs|)
  }

  lemma {:induction false} WorstIsFound(f: Field, bs: seq<Body>, ms: seq<Mass>, d: real, worst: real)
    requires SpringsFit(bs, f.springs) && Bodies(ms) == RK4(f, bs, d) && SavedAs(ms, bs)
    requires TestStates(ms, RK4(f, RK4(f, bs, d / 2.0), d / 2.0)) && IsMaxError(ms, worst)
    ensures worst == WorstError(f, bs, d) > 0.0
  {
    var full, halves := RK4(f, bs, d), RK4(f, RK4(f, bs, d / 2.0), d / 2.0);
    hide RK4, Distance, WorstOf;
    forall i | 0 <= i < |bs|
      ensures ms[i].Free() == bs[i].Free() && ms[i].body == full[i]
      ensures bs[i].Free() ==> ms[i].test == halves[i].at
    {
      assert Bodies(ms)[i] == ms[i].body;
    }
    assert IsWorst(bs, full, halves, |bs|, worst);
    WorstIsUnique(bs, full, halves, |bs|, worst);
  }

  lemma {:induction false} SmallErrorIsAccurate(f: Field, bs: seq<Body>, d: real, prec: real)
    requires SpringsFit(bs, f.springs) && prec > 0.0 && WorstError(f, bs, d) / prec < 1.0
    ensures AccurateStep(f, bs, d, prec)
  {
    var full, halves := RK4(f, bs, d), RK4(f, RK4(f, bs, d / 2.0), d / 2.0);
    BelowPrecision(WorstError(f, bs, d), prec);
    hide RK4, Distance, WorstOf;
    WorstIsLargest(bs, full, halves, |bs|);
  }

  // ---------------------------------------------------------------------------
  // How the step adapts
  // ---------------------------------------------------------------------------

  function Clamped(dt: real): (d: real)
    ensures DT_MIN <= d <= DT_MAX && (d == DT_MIN || d <= dt)
  {
    if dt > DT_MAX then DT_MAX else if dt < DT_MIN then DT_MIN else dt
  }

  /** The step to take or to try after one of size d with error err. */
  function NextStep(lib: Libm, d: real, err: real): real {
    if err < 1.0 then d * (0.9 * lib.Exp(-lib.Log(err) / 8.0))
    else if d > DT_MIN then d * (0.9 * lib.Exp(-lib.Log(err) / 4.0))
    else d
  }

  /** A trial from step t, of its clamped size, is accepted when that is minimal or the worst
      error is below the precision; what step it leaves. */
  predicate AcceptedFrom(f: Field, bs: seq<Body>, prec: real, t: real)
    requires SpringsFit(bs, f.springs) && prec > 0.0
  {
    WorstError(f, bs, Clamped(t)) / prec < 1.0 || Clamped(t) == DT_MIN
  }

  function LeftFrom(f: Field, bs: seq<Body>, prec: real, t: real): real
    requires SpringsFit(bs, f.springs) && prec > 0.0
  {
    NextStep(f.lib, Clamped(t), WorstError(f, bs, Clamped(t)) / prec)
  }

  /** The step that n trials from step t leave. */
  function StepAfter(f: Field, bs: seq<Body>, prec: real, t: real, n: nat): real
    requires SpringsFit(bs, f.springs) && prec > 0.0
  {
    if n <= 0 then t else LeftFrom(f, bs, prec, StepAfter(f, bs, prec, t, n - 1))
  }

  /** The first n trials from step t are rejected. */
  ghost predicate Rejected(f: Field, bs: seq<Body>, prec: real, t: real, n: nat)
    requires SpringsFit(bs, f.springs) && prec > 0.0
  {
    forall k: nat :: k < n ==> !AcceptedFrom(f, bs, prec, StepAfter(f, bs, prec, t, k))
  }

  /** The next one, of size d, is accepted, and leaves the step `next`. */
  ghost predicate Adapted(f: Field, bs: seq<Body>, prec: real, t: real, n: nat, d: real, next: real)
    requires SpringsFit(bs, f.springs) && prec > 0.0
  {
    && Rejected(f, bs, prec, t, n) && AcceptedFrom(f, bs, prec, StepAfter(f, bs, prec, t, n))
    && d == Clamped(StepAfter(f, bs, prec, t, n)) && next == StepAfter(f, bs, prec, t, n + 1)
  }

  /** After n rejections, with the step at u: still trying, or done with a step of size d. */
  ghost predicate Adapting(f: Field, bs: seq<Body>, prec: real, t: real, n: nat, u: real, done: bool, d: real) {
    && SpringsFit(bs, f.springs) && prec > 0.0
    && if done then Adapted(f, bs, prec, t, n, d, u)
       else Rejected(f, bs, prec, t, n) && u == StepAfter(f, bs, prec, t, n)
  }

  lemma {:induction false} NoneRejected(f: Field, bs: seq<Body>, prec: real, t: real, d: real)
    requires SpringsFit(bs, f.springs) && prec > 0.0
    ensures Adapting(f, bs, prec, t, 0, t, false, d)
  {
    hide AcceptedFrom, LeftFrom;
  }

  lemma {:induction false} TrialCounted(f: Field, bs: seq<Body>, prec: real, t: real, n: nat, u: real,
                                        before: real, d: real)
    requires SpringsFit(bs, f.springs) && prec > 0.0 && Adapting(f, bs, prec, t, n, u, false, before)
    requires d == Clamped(u)
    ensures var accepted := AcceptedFrom(f, bs, prec, u);
            Adapting(f, bs, prec, t, if accepted then n else n + 1, LeftFrom(f, bs, prec, u), accepted, d)
  {
    hide AcceptedFrom, LeftFrom, Clamped;
  }

  /** The number of trials, the size of the step and what it leaves are determined by the step
      before, the positions and the precision. */
  lemma {:induction false} AdaptationIsDetermined(f: Field, bs: seq<Body>, prec: real, t: real, n: nat, d: real,
                                                  next: real, n': nat, d': real, next': real)
    requires SpringsFit(bs, f.springs) && prec > 0.0
    requires Adapted(f, bs, prec, t, n, d, next) && Adapted(f, bs, prec, t, n', d', next')
    ensures n == n' && d == d' && next == next'
  {
    hide AcceptedFrom, StepAfter, Clamped;
  }

  /** exp and log on their other sides. */
  ghost predicate Rising(lib: Libm) {
    && (forall t: real :: 0.0 < t <= 1.0 ==> lib.Log(t) <= 0.0)
    && (forall t: real :: t >= 0.0 ==> lib.Exp(t) >= 1.0)
  }

  /** An accepted step leaves at least nine tenths of its size. */
  lemma {:induction false} AcceptanceKeepsNineTenths(lib: Libm, d: real, err: real)
    requires Rising(lib) && err > 0.0 && d >= DT_MIN && (err < 1.0 || d == DT_MIN)
    ensures NextStep(lib, d, err) >= 0.9 * d
  {
    if err < 1.0 {
      assert lib.Log(err) <= 0.0;
      var x := -lib.Log(err) / 8.0;
      assert lib.Exp(x) >= 1.0;
      AtLeast(d, 0.9 * lib.Exp(x), 0.9);
    }
  }

  lemma {:induction false} ErrorIsPositive(worst: real, prec: real)
    requires worst > 0.0 && prec > 0.0
    ensures worst / prec > 0.0
  {
  }

  lemma {:induction false} AtLeast(d: real, a: real, b: real)
    requires d > 0.0 && a >= b
    ensures d * a >= b * d
  {
  }

  lemma {:induction false} BelowPrecision(worst: real, prec: real)
    requires prec > 0.0 && worst / prec < 1.0
    ensures worst < prec
  {
    assert worst == (worst / prec) * prec;
  }

  lemma {:induction false} ShrinkFactor(lib: Libm, maxerr: real)
    requires lib.Good() && maxerr >= 1.0
    ensures 0.0 < lib.Exp(-lib.Log(maxerr) / 4.0) <= 1.0
  {
    assert -lib.Log(maxerr) / 4.0 <= 0.0;
  }

  ghost predicate MetWalls(lib: Libm, mst: Settings, stickMag: real, stick: real, before: seq<Mass>, after: seq<Mass>) {
    && |before| == |after|
    && forall i :: 0 <= i < |after| ==> after[i] == before[i].(body := Walled(lib, mst, stickMag, stick, before[i]))
  }

  lemma {:induction false} FrameDone(lib: Libm, mst: Settings, dt: real, stick: real,
                  start: seq<Mass>, saved: seq<Mass>, stepped: seq<Mass>, after: seq<Mass>, next: seq<Body>)
    requires MetWalls(lib, mst, StickMag(dt, stick), stick, stepped, after)
    requires Bodies(stepped) == next && SavedAs(stepped, Bodies(start))
    requires Elastics(saved) == Elastics(start) && Kept(stepped) == Kept(saved)
    ensures Elastics(after) == Elastics(start)
    ensures Bodies(after) == WalledBodies(lib, mst, dt, stick, start, next)
  {
    var stickMag := StickMag(dt, stick);
    hide Walls.Collide;
    forall i | 0 <= i < |after|
      ensures after[i].elastic == start[i].elastic
      ensures after[i].body == Walled(lib, mst, stickMag, stick, start[i].(body := next[i], last := start[i].body.at))
    {
      assert Kept(stepped)[i] == (stepped[i].elastic, stepped[i].last) && Kept(saved)[i].0 == saved[i].elastic;
      assert Elastics(saved)[i] == saved[i].elastic && Elastics(start)[i] == start[i].elastic;
      assert next[i] == stepped[i].body;
    }
  }

  /** The speed a wall holds a unit mass against. */
  function StickMag(dt: real, stick: real): real {
    dt * stick
  }

  /** A mass after the walls. */
  function Walled(lib: Libm, mst: Settings, stickMag: real, stick: real, m: Mass): Body {
    if !m.Free() then m.body
    else
      m.body.(at := Walls.Collide(mst, m.body.radius as real, m.elastic, lib.Div(stick, m.body.mass),
                                  lib.Div(stickMag, m.body.mass), m.last, m.body.at))
  }

  /** The bodies after a frame that started as `start` and stepped to `next`. */
  function WalledBodies(lib: Libm, mst: Settings, dt: real, stick: real, start: seq<Mass>,
                        next: seq<Body>): (bs: seq<Body>)
    requires |start| == |next|
    ensures |bs| == |next|
  {
    seq(|next|, i requires 0 <= i < |next| =>
      Walled(lib, mst, StickMag(dt, stick), stick, start[i].(body := next[i], last := start[i].body.at)))
  }

  /** The difference between two states, component by component. */
  function Distance(p: Phase, q: Phase): real {
    Abs(p.x - q.x) + Abs(p.y - q.y) + Abs(p.vx - q.vx) + Abs(p.vy - q.vy)
  }

  /** The largest difference of a free mass from its test state, but at least 0.00001. */
  ghost predicate IsMaxError(ms: seq<Mass>, maxerr: real) {
    && maxerr >= 0.00001
    && (forall i :: 0 <= i < |ms| && ms[i].Free() ==> Distance(ms[i].body.at, ms[i].test) <= maxerr)
    && (maxerr == 0.00001 || exists i :: 0 <= i < |ms| && ms[i].Free() && Distance(ms[i].body.at, ms[i].test) == maxerr)
  }

  /** The masses, wherever they are now, were saved when they were `bs`. */
  ghost predicate SavedAs(ms: seq<Mass>, bs: seq<Body>) {
    && |ms| == |bs|
    && forall i :: 0 <= i < |ms| ==>
         && ms[i].body == bs[i].(at := ms[i].body.at)
         && (if ms[i].Free() then ms[i].last == bs[i].at else ms[i].body == bs[i])
  }

  function Elastics(ms: seq<Mass>): seq<real> {
    seq(|ms|, i requires 0 <= i < |ms| => ms[i].elastic)
  }

  /** What no step changes: elasticity and saved state of each mass. */
  function Kept(ms: seq<Mass>): seq<(real, Phase)> {
    seq(|ms|, i requires 0 <= i < |ms| => (ms[i].elastic, ms[i].last))
  }

  ghost predicate TestStates(ms: seq<Mass>, bs: seq<Body>) {
    |ms| == |bs| && forall i :: 0 <= i < |ms| && ms[i].Free() ==> ms[i].test == bs[i].at
  }

  /** Elasticity, saved state and, of a fixed or dead mass, everything but its acceleration, are as before. */
  ghost predicate SameFrame(start: Mass, m: Mass) {
    && m.elastic == start.elastic && m.last == start.last
    && m.body == start.body.(at := m.body.at)
    && (!start.Free() ==> m.body == start.body && m.test == start.test)
  }

  /** The bodies are where `next` says; test states are as before. */
  ghost predicate MovedTo(start: seq<Mass>, ms: seq<Mass>, next: seq<Body>) {
    && |start| == |ms| && Bodies(ms) == next
    && forall i :: 0 <= i < |ms| ==> SameFrame(start[i], ms[i]) && ms[i].test == start[i].test
  }

  /** The test states of the free masses are where `next` says. */
  ghost predicate TestedAt(start: seq<Mass>, ms: seq<Mass>, next: seq<Body>) {
    && |start| == |ms| == |next|
    && forall i :: 0 <= i < |ms| ==> SameFrame(start[i], ms[i]) && (ms[i].Free() ==> ms[i].test == next[i].at)
  }

  /** After stage n the scratch fields hold the reference increments, and the bodies are
      where the next stage evaluates forces. */
  ghost predicate AfterStage(f: Field, bs: seq<Body>, h: real, start: seq<Mass>, ms: seq<Mass>, n: nat) {
    && n <= 4 && bs == Bodies(start) && |start| == |ms| && SpringsFit(bs, f.springs)
    && Bodies(ms) == Stage(f, bs, h, if n < 4 then n + 1 else 4)
    && (forall i :: 0 <= i < |ms| ==> SameFrame(start[i], ms[i]) && ms[i].test == start[i].test)
    && (forall i :: 0 <= i < |ms| && ms[i].Free() ==>
          && (n >= 1 ==> ms[i].cur == bs[i].at && ms[i].k1 == Increments(f, bs, h, 1)[i])
          && (n >= 2 ==> ms[i].k2 == Increments(f, bs, h, 2)[i])
          && (n >= 3 ==> ms[i].k3 == Increments(f, bs, h, 3)[i])
          && (n >= 4 ==> ms[i].k4 == Increments(f, bs, h, 4)[i]))
  }

  /** A stage as the array shows it: accelerations `middle`, then the stored increments. */
  ghost predicate StageRan(f: Field, bs: seq<Body>, h: real, before: seq<Mass>, middle: seq<Mass>, after: seq<Mass>,
                           n: nat)
    requires 1 <= n <= 4 && SpringsFit(bs, f.springs)
  {
    && |bs| == |before| && OnlyAccels(before, middle) && Stored(middle, after, h, n)
    && forall i :: 0 <= i < |middle| && middle[i].Free() ==>
         middle[i].acc == FieldAccel(f, Stage(f, bs, h, n), i)
  }

  lemma {:induction false} StageDone(f: Field, bs: seq<Body>, h: real, start: seq<Mass>,
                  before: seq<Mass>, middle: seq<Mass>, after: seq<Mass>, n: nat)
    requires 1 <= n <= 4 && AfterStage(f, bs, h, start, before, n - 1)
    requires StageRan(f, bs, h, before, middle, after, n)
    ensures AfterStage(f, bs, h, start, after, n)
  {
    StoredIncrements(f, bs, h, start, before, middle, after, n);
    var next := Stage(f, bs, h, if n < 4 then n + 1 else 4);
    forall i | 0 <= i < |after| ensures after[i].body == next[i] {
      assert start[i].body == bs[i] && before[i].body == Stage(f, bs, h, n)[i];
    }
    assert Bodies(after) == next;
    hide Stage, Increments, Increment;
  }

  lemma {:induction false} StoredIncrements(f: Field, bs: seq<Body>, h: real, start: seq<Mass>,
                         before: seq<Mass>, middle: seq<Mass>, after: seq<Mass>, n: nat)
    requires 1 <= n <= 4 && AfterStage(f, bs, h, start, before, n - 1)
    requires StageRan(f, bs, h, before, middle, after, n)
    ensures forall i :: 0 <= i < |after| && after[i].Free() ==>
              && middle[i].Free() && Increment(middle[i].body.at, middle[i].acc, h) == Increments(f, bs, h, n)[i]
              && after[i].cur == bs[i].at
  {
    var at, ks := Stage(f, bs, h, n), Increments(f, bs, h, n);
    hide Increment, Stage;
    forall i | 0 <= i < |after| && after[i].Free()
      ensures middle[i].Free() && Increment(middle[i].body.at, middle[i].acc, h) == ks[i]
      ensures after[i].cur == bs[i].at
    {
      assert before[i].body == at[i] && start[i].body == bs[i];
      assert ks[i] == Rate(f, at, h, i);
    }
  }

  lemma {:induction false} StepDone(f: Field, bs: seq<Body>, h: real, start: seq<Mass>,
                 staged: seq<Mass>, after: seq<Mass>, testloc: bool)
    requires AfterStage(f, bs, h, start, staged, 4) && bs == Bodies(start)
    requires |after| == |staged| && forall i :: 0 <= i < |after| ==> after[i] == NextMass(staged[i], testloc)
    ensures var next := RK4(f, bs, h);
            if testloc then TestedAt(start, after, next) else MovedTo(start, after, next)
  {
    var next := RK4(f, bs, h);
    hide Increments, Stage, Blend;
    forall i | 0 <= i < |after|
      ensures SameFrame(start[i], after[i])
      ensures after[i].Free() ==> (if testloc then after[i].test else after[i].body.at) == next[i].at
      ensures !testloc ==> after[i].body == next[i] && after[i].test == start[i].test
    {
      assert bs[i] == start[i].body;
    }
  }

  lemma {:induction false} SameBodiesSameForces(f: Field, bs: seq<Body>, h: real, n: nat)
    requires 1 <= n <= 4 && SpringsFit(bs, f.springs)
    ensures Centre(Stage(f, bs, h, n), f.mst) == Centre(bs, f.mst)
    decreases n
  {
    if n > 1 { SameBodiesSameForces(f, bs, h, n - 1); }
  }

  function StoredMass(m: Mass, h: real, n: nat): Mass {
    var k, cur := Increment(m.body.at, m.acc, h), if n == 1 then m.body.at else m.cur;
    var at := if n == 4 then m.body.at else cur.Plus(k, if n == 3 then 1.0 else 0.5);
    if !m.Free() then m
    else m.(cur := cur, body := m.body.(at := at),
            k1 := if n == 1 then k else m.k1, k2 := if n == 2 then k else m.k2,
            k3 := if n == 3 then k else m.k3, k4 := if n == 4 then k else m.k4)
  }

  ghost predicate Stored(before: seq<Mass>, after: seq<Mass>, h: real, n: nat) {
    |before| == |after| && forall i :: 0 <= i < |before| ==> after[i] == StoredMass(before[i], h, n)
  }

  function NextMass(m: Mass, testloc: bool): Mass {
    var next := m.cur.Plus(Blend(m.k1, m.k2, m.k3, m.k4), 1.0);
    if !m.Free() then m else if testloc then m.(test := next) else m.(body := m.body.(at := next))
  }

  /** Only accelerations differ from the start, and each is that of the first j springs. */
  ghost predicate FeltFrom(f: Field, bs: seq<Body>, start: seq<Mass>, ms: seq<Mass>, j: nat)
    requires SpringsFit(bs, f.springs)
  {
    && Bodies(start) == bs && j <= |f.springs| && OnlyAccels(start, ms)
    && forall i :: 0 <= i < |ms| && ms[i].Free() ==> ms[i].acc == Accel(f.lib, bs, f.springs, f.mst, i, j)
  }

  lemma {:induction false} NoSpringFelt(f: Field, bs: seq<Body>, start: seq<Mass>)
    requires SpringsFit(bs, f.springs) && Bodies(start) == bs
    requires forall i :: 0 <= i < |start| && start[i].Free() ==> start[i].acc == External(f.lib, bs, f.mst, i)
    ensures FeltFrom(f, bs, start, start, 0)
  {
    hide External;
  }

  lemma {:induction false} FeltIsNow(f: Field, bs: seq<Body>, start: seq<Mass>, ms: seq<Mass>, j: nat)
    requires SpringsFit(bs, f.springs) && FeltFrom(f, bs, start, ms, j)
    ensures Bodies(ms) == bs
  {
    hide Accel;
  }

  /** One more spring. */
  lemma {:induction false} SpringFelt(f: Field, bs: seq<Body>, start: seq<Mass>, before: seq<Mass>, after: seq<Mass>,
                                      j: nat)
    requires SpringsFit(bs, f.springs) && FeltFrom(f, bs, start, before, j) && j < |f.springs|
    requires OnlyAccels(before, after)
    requires forall i :: 0 <= i < |after| ==> after[i].acc == Sum(before[i].acc, Pull(f.lib, bs, f.springs[j], i))
    ensures FeltFrom(f, bs, start, after, j + 1)
  {
    forall i | 0 <= i < |bs|
      ensures Accel(f.lib, bs, f.springs, f.mst, i, j + 1)
           == Sum(Accel(f.lib, bs, f.springs, f.mst, i, j), Pull(f.lib, bs, f.springs[j], i))
    {
      hide External, Pull, Sum;
    }
    hide External, Pull, Sum, Accel;
  }

  lemma {:induction false} SlackFelt(f: Field, bs: seq<Body>, start: seq<Mass>, ms: seq<Mass>, j: nat)
    requires SpringsFit(bs, f.springs) && FeltFrom(f, bs, start, ms, j) && j < |f.springs| && !f.springs[j].alive
    ensures FeltFrom(f, bs, start, ms, j + 1)
  {
    SlackSpring(f.lib, bs, f.springs, f.mst, j);
    hide Accel;
  }

  lemma {:induction false} SlackSpring(lib: Libm, bs: seq<Body>, ss: seq<Spring>, mst: Settings, j: nat)
    requires SpringsFit(bs, ss) && j < |ss| && !ss[j].alive
    ensures forall i :: 0 <= i < |bs| ==> Accel(lib, bs, ss, mst, i, j + 1) == Accel(lib, bs, ss, mst, i, j)
  {
    hide External;
  }

  lemma {:induction false} NoAttraction(lib: Libm, bs: seq<Body>, mst: Settings)
    requires !mst.attract.on
    ensures forall b :: Attraction(lib, bs, mst, b) == Vec(0.0, 0.0)
  {
  }

  // ---------------------------------------------------------------------------
  // Sticking to a wall
  // ---------------------------------------------------------------------------

  /** A free mass at rest at wall w; a side wall goes before the others. */
  ghost predicate RestsAt(mst: Settings, b: Body, w: Walls.Wall) {
    var r := b.radius as real;
    && b.Free() && b.mass > 0.0 && Walls.Resting(b.at) && Walls.Near(mst, r, w, b.at)
    && (Walls.Side(w) || (!Walls.Near(mst, r, Walls.LeftWall, b.at) && !Walls.Near(mst, r, Walls.RightWall, b.at)))
  }

  /** Gravity's pull into a wall or from it. */
  function PullAcross(w: Walls.Wall, g: Vec): real {
    Abs(Walls.Into(w, Phase(0.0, 0.0, g.x, g.y)))
  }

  lemma {:induction false} FallFromRest(f: Field, bs: seq<Body>, d: real, i: nat, w: Walls.Wall)
    requires FreeFlight.Flight(f) && f.mst.visc == 0.0 && SpringsFit(bs, f.springs) && d >= 0.0
    requires i < |bs| && bs[i].Free() && Walls.Resting(bs[i].at)
    ensures Abs(Walls.Into(w, RK4(f, bs, d)[i].at)) == Times(PullAcross(w, Gravity(f.lib, f.mst)), d)
  {
    FreeFlight.StepIsTaylor(f, bs, d, i);
    FreeFlight.FreeFallIsExact(Gravity(f.lib, f.mst), bs[i].at, d);
    var g := Gravity(f.lib, f.mst);
    hide RK4, Gravity, FreeFlight.SeriesMotion, FreeFlight.Flight, Times;
    ScaledSize(g.x, d);
    ScaledSize(g.y, d);
  }

  lemma {:induction false} ScaledSize(g: real, d: real)
    requires d >= 0.0
    ensures Abs(Times(g, d)) == Times(Abs(g), d) == Abs(-Times(g, d)) && Abs(-g) == Abs(g)
  {
  }

  /** In a frame that steps by d and leaves the step dt, a mass m at rest at a wall is held against
      gravity g exactly when m g d is less than dt times the stickiness.  Without living springs
      dt is d, and it is held exactly when the stickiness exceeds m g.  Held, it stays. */
  lemma {:induction false} StickyMassStays(f: Field, start: seq<Mass>, i: nat, d: real, dt: real, stick: real,
                                           w: Walls.Wall)
    requires FreeFlight.Flight(f) && f.mst.visc == 0.0 && SpringsFit(Bodies(start), f.springs)
    requires i < |start| && RestsAt(f.mst, start[i].body, w) && d >= 0.0 && dt > 0.0
    ensures var b, next := start[i].body, RK4(f, Bodies(start), d);
            var pull := PullAcross(w, Gravity(f.lib, f.mst));
            var held := Walls.Stuck(f.mst, b.radius as real, Walls.HoldSpeed(dt, stick, b.mass), b.at, next[i].at);
            && (held <==> Times(b.mass, Times(pull, d)) < Times(dt, stick))
            && (d == dt ==> (held <==> Times(b.mass, pull) < stick))
            && (held ==> WalledBodies(f.lib, f.mst, dt, stick, start, next)[i] == b)
  {
    var b, next := start[i].body, RK4(f, Bodies(start), d);
    assert Bodies(start)[i] == b;
    hide *;
    RestsIs(f.mst, b, w);
    FallFromRest(f, Bodies(start), d, i, w);
    StepKeepsBody(f, Bodies(start), d, i);
    HeldStays(f.lib, f.mst, dt, stick, start, next, i, w);
    Walls.StickinessBeatsPull(f.mst, b.radius as real, start[i].elastic, 0.0, stick, dt, d, b.mass,
                              PullAcross(w, Gravity(f.lib, f.mst)), w, b.at, next[i].at);
  }

  lemma {:induction false} RestsIs(mst: Settings, b: Body, w: Walls.Wall)
    requires RestsAt(mst, b, w)
    ensures var r := b.radius as real;
            && b.Free() && b.mass > 0.0 && Walls.Resting(b.at) && Walls.Near(mst, r, w, b.at)
            && (Walls.Side(w)
                || (!Walls.Near(mst, r, Walls.LeftWall, b.at) && !Walls.Near(mst, r, Walls.RightWall, b.at)))
  {
  }

  lemma {:induction false} HeldStays(lib: Libm, mst: Settings, dt: real, stick: real, start: seq<Mass>,
                                     next: seq<Body>, i: nat, w: Walls.Wall)
    requires i < |start| == |next| && RestsAt(mst, start[i].body, w)
    requires next[i] == start[i].body.(at := next[i].at)
    ensures var b := start[i].body;
            Walls.Stuck(mst, b.radius as real, Walls.HoldSpeed(dt, stick, b.mass), b.at, next[i].at) ==>
              WalledBodies(lib, mst, dt, stick, start, next)[i] == b
  {
    var b := start[i].body;
    hide Walls.Collide, Walls.Stuck, Walls.Near, Walls.Side;
    var hold := Walls.HoldSpeed(dt, stick, b.mass);
    assert lib.Div(StickMag(dt, stick), b.mass) == hold;
    Walls.HeldExactlyWhileSlow(mst, b.radius as real, start[i].elastic, lib.Div(stick, b.mass), hold, w, b.at,
                               next[i].at);
  }

  // ---------------------------------------------------------------------------
  // Bouncing
  // ---------------------------------------------------------------------------

  /** A free mass m that was moving and runs through one wall in a frame comes off it as its
      elasticity, and the stickiness over m, say. */
  lemma {:induction false} FrameBounces(f: Field, start: seq<Mass>, i: nat, d: real, dt: real, stick: real,
                                        w: Walls.Wall)
    requires SpringsFit(Bodies(start), f.springs) && i < |start| && start[i].body.Free() && start[i].body.mass > 0.0
    requires start[i].elastic >= 0.0 && stick >= 0.0 && !Walls.Resting(start[i].body.at)
    requires Walls.MeetsOnly(f.mst, start[i].body.radius as real, w, start[i].body.at,
                             RK4(f, Bodies(start), d)[i].at)
    ensures var b, at := start[i].body, RK4(f, Bodies(start), d)[i].at;
            var p := WalledBodies(f.lib, f.mst, dt, stick, start, RK4(f, Bodies(start), d))[i].at;
            && Walls.Beyond(f.mst, b.radius as real, w, p) == 0.0 && Walls.PlaceAlong(w, p) == Walls.PlaceAlong(w, at)
            && Walls.CameOff(Walls.Into(w, at), Walls.AlongWall(w, at), start[i].elastic, stick / b.mass,
                             Walls.Into(w, p), Walls.AlongWall(w, p))
  {
    var b, next := start[i].body, RK4(f, Bodies(start), d);
    StepKeepsBody(f, Bodies(start), d, i);
    assert Bodies(start)[i] == b;
    hide RK4, Walls.Collide, Walls.CameOff, Walls.Beyond, Walls.Into, Walls.MeetsOnly, Walls.Resting;
    NotStuck(f.mst, b.radius as real, f.lib.Div(StickMag(dt, stick), b.mass), b.at, next[i].at);
    PositiveShare(stick, b.mass);
    assert f.lib.Div(stick, b.mass) == stick / b.mass;
    Walls.BouncesOff(f.mst, b.radius as real, start[i].elastic, stick / b.mass,
                     f.lib.Div(StickMag(dt, stick), b.mass), w, b.at, next[i].at);
  }

  lemma {:induction false} NotStuck(mst: Settings, r: real, hold: real, was: Phase, at: Phase)
    requires !Walls.Resting(was)
    ensures !Walls.Stuck(mst, r, hold, was, at)
  {
  }

  lemma {:induction false} PositiveShare(a: real, m: real)
    requires a >= 0.0 && m > 0.0
    ensures a / m >= 0.0
  {
  }
}
