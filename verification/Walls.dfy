/** The walls of the simulator's room: bouncing, sticking, and what they guarantee. */
module Walls {
  import opened Common
  import opened Mechanics

  /** Position along one axis, speed along it and speed across it. */
  datatype Axis = Axis(pos: real, v: real, u: real)

  /** Elastic rebound: normal speed reversed, both speeds damped, then slowed by the wall's
      stickiness; a mass slowed past rest stays at rest. */
  function Rebound(pos: real, v: real, u: real, elastic: real, slow: real): Axis {
    var w := -v * elastic;
    var x := if v < 0.0 && w > 0.0 then w - slow else if v > 0.0 && w < 0.0 then w + slow else w;
    if (v < 0.0 && w > 0.0 && x < 0.0) || (v > 0.0 && w < 0.0 && x > 0.0) then Axis(pos, 0.0, 0.0)
    else Axis(pos, x, u * elastic)
  }

  /** One axis: a wall stops what was on its inner side at the start of the frame. */
  function Bounce(low: bool, high: bool, was: real, a: Axis, r: real, size: real, elastic: real, slow: real): Axis {
    if low && a.pos < r && was >= r then
      if a.v < 0.0 then Rebound(r, a.v, a.u, elastic, slow) else a.(pos := r)
    else if high && a.pos > size - r && was <= size - r then
      if a.v > 0.0 then Rebound(size - r, a.v, a.u, elastic, slow) else a.(pos := size - r)
    else a
  }

  /** A mass at rest against a wall stays there unless it picked up enough speed; the side
      walls are looked at first, and decide alone. */
  predicate Stuck(mst: Settings, r: real, hold: real, was: Phase, at: Phase) {
    && was.vx == 0.0 && was.vy == 0.0
    && if (mst.left && Abs(was.x - r) < 0.5) || (mst.right && Abs(was.x - mst.wid as real + r) < 0.5)
       then Abs(at.vx) < hold
       else ((mst.bottom && Abs(was.y - r) < 0.5) || (mst.top && Abs(was.y - mst.ht as real + r) < 0.5))
            && Abs(at.vy) < hold
  }

  /** What the walls make of a mass of radius r that was at `was` and moved to `at`. */
  function Collide(mst: Settings, r: real, elastic: real, slow: real, hold: real, was: Phase, at: Phase): Phase {
    if Stuck(mst, r, hold, was, at) then Phase(was.x, was.y, 0.0, 0.0)
    else
      var a := Bounce(mst.left, mst.right, was.x, Axis(at.x, at.vx, at.vy), r, mst.wid as real, elastic, slow);
      var b := Bounce(mst.bottom, mst.top, was.y, Axis(at.y, a.u, a.v), r, mst.ht as real, elastic, slow);
      Phase(a.pos, b.pos, b.u, b.v)
  }

  // ---------------------------------------------------------------------------
  // Guarantees
  // ---------------------------------------------------------------------------

  predicate Inside(mst: Settings, r: real, p: Phase) {
    r <= p.x <= mst.wid as real - r && r <= p.y <= mst.ht as real - r
  }

  predicate WalledIn(mst: Settings) {
    mst.left && mst.right && mst.top && mst.bottom
  }

  /** However far a step throws it, a mass that was inside four walls is inside again. */
  lemma {:induction false} WallsConfine(mst: Settings, r: real, elastic: real, slow: real, hold: real, was: Phase,
                                        at: Phase)
    requires WalledIn(mst) && Inside(mst, r, was)
    ensures Inside(mst, r, Collide(mst, r, elastic, slow, hold, was, at))
  {
    hide Rebound;
    ReboundKeepsPosition(r, at.vx, at.vy, elastic, slow);
    ReboundKeepsPosition(mst.wid as real - r, at.vx, at.vy, elastic, slow);
    var a := Bounce(true, true, was.x, Axis(at.x, at.vx, at.vy), r, mst.wid as real, elastic, slow);
    ReboundKeepsPosition(r, a.u, a.v, elastic, slow);
    ReboundKeepsPosition(mst.ht as real - r, a.u, a.v, elastic, slow);
  }

  /** Somewhere a missing wall lets a mass through. */
  lemma {:induction false} GapLetsThrough(mst: Settings, r: real, elastic: real, slow: real, hold: real)
    returns (was: Phase, at: Phase)
    requires !WalledIn(mst) && 2.0 * r <= mst.wid as real && 2.0 * r <= mst.ht as real
    ensures Inside(mst, r, was) && !Inside(mst, r, Collide(mst, r, elastic, slow, hold, was, at))
  {
    was := Phase(r, r, 1.0, 1.0);
    at := if !mst.left then Phase(r - 1.0, r, 0.0, 0.0)
          else if !mst.right then Phase(mst.wid as real - r + 1.0, r, 0.0, 0.0)
          else if !mst.bottom then Phase(r, r - 1.0, 0.0, 0.0)
          else Phase(r, mst.ht as real - r + 1.0, 0.0, 0.0);
    hide Rebound;
  }

  /** In a room with space for the mass, frames confine it exactly when all four walls are on. */
  lemma {:induction false} ConfinesExactlyWhenWalledIn(mst: Settings, r: real, elastic: real, slow: real, hold: real)
    requires 2.0 * r <= mst.wid as real && 2.0 * r <= mst.ht as real
    ensures (forall was, at :: Inside(mst, r, was) ==> Inside(mst, r, Collide(mst, r, elastic, slow, hold, was, at)))
            <==> WalledIn(mst)
  {
    if WalledIn(mst) {
      forall was, at | Inside(mst, r, was) ensures Inside(mst, r, Collide(mst, r, elastic, slow, hold, was, at)) {
        WallsConfine(mst, r, elastic, slow, hold, was, at);
      }
    } else {
      var was, at := GapLetsThrough(mst, r, elastic, slow, hold);
    }
  }

  lemma {:induction false} ReboundKeepsPosition(pos: real, v: real, u: real, elastic: real, slow: real)
    ensures Rebound(pos, v, u, elastic, slow).pos == pos
  {
  }

  lemma {:induction false} ReboundSlows(pos: real, v: real, u: real, elastic: real, slow: real)
    requires 0.0 <= elastic <= 1.0 && slow >= 0.0
    ensures var a := Rebound(pos, v, u, elastic, slow);
            Abs(a.v) <= Abs(v) && Abs(a.u) <= Abs(u) && a.v * v <= 0.0
  {
    Damped(v, elastic);
    Damped(u, elastic);
  }

  lemma {:induction false} Damped(v: real, e: real)
    requires 0.0 <= e <= 1.0
    ensures Abs(v * e) <= Abs(v) && (-v) * e == -(v * e)
    ensures v >= 0.0 ==> v * e >= 0.0
    ensures v <= 0.0 ==> v * e <= 0.0
  {
  }

  lemma {:induction false} BounceSlows(low: bool, high: bool, was: real, a: Axis, r: real, size: real, elastic: real,
                                       slow: real)
    requires 0.0 <= elastic <= 1.0 && slow >= 0.0
    ensures var b := Bounce(low, high, was, a, r, size, elastic, slow);
            Abs(b.v) <= Abs(a.v) && Abs(b.u) <= Abs(a.u)
  {
    ReboundSlows(r, a.v, a.u, elastic, slow);
    ReboundSlows(size - r, a.v, a.u, elastic, slow);
  }

  /** Walls of elasticity in [0, 1] and non-negative stickiness speed nothing up. */
  lemma {:induction false} WallsNeverSpeedUp(mst: Settings, r: real, elastic: real, slow: real, hold: real,
                                             was: Phase, at: Phase)
    requires 0.0 <= elastic <= 1.0 && slow >= 0.0
    ensures var p := Collide(mst, r, elastic, slow, hold, was, at);
            Abs(p.vx) <= Abs(at.vx) && Abs(p.vy) <= Abs(at.vy)
  {
    hide Bounce;
    var a := Bounce(mst.left, mst.right, was.x, Axis(at.x, at.vx, at.vy), r, mst.wid as real, elastic, slow);
    BounceSlows(mst.left, mst.right, was.x, Axis(at.x, at.vx, at.vy), r, mst.wid as real, elastic, slow);
    BounceSlows(mst.bottom, mst.top, was.y, Axis(at.y, a.u, a.v), r, mst.ht as real, elastic, slow);
  }

  /** A mass that stays inside and was not at rest against a wall is not touched. */
  lemma {:induction false} WallsIgnoreFreeFlight(mst: Settings, r: real, elastic: real, slow: real, hold: real,
                                                 was: Phase, at: Phase)
    requires Inside(mst, r, at) && (was.vx != 0.0 || was.vy != 0.0)
    ensures Collide(mst, r, elastic, slow, hold, was, at) == at
  {
  }

  // ---------------------------------------------------------------------------
  // What a wall does to a mass
  // ---------------------------------------------------------------------------

  datatype Wall = LeftWall | RightWall | BottomWall | TopWall

  predicate Side(w: Wall) {
    w.LeftWall? || w.RightWall?
  }

  predicate On(mst: Settings, w: Wall) {
    match w
    case LeftWall => mst.left
    case RightWall => mst.right
    case BottomWall => mst.bottom
    case TopWall => mst.top
  }

  /** How far a mass of radius r reaches beyond a wall. */
  function Beyond(mst: Settings, r: real, w: Wall, p: Phase): real {
    match w
    case LeftWall => r - p.x
    case RightWall => p.x + r - mst.wid as real
    case BottomWall => r - p.y
    case TopWall => p.y + r - mst.ht as real
  }

  /** Its speed into the wall, its speed along the wall and its place along it. */
  function Into(w: Wall, p: Phase): real {
    match w
    case LeftWall => -p.vx
    case RightWall => p.vx
    case BottomWall => -p.vy
    case TopWall => p.vy
  }

  function AlongWall(w: Wall, p: Phase): real {
    if Side(w) then p.vy else p.vx
  }

  function PlaceAlong(w: Wall, p: Phase): real {
    if Side(w) then p.y else p.x
  }

  /** The mass went through a wall that is on. */
  predicate Meets(mst: Settings, r: real, w: Wall, was: Phase, at: Phase) {
    On(mst, w) && Beyond(mst, r, w, was) <= 0.0 < Beyond(mst, r, w, at)
  }

  predicate MeetsOnly(mst: Settings, r: real, w: Wall, was: Phase, at: Phase) {
    && Meets(mst, r, w, was, at)
    && (w.LeftWall? || !Meets(mst, r, LeftWall, was, at)) && (w.RightWall? || !Meets(mst, r, RightWall, was, at))
    && (w.BottomWall? || !Meets(mst, r, BottomWall, was, at)) && (w.TopWall? || !Meets(mst, r, TopWall, was, at))
  }

  /** Meeting a wall at speed v into it and u along it leaves v' into it and u' along it. */
  predicate CameOff(v: real, u: real, e: real, slow: real, v': real, u': real) {
    if v <= 0.0 then v' == v && u' == u
    else if e * v >= slow then v' == -(e * v - slow) && u' == e * u
    else v' == 0.0 && u' == 0.0
  }

  /** A mass that runs into a wall at speed v comes off it at speed e v less the stickiness, and
      as much slower along it, exactly when e v is not less than the stickiness; otherwise it
      comes to rest.  One that is on its way back already is only put back. */
  lemma {:induction false} BouncesOff(mst: Settings, r: real, e: real, slow: real, hold: real, w: Wall, was: Phase,
                                      at: Phase)
    requires MeetsOnly(mst, r, w, was, at) && !Stuck(mst, r, hold, was, at) && e >= 0.0 && slow >= 0.0
    ensures var p := Collide(mst, r, e, slow, hold, was, at);
            && Beyond(mst, r, w, p) == 0.0 && PlaceAlong(w, p) == PlaceAlong(w, at)
            && CameOff(Into(w, at), AlongWall(w, at), e, slow, Into(w, p), AlongWall(w, p))
  {
    hide Stuck, Bounce;
    var wid, ht := mst.wid as real, mst.ht as real;
    var a := Bounce(mst.left, mst.right, was.x, Axis(at.x, at.vx, at.vy), r, wid, e, slow);
    OneWall(mst.left, mst.right, was.x, Axis(at.x, at.vx, at.vy), r, wid, e, slow);
    OneWall(mst.bottom, mst.top, was.y, Axis(at.y, a.u, a.v), r, ht, e, slow);
  }

  /** One axis, with at most one wall met. */
  lemma {:induction false} OneWall(low: bool, high: bool, was: real, a: Axis, r: real, size: real, e: real, slow: real)
    requires e >= 0.0 && slow >= 0.0
    ensures var b := Bounce(low, high, was, a, r, size, e, slow);
            var meetsLow, meetsHigh := low && a.pos < r <= was, high && was <= size - r < a.pos;
            && (!meetsLow && !meetsHigh ==> b == a)
            && (meetsLow ==> b.pos == r && CameOff(-a.v, a.u, e, slow, -b.v, b.u))
            && (meetsHigh && !meetsLow ==> b.pos == size - r && CameOff(a.v, a.u, e, slow, b.v, b.u))
  {
    ReboundAt(a.v, a.u, e, slow);
    Commutes(e, a.v);
    hide Rebound;
  }

  /** A rebound from speed v, for either sign. */
  lemma {:induction false} ReboundAt(v: real, u: real, e: real, slow: real)
    requires e >= 0.0 && slow >= 0.0
    ensures forall pos: real :: Rebound(pos, v, u, e, slow).pos == pos
    ensures forall pos: real :: v != 0.0 ==>
              var a, speed := Rebound(pos, v, u, e, slow), e * Abs(v) - slow;
              if speed >= 0.0 then a.v == (if v > 0.0 then -speed else speed) && a.u == e * u
              else a.v == 0.0 && a.u == 0.0
  {
    Commutes(e, v);
    Commutes(e, u);
  }

  lemma {:induction false} Commutes(e: real, v: real)
    requires e >= 0.0
    ensures -v * e == -(e * v) && v * e == e * v && e * -v == -(e * v)
    ensures v > 0.0 ==> e * v >= 0.0
    ensures v < 0.0 ==> e * v <= 0.0
    ensures e == 0.0 ==> e * v == 0.0
    ensures e > 0.0 && v != 0.0 ==> e * v != 0.0
  {
  }

  /** Perfectly elastic walls without stickiness change no speed, only directions. */
  lemma {:induction false} ElasticWallsKeepSpeed(mst: Settings, r: real, hold: real, was: Phase, at: Phase)
    requires !Stuck(mst, r, hold, was, at)
    ensures var p := Collide(mst, r, 1.0, 0.0, hold, was, at);
            && Abs(p.vx) == Abs(at.vx) && Abs(p.vy) == Abs(at.vy)
            && p.vx * p.vx + p.vy * p.vy == at.vx * at.vx + at.vy * at.vy
  {
    hide Stuck;
    var p := Collide(mst, r, 1.0, 0.0, hold, was, at);
    assert p.vx == at.vx || p.vx == -at.vx;
    assert p.vy == at.vy || p.vy == -at.vy;
    hide Collide;
    SameSquare(p.vx, at.vx);
    SameSquare(p.vy, at.vy);
  }

  lemma {:induction false} SameSquare(a: real, b: real)
    requires a == b || a == -b
    ensures a * a == b * b
  {
  }

  /** Near a wall that is on, within half a unit. */
  predicate Near(mst: Settings, r: real, w: Wall, p: Phase) {
    On(mst, w) && Abs(Beyond(mst, r, w, p)) < 0.5
  }

  predicate Resting(p: Phase) {
    p.vx == 0.0 && p.vy == 0.0
  }

  /** A mass at rest at a wall is held where it was exactly while it is slower than `hold` towards
      or from it; a side wall goes before the others.  Away from walls nothing is held. */
  lemma {:induction false} HeldExactlyWhileSlow(mst: Settings, r: real, e: real, slow: real, hold: real, w: Wall,
                                                was: Phase, at: Phase)
    requires Resting(was) && Near(mst, r, w, was)
    requires Side(w) || (!Near(mst, r, LeftWall, was) && !Near(mst, r, RightWall, was))
    ensures Stuck(mst, r, hold, was, at) <==> Abs(Into(w, at)) < hold
    ensures Stuck(mst, r, hold, was, at) ==> Collide(mst, r, e, slow, hold, was, at) == was
  {
  }

  lemma {:induction false} HeldOnlyAtWalls(mst: Settings, r: real, hold: real, was: Phase, at: Phase)
    requires Stuck(mst, r, hold, was, at)
    ensures Resting(was) && exists w :: Near(mst, r, w, was)
  {
    assert Near(mst, r, LeftWall, was) || Near(mst, r, RightWall, was) || Near(mst, r, BottomWall, was)
        || Near(mst, r, TopWall, was);
  }

  /** Pulled from rest by an acceleration g for a time d, a mass m stays where it was exactly when
      m g d is less than the stickiness times dt; so, if these times are the same, exactly when
      the stickiness exceeds the pull m g. */
  lemma {:induction false} StickinessBeatsPull(mst: Settings, r: real, e: real, slow: real, stick: real, dt: real,
                                               d: real, m: real, g: real, w: Wall, was: Phase, at: Phase)
    requires Resting(was) && Near(mst, r, w, was) && m > 0.0 && dt > 0.0
    requires Side(w) || (!Near(mst, r, LeftWall, was) && !Near(mst, r, RightWall, was))
    requires Abs(Into(w, at)) == Times(g, d)
    ensures Stuck(mst, r, HoldSpeed(dt, stick, m), was, at) <==> Times(m, Times(g, d)) < Times(dt, stick)
    ensures d == dt ==> (Stuck(mst, r, HoldSpeed(dt, stick, m), was, at) <==> Times(m, g) < stick)
  {
    HeldExactlyWhileSlow(mst, r, e, slow, HoldSpeed(dt, stick, m), w, was, at);
    hide *;
    BelowHoldSpeed(Times(g, d), dt, stick, m);
    PullForAStep(m, g, d, dt, stick);
  }

  /** The speed up to which a mass is held at a wall. */
  function HoldSpeed(dt: real, stick: real, m: real): real
    requires m > 0.0
  {
    dt * stick / m
  }

  lemma {:induction false} BelowHoldSpeed(v: real, dt: real, stick: real, m: real)
    requires m > 0.0
    ensures v < HoldSpeed(dt, stick, m) <==> Times(m, v) < Times(dt, stick)
  {
    LessThanQuotient(v, dt * stick, m);
  }

  lemma {:induction false} PullForAStep(m: real, g: real, d: real, dt: real, stick: real)
    requires dt > 0.0
    ensures d == dt ==> (Times(m, Times(g, d)) < Times(dt, stick) <==> Times(m, g) < stick)
  {
    ProductOfThree(m, g, d);
    LessThanProduct(m * g, stick, dt);
  }

  lemma {:induction false} ProductOfThree(m: real, g: real, d: real)
    ensures Times(m, Times(g, d)) == (m * g) * d
  {
  }

  lemma {:induction false} LessThanQuotient(a: real, b: real, m: real)
    requires m > 0.0
    ensures a < b / m <==> Times(m, a) < b
  {
    var q := b / m;
    assert m * q == b;
    ProductLess(m, a, q);
  }

  /** A positive factor keeps the order. */
  lemma {:induction false} ProductLess(m: real, a: real, b: real)
    requires m > 0.0
    ensures a < b <==> m * a < m * b
  {
  }

  lemma {:induction false} LessThanProduct(a: real, b: real, t: real)
    requires t > 0.0
    ensures a * t < t * b <==> a < b
  {
    ProductLess(t, a, b);
  }
}
