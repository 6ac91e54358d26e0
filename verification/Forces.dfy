/**
 What the forces of the reference mechanics do: where they point and how strong they are.
 Square roots are assumed to be square roots, and powers of positive numbers positive.
 */
module Forces {
  import opened Common
  import opened Mechanics
  import opened Momentum
  import Gliding
  import Walls

  predicate RootAt(lib: Libm, t: real) {
    t > 0.0 ==> lib.Sqrt(t) > 0.0 && Times(lib.Sqrt(t), lib.Sqrt(t)) == t
  }

  ghost predicate Roots(lib: Libm) {
    forall t: real :: RootAt(lib, t)
  }

  predicate PowerAt(lib: Libm, t: real, u: real) {
    t > 0.0 ==> lib.Pow(t, u) > 0.0
  }

  ghost predicate PositivePowers(lib: Libm) {
    forall t: real, u: real :: PowerAt(lib, t, u)
  }

  // ---------------------------------------------------------------------------
  // Vectors
  // ---------------------------------------------------------------------------

  /** From q to p, and how fast p leaves q. */
  function Offset(p: Phase, q: Phase): Vec {
    Vec(p.x - q.x, p.y - q.y)
  }

  function Leaving(p: Phase, q: Phase): Vec {
    Vec(p.vx - q.vx, p.vy - q.vy)
  }

  function Inner(u: Vec, v: Vec): real {
    Times(u.x, v.x) + Times(u.y, v.y)
  }

  function Cross(u: Vec, v: Vec): real {
    Times(u.x, v.y) - Times(u.y, v.x)
  }

  function Less(u: Vec, v: Vec): Vec {
    Vec(u.x - v.x, u.y - v.y)
  }

  function Stretched(t: real, v: Vec): Vec {
    Vec(Times(t, v.x), Times(t, v.y))
  }

  lemma {:induction false} Sums(a: real, b: real, c: real)
    ensures Times(a, b + c) == Times(a, b) + Times(a, c) && Times(b + c, a) == Times(b, a) + Times(c, a)
    ensures Times(a, b - c) == Times(a, b) - Times(a, c) && Times(b - c, a) == Times(b, a) - Times(c, a)
  {
  }

  lemma {:induction false} Products(a: real, b: real, c: real)
    ensures Times(Times(a, b), c) == Times(a, Times(b, c)) && Times(a, b) == Times(b, a)
  {
  }

  lemma {:induction false} Negations(a: real, b: real)
    ensures Times(-a, b) == -Times(a, b) && Times(a, -b) == -Times(a, b) && Times(-a, -b) == Times(a, b)
  {
  }

  lemma {:induction false} Signs(a: real, b: real)
    requires a > 0.0
    ensures (Times(a, b) > 0.0 <==> b > 0.0) && (Times(a, b) < 0.0 <==> b < 0.0)
  {
  }

  lemma {:induction false} Squares(a: real)
    ensures Times(a, a) >= 0.0 && (a != 0.0 ==> Times(a, a) > 0.0)
  {
    Negations(a, a);
    hide Times;
    if a > 0.0 { Signs(a, a); }
    if a < 0.0 { Signs(-a, -a); }
    if a == 0.0 { assert Times(0.0, 0.0) == 0.0 by { Nothing(0.0); } }
  }

  lemma {:induction false} Nothing(a: real)
    ensures Times(0.0, a) == 0.0 && Times(a, 0.0) == 0.0
  {
  }

  lemma {:induction false} Quotients(a: real, b: real)
    requires b != 0.0
    ensures Times(b, a / b) == a && Times(a / b, b) == a
  {
  }

  lemma {:induction false} Parallel(t: real, d: Vec, v: Vec)
    ensures Inner(Stretched(t, d), v) == Times(t, Inner(d, v)) && Cross(Stretched(t, d), d) == 0.0
  {
    Products(t, d.x, v.x);
    Products(t, d.y, v.y);
    Products(t, d.x, d.y);
    Products(t, d.y, d.x);
    Products(d.x, d.y, t);
    Sums(t, Times(d.x, v.x), Times(d.y, v.y));
    hide Times;
  }

  lemma {:induction false} Opposites(u: Vec, v: Vec)
    ensures Inner(Opposite(u), Opposite(v)) == Inner(u, v) && Cross(Opposite(u), Opposite(v)) == Cross(u, v)
    ensures Inner(Opposite(u), v) == -Inner(u, v)
  {
    Negations(u.x, v.x);
    Negations(u.y, v.y);
    Negations(u.x, v.y);
    Negations(u.y, v.x);
    hide Times;
  }

  lemma {:induction false} InnerOfLess(u: Vec, v: Vec, w: Vec)
    ensures Inner(Less(u, v), w) == Inner(u, w) - Inner(v, w)
  {
    Sums(w.x, u.x, v.x);
    Sums(w.y, u.y, v.y);
    hide Times;
  }

  lemma {:induction false} HypotAt(lib: Libm, dx: real, dy: real, t: real)
    requires t == dx * dx + dy * dy
    ensures Hypot(lib, dx, dy) == lib.Sqrt(t)
  {
  }

  lemma {:induction false} HypotIs(lib: Libm, d: Vec)
    ensures Hypot(lib, d.x, d.y) == lib.Sqrt(Inner(d, d))
  {
    Plain(d.x, d.x);
    Plain(d.y, d.y);
    hide Times, Hypot;
    HypotAt(lib, d.x, d.y, Inner(d, d));
  }

  lemma {:induction false} Plain(a: real, b: real)
    ensures Times(a, b) == a * b
  {
  }

  lemma {:induction false} LengthIsRoot(lib: Libm, d: Vec)
    requires Roots(lib) && (d.x != 0.0 || d.y != 0.0)
    ensures Hypot(lib, d.x, d.y) > 0.0 && Times(Hypot(lib, d.x, d.y), Hypot(lib, d.x, d.y)) == Inner(d, d) > 0.0
    ensures Hypot(lib, -d.x, -d.y) == Hypot(lib, d.x, d.y)
  {
    Squares(d.x);
    Squares(d.y);
    assert RootAt(lib, Inner(d, d));
    HypotIs(lib, d);
    HypotIs(lib, Opposite(d));
    hide Times, Hypot;
    Opposites(d, d);
  }

  // ---------------------------------------------------------------------------
  // Springs
  // ---------------------------------------------------------------------------

  /** The force of spring s on its end i. */
  function ForceOn(lib: Libm, bs: seq<Body>, s: Spring, i: nat): Vec
    requires i < |bs| && s.m1 < |bs| && s.m2 < |bs|
  {
    Stretched(bs[i].mass, Pull(lib, bs, s, i))
  }

  /** i and o are the ends of a living spring that has a direction. */
  predicate Joins(bs: seq<Body>, s: Spring, i: nat, o: nat) {
    && i < |bs| && o < |bs| && s.alive && ((i == s.m1 && o == s.m2) || (i == s.m2 && o == s.m1))
    && (bs[i].at.x != bs[o].at.x || bs[i].at.y != bs[o].at.y)
  }

  /** Hooke's law for a spring of length len, times the length, less the damping of parting at
      rate w / len. */
  function HookeTimes(s: Spring, len: real, w: real): real {
    Times(Times(s.ks, s.restlen - len), len) - Times(s.kd, w)
  }

  lemma {:induction false} TensionIs(lib: Libm, s: Spring, d: Vec, v: Vec, len: real)
    requires len == Hypot(lib, d.x, d.y) > 0.0
    ensures Tension(lib, s, d.x, d.y, v.x, v.y) == Hooke(s, len, Inner(v, d) / len) / len
  {
    Plain(v.x, d.x);
    Plain(v.y, d.y);
    hide Times, Hooke, Hypot, Tension;
    TensionAt(lib, s, d.x, d.y, v.x, v.y, len, Inner(v, d));
  }

  lemma {:induction false} TensionAt(lib: Libm, s: Spring, dx: real, dy: real, dvx: real, dvy: real, len: real,
                                     w: real)
    requires len == Hypot(lib, dx, dy) && w == dvx * dx + dvy * dy
    ensures Tension(lib, s, dx, dy, dvx, dvy) == lib.Div(Hooke(s, len, lib.Div(w, len)), len)
  {
  }

  lemma {:induction false} HookeIs(s: Spring, len: real, damp: real)
    ensures Hooke(s, len, damp) == Times(s.ks, s.restlen - len) - Times(s.kd, damp)
  {
  }

  /** The tension times the square of the length. */
  lemma {:induction false} TensionTimesSquare(lib: Libm, s: Spring, d: Vec, v: Vec, len: real)
    requires len == Hypot(lib, d.x, d.y) > 0.0 && Times(len, len) == Inner(d, d)
    ensures Times(Tension(lib, s, d.x, d.y, v.x, v.y), Inner(d, d)) == HookeTimes(s, len, Inner(v, d))
  {
    var w := Inner(v, d);
    var h := Hooke(s, len, w / len);
    TensionIs(lib, s, d, v, len);
    HookeIs(s, len, w / len);
    Quotients(w, len);
    Quotients(h, len);
    hide Tension, Hooke, Hypot, Times, Inner;
    Products(h / len, len, len);
    Sums(len, Times(s.ks, s.restlen - len), Times(s.kd, w / len));
    Products(s.kd, w / len, len);
  }

  lemma {:induction false} ForceIs(lib: Libm, bs: seq<Body>, s: Spring, i: nat, o: nat)
    requires Joins(bs, s, i, o) && bs[i].mass != 0.0
    ensures var d, v := Offset(bs[s.m1].at, bs[s.m2].at), Leaving(bs[s.m1].at, bs[s.m2].at);
            var f := Stretched(Tension(lib, s, d.x, d.y, v.x, v.y), d);
            ForceOn(lib, bs, s, i) == if i == s.m1 then f else Opposite(f)
  {
    hide Tension;
    var f := SpringForce(lib, bs, s);
    var m := bs[i].mass;
    Quotients(f.x, m);
    Quotients(f.y, m);
    Negations(m, f.x / m);
    Negations(m, f.y / m);
    var d, v := Offset(bs[s.m1].at, bs[s.m2].at), Leaving(bs[s.m1].at, bs[s.m2].at);
    var t := Tension(lib, s, d.x, d.y, v.x, v.y);
    Plain(t, d.x);
    Plain(t, d.y);
    hide Times;
  }

  /** The force on an end lies along the spring; away from the other end it is, times the length,
      ks (restlen - length) times the length, less kd times the inner product of the relative
      velocity and the span. */
  lemma {:induction false} SpringObeysHooke(lib: Libm, bs: seq<Body>, s: Spring, i: nat, o: nat)
    requires Roots(lib) && Joins(bs, s, i, o) && bs[i].mass != 0.0
    ensures var d, v := Offset(bs[i].at, bs[o].at), Leaving(bs[i].at, bs[o].at);
            var len := Hypot(lib, d.x, d.y);
            && len > 0.0 && Times(len, len) == Inner(d, d)
            && Cross(ForceOn(lib, bs, s, i), d) == 0.0
            && Inner(ForceOn(lib, bs, s, i), d) == HookeTimes(s, len, Inner(v, d))
  {
    var p, q := bs[s.m1].at, bs[s.m2].at;
    var d, v := Offset(p, q), Leaving(p, q);
    var t := Tension(lib, s, d.x, d.y, v.x, v.y);
    ForceIs(lib, bs, s, i, o);
    LengthIsRoot(lib, d);
    assert i != s.m1 ==> Offset(bs[i].at, bs[o].at) == Opposite(d) && Leaving(bs[i].at, bs[o].at) == Opposite(v);
    hide ForceOn, Tension, Hypot, Roots, Offset, Leaving, Times, Inner, Cross, Stretched, HookeTimes;
    TensionTimesSquare(lib, s, d, v, Hypot(lib, d.x, d.y));
    Parallel(t, d, d);
    Opposites(Stretched(t, d), d);
    Opposites(v, d);
  }

  /** Without damping, a spring pulls its end towards the other exactly when it is stretched,
      pushes it away exactly when compressed, and does nothing exactly at its rest length. */
  lemma {:induction false} SpringSeeksRestLength(lib: Libm, bs: seq<Body>, s: Spring, i: nat, o: nat)
    requires Roots(lib) && Joins(bs, s, i, o) && bs[i].mass != 0.0 && s.kd == 0.0 && s.ks > 0.0
    ensures var d, f := Offset(bs[i].at, bs[o].at), ForceOn(lib, bs, s, i);
            var len := Hypot(lib, d.x, d.y);
            && (Inner(f, d) < 0.0 <==> len > s.restlen) && (Inner(f, d) > 0.0 <==> len < s.restlen)
            && (f == Vec(0.0, 0.0) <==> len == s.restlen)
  {
    var d, v := Offset(bs[i].at, bs[o].at), Leaving(bs[i].at, bs[o].at);
    var len, f := Hypot(lib, d.x, d.y), ForceOn(lib, bs, s, i);
    SpringObeysHooke(lib, bs, s, i, o);
    Squares(len);
    Signs(s.ks, s.restlen - len);
    Signs(len, Times(s.ks, s.restlen - len));
    Products(Times(s.ks, s.restlen - len), len, 0.0);
    Nothing(Inner(v, d));
    Nothing(d.x);
    Nothing(d.y);
    hide ForceOn, Hypot, Roots, Offset, Leaving, Times;
    if len == s.restlen { NoForce(f, d); }
    if f == Vec(0.0, 0.0) { assert Inner(f, d) == 0.0; }
  }

  /** Along and across d, a vector is determined. */
  lemma {:induction false} NoForce(f: Vec, d: Vec)
    requires Inner(d, d) > 0.0 && Inner(f, d) == 0.0 && Cross(f, d) == 0.0
    ensures f == Vec(0.0, 0.0)
  {
    Component(f.x, f.y, d.x, d.y);
    Component(f.y, f.x, d.y, d.x);
    Products(f.x, d.x, 0.0);
    Products(f.y, d.y, 0.0);
    hide Times;
    if f.x > 0.0 { Signs(f.x, Inner(d, d)); }
    if f.x < 0.0 { Signs(-f.x, Inner(d, d)); Negations(f.x, Inner(d, d)); }
    if f.y > 0.0 { Signs(f.y, Inner(d, d)); }
    if f.y < 0.0 { Signs(-f.y, Inner(d, d)); Negations(f.y, Inner(d, d)); }
  }

  lemma {:induction false} Component(a: real, b: real, x: real, y: real)
    requires Times(a, x) + Times(b, y) == 0.0 && Times(a, y) - Times(b, x) == 0.0
    ensures Times(a, Times(x, x) + Times(y, y)) == 0.0
  {
    var u, w := Times(a, x) + Times(b, y), Times(a, y) - Times(b, x);
    Nothing(x);
    Nothing(y);
    Sums(x, Times(a, x), Times(b, y));
    Sums(y, Times(a, y), Times(b, x));
    Sums(a, Times(x, x), Times(y, y));
    Products(a, x, x);
    Products(a, y, y);
    Products(b, y, x);
    Products(b, x, y);
    Products(y, x, 0.0);
    hide Times;
  }

  /** A vector along d is a multiple of d. */
  lemma {:induction false} MultipleOf(f: Vec, d: Vec) returns (t: real)
    requires Inner(d, d) > 0.0 && Cross(f, d) == 0.0
    ensures f == Stretched(t, d) && Times(t, Inner(d, d)) == Inner(f, d)
  {
    t := Inner(f, d) / Inner(d, d);
    Quotients(Inner(f, d), Inner(d, d));
    Parallel(t, d, d);
    InnerOfLess(f, Stretched(t, d), d);
    hide Inner, Cross, Times, Stretched;
    NoForce(Less(f, Stretched(t, d)), d) by { CrossOfLess(f, Stretched(t, d), d); }
    SameVector(f, Stretched(t, d));
  }

  lemma {:induction false} SameVector(u: Vec, v: Vec)
    requires Less(u, v) == Vec(0.0, 0.0)
    ensures u == v
  {
  }

  lemma {:induction false} CrossOfLess(u: Vec, v: Vec, w: Vec)
    ensures Cross(Less(u, v), w) == Cross(u, w) - Cross(v, w)
  {
    Sums(w.y, u.x, v.x);
    Sums(w.x, u.y, v.y);
    hide Times;
  }

  /** What damping adds to the force on an end never does positive work on the relative motion. */
  lemma {:induction false} DampingTakesEnergy(lib: Libm, bs: seq<Body>, s: Spring, i: nat, o: nat)
    requires Roots(lib) && Joins(bs, s, i, o) && bs[i].mass != 0.0 && s.kd >= 0.0
    ensures var d, v := Offset(bs[i].at, bs[o].at), Leaving(bs[i].at, bs[o].at);
            var damping := Less(ForceOn(lib, bs, s, i), ForceOn(lib, bs, s.(kd := 0.0), i));
            && Inner(damping, v) <= 0.0
            && Times(Inner(damping, v), Inner(d, d)) == -Times(s.kd, Times(Inner(v, d), Inner(v, d)))
  {
    var d, v := Offset(bs[i].at, bs[o].at), Leaving(bs[i].at, bs[o].at);
    var f, f0 := ForceOn(lib, bs, s, i), ForceOn(lib, bs, s.(kd := 0.0), i);
    SpringObeysHooke(lib, bs, s, i, o);
    SpringObeysHooke(lib, bs, s.(kd := 0.0), i, o);
    var len, w := Hypot(lib, d.x, d.y), Inner(v, d);
    Squares(len);
    Nothing(w);
    assert HookeTimes(s, len, w) - HookeTimes(s.(kd := 0.0), len, w) == -Times(s.kd, w);
    InnerOfLess(f, f0, d);
    CrossOfLess(f, f0, d);
    hide ForceOn, Hypot, Roots, Offset, Leaving, Times, Inner, Cross, Stretched, HookeTimes, Less;
    var t := MultipleOf(Less(f, f0), d);
    Parallel(t, d, v);
    Commuted(d, v);
    WorkOfDamping(Inner(Less(f, f0), v), t, Inner(d, d), s.kd, w);
  }

  lemma {:induction false} Commuted(u: Vec, v: Vec)
    ensures Inner(u, v) == Inner(v, u)
  {
    Products(u.x, v.x, 0.0);
    Products(u.y, v.y, 0.0);
    hide Times;
  }

  lemma {:induction false} WorkOfDamping(work: real, t: real, square: real, kd: real, w: real)
    requires square > 0.0 && kd >= 0.0 && Times(t, square) == -Times(kd, w) && work == Times(t, w)
    ensures work <= 0.0 && Times(work, square) == -Times(kd, Times(w, w))
  {
    Products(t, w, square);
    Products(t, square, w);
    Products(w, square, 0.0);
    Products(kd, w, w);
    Negations(Times(kd, w), w);
    Squares(w);
    Nothing(Times(w, w));
    Products(square, work, 0.0);
    hide Times;
    if kd > 0.0 { Signs(kd, Times(w, w)); }
    Signs(square, work);
  }

  /** Every spring adds its pull to the rest, and there is nothing else but the global forces. */
  lemma {:induction false} SpringAdds(lib: Libm, bs: seq<Body>, ss: seq<Spring>, s: Spring, mst: Settings, i: nat)
    requires i < |bs| && SpringsFit(bs, ss + [s])
    ensures SpringsFit(bs, ss)
    ensures FieldAccel(Field(lib, ss + [s], mst), bs, i)
         == Sum(FieldAccel(Field(lib, ss, mst), bs, i), Pull(lib, bs, s, i))
    ensures FieldAccel(Field(lib, [], mst), bs, i) == External(lib, bs, mst, i)
  {
    forall j | 0 <= j < |ss| && ss[j].alive ensures ss[j].m1 < |bs| && ss[j].m2 < |bs| {
      assert (ss + [s])[j] == ss[j];
    }
    AccelOfFirst(lib, bs, ss, s, mst, i, |ss|);
    hide Pull, External;
  }

  lemma {:induction false} AccelOfFirst(lib: Libm, bs: seq<Body>, ss: seq<Spring>, s: Spring, mst: Settings, i: nat,
                                        n: nat)
    requires i < |bs| && n <= |ss| && SpringsFit(bs, ss + [s]) && SpringsFit(bs, ss)
    ensures Accel(lib, bs, ss + [s], mst, i, n) == Accel(lib, bs, ss, mst, i, n)
  {
    hide Pull, External;
    if n > 0 { AccelOfFirst(lib, bs, ss, s, mst, i, n - 1); }
  }

  // ---------------------------------------------------------------------------
  // Global forces
  // ---------------------------------------------------------------------------

  /** Every global force adds to the rest what it is by itself. */
  lemma {:induction false} GravityAdds(lib: Libm, bs: seq<Body>, mst: Settings, i: nat)
    requires i < |bs|
    ensures External(lib, bs, mst, i)
         == Sum(External(lib, bs, mst.(gravity := mst.gravity.(on := false)), i), PullOfGravity(lib, mst.gravity))
  {
    hide Attraction, WallForce, Centring, Centre, PullOfGravity;
    SameWithoutGravity(lib, bs, mst, bs[i]);
  }

  lemma {:induction false} SameWithoutGravity(lib: Libm, bs: seq<Body>, mst: Settings, b: Body)
    ensures var off := mst.(gravity := mst.gravity.(on := false));
            && Gravity(lib, mst) == PullOfGravity(lib, mst.gravity) && Gravity(lib, off) == Vec(0.0, 0.0)
            && Centre(bs, off) == Centre(bs, mst) && Centring(bs, off) == Centring(bs, mst)
            && Attraction(lib, bs, off, b) == Attraction(lib, bs, mst, b)
            && WallForce(lib, off, b) == WallForce(lib, mst, b)
  {
    hide SoftAttraction, MomentsOf;
  }

  /** Drag opposes the motion, in proportion to it. */
  lemma {:induction false} DragOpposes(lib: Libm, bs: seq<Body>, mst: Settings, i: nat)
    requires i < |bs|
    ensures External(lib, bs, mst, i)
         == Sum(External(lib, bs, mst.(visc := 0.0), i), Vec(-(mst.visc * bs[i].at.vx), -(mst.visc * bs[i].at.vy)))
  {
    hide Attraction, WallForce, Centring, Centre, Gravity;
    SameWithoutDrag(lib, bs, mst, bs[i]);
  }

  lemma {:induction false} SameWithoutDrag(lib: Libm, bs: seq<Body>, mst: Settings, b: Body)
    ensures var off := mst.(visc := 0.0);
            && Gravity(lib, off) == Gravity(lib, mst)
            && Centre(bs, off) == Centre(bs, mst) && Centring(bs, off) == Centring(bs, mst)
            && Attraction(lib, bs, off, b) == Attraction(lib, bs, mst, b)
            && WallForce(lib, off, b) == WallForce(lib, mst, b)
  {
    hide SoftAttraction, MomentsOf;
  }

  lemma {:induction false} AttractionAdds(lib: Libm, bs: seq<Body>, mst: Settings, i: nat)
    requires i < |bs|
    ensures External(lib, bs, mst, i)
         == Sum(External(lib, bs, mst.(attract := mst.attract.(on := false)), i), Attraction(lib, bs, mst, bs[i]))
  {
    var off := mst.(attract := mst.attract.(on := false));
    hide Attraction, WallForce, Base;
    assert Attraction(lib, bs, off, bs[i]) == Vec(0.0, 0.0) && WallForce(lib, off, bs[i]) == WallForce(lib, mst, bs[i])
        && Base(lib, bs, off, i) == Base(lib, bs, mst, i) by { SameWithoutAttraction(lib, bs, mst, i); }
  }

  lemma {:induction false} SameWithoutAttraction(lib: Libm, bs: seq<Body>, mst: Settings, i: nat)
    requires i < |bs|
    ensures var off := mst.(attract := mst.attract.(on := false));
            && Attraction(lib, bs, off, bs[i]) == Vec(0.0, 0.0)
            && WallForce(lib, off, bs[i]) == WallForce(lib, mst, bs[i])
            && Base(lib, bs, off, i) == Base(lib, bs, mst, i)
  {
    hide MomentsOf, SoftAttraction, PullOfGravity;
  }

  lemma {:induction false} WallForceAdds(lib: Libm, bs: seq<Body>, mst: Settings, i: nat)
    requires i < |bs|
    ensures External(lib, bs, mst, i)
         == Sum(External(lib, bs, mst.(wall := mst.wall.(on := false)), i), WallForce(lib, mst, bs[i]))
  {
    hide Attraction, WallForce, Base;
    SameWithoutWalls(lib, bs, mst, i);
  }

  lemma {:induction false} SameWithoutWalls(lib: Libm, bs: seq<Body>, mst: Settings, i: nat)
    requires i < |bs|
    ensures var off := mst.(wall := mst.wall.(on := false));
            && Attraction(lib, bs, off, bs[i]) == Attraction(lib, bs, mst, bs[i])
            && WallForce(lib, off, bs[i]) == Vec(0.0, 0.0)
            && Base(lib, bs, off, i) == Base(lib, bs, mst, i)
  {
    hide MomentsOf, SoftAttraction, PullOfGravity;
  }

  lemma {:induction false} CentringAdds(lib: Libm, bs: seq<Body>, mst: Settings, i: nat)
    requires i < |bs|
    ensures External(lib, bs, mst, i)
         == Sum(External(lib, bs, mst.(cmass := mst.cmass.(on := false)), i),
                if i == mst.centre && bs[i].alive then Vec(0.0, 0.0) else Centring(bs, mst))
  {
    hide Attraction, WallForce, Centring, Gravity;
    SameWithoutCentring(lib, bs, mst, bs[i]);
  }

  lemma {:induction false} SameWithoutCentring(lib: Libm, bs: seq<Body>, mst: Settings, b: Body)
    ensures var off := mst.(cmass := mst.cmass.(on := false));
            && Gravity(lib, off) == Gravity(lib, mst) && Centring(bs, off) == Vec(0.0, 0.0)
            && Centre(bs, off) == Centre(bs, mst)
            && Attraction(lib, bs, off, b) == Attraction(lib, bs, mst, b)
            && WallForce(lib, off, b) == WallForce(lib, mst, b)
  {
    hide SoftAttraction, MomentsOf;
  }

  // ---------------------------------------------------------------------------
  // Where the global forces point
  // ---------------------------------------------------------------------------

  /** t without its fraction, nearer zero. */
  predicate CutOff(t: real, c: real) {
    Abs(t - c) < 1.0 && if t >= 0.0 then 0.0 <= c <= t else t <= c <= 0.0
  }

  /** Gravity of strength val points down at angle zero, to the right at 90 degrees; each
      component loses its fraction. */
  lemma {:induction false} GravityPoints(lib: Libm, f: Force)
    requires f.on
    ensures var g, angle := PullOfGravity(lib, f), f.misc * 3.14159265358979323846 / 180.0;
            CutOff(f.val * lib.Sin(angle), g.x) && CutOff(-(f.val * lib.Cos(angle)), g.y)
  {
    var angle := f.misc * 3.14159265358979323846 / 180.0;
    TruncCutsOff(f.val * lib.Sin(angle));
    TruncCutsOff(-(f.val * lib.Cos(angle)));
    hide Trunc, CutOff;
  }

  lemma {:induction false} TruncCutsOff(t: real)
    ensures CutOff(t, Trunc(t))
  {
  }

  /** The centre is the living mass chosen for it, else the middle of the room. */
  lemma {:induction false} CentrePoint(bs: seq<Body>, mst: Settings)
    ensures var c, i := CentreAt(bs, mst), mst.centre;
            if 0 <= i < |bs| && bs[i].alive then c == Vec(bs[i].at.x, bs[i].at.y)
            else c.x + c.x == mst.wid as real && c.y + c.y == mst.ht as real
  {
  }

  /** The force of a point at offset d and distance `mag` is along d. */
  lemma {:induction false} AttractedIs(lib: Libm, f: Force, d: Vec, mag: real)
    requires PositivePowers(lib) && mag > 0.0
    ensures lib.Pow(mag, f.misc) > 0.0
    ensures AttractedBy(lib, f, d.x, d.y, mag) == Stretched(f.val / lib.Pow(mag, f.misc) / mag, d)
  {
    assert PowerAt(lib, mag, f.misc);
    var q := f.val / lib.Pow(mag, f.misc);
    Plain(q, d.x);
    Plain(q, d.y);
    QuotientOfProduct(q, d.x, mag);
    QuotientOfProduct(q, d.y, mag);
    hide Times;
    assert lib.Div(f.val, lib.Pow(mag, f.misc)) == q;
  }

  lemma {:induction false} QuotientOfProduct(q: real, x: real, m: real)
    requires m > 0.0
    ensures Times(q, x) / m == Times(q / m, x)
  {
  }

  /** Inside `reach` the pull shrinks with the square of the distance; at `reach` both agree. */
  function PullAt(lib: Libm, f: Force, dist: real, reach: real): real {
    if dist < reach then lib.Div(Times(f.val, lib.Div(dist, reach)), Times(lib.Pow(reach, f.misc), reach))
    else lib.Div(f.val, Times(lib.Pow(dist, f.misc), dist))
  }

  lemma {:induction false} SoftAttractionIs(lib: Libm, f: Force, d: Vec, reach: real)
    requires Roots(lib) && PositivePowers(lib) && (d.x != 0.0 || d.y != 0.0) && reach > 0.0
    ensures var dist := Hypot(lib, d.x, d.y);
            dist > 0.0 && SoftAttraction(lib, f, d.x, d.y, reach) == Stretched(PullAt(lib, f, dist, reach), d)
  {
    LengthIsRoot(lib, d);
    var dist := Hypot(lib, d.x, d.y);
    hide Hypot, Roots, Times, AttractedBy, PositivePowers;
    if dist < reach {
      var k := dist / reach;
      AttractedIs(lib, f, Stretched(k, d), reach);
      Plain(k, d.x);
      Plain(k, d.y);
      assert SoftAttraction(lib, f, d.x, d.y, reach)
          == AttractedBy(lib, f, Stretched(k, d).x, Stretched(k, d).y, reach);
      var p := lib.Pow(reach, f.misc);
      TwiceDivided(f.val, k, p, reach);
      StretchedTwice(f.val / p / reach, k, d);
      PullNear(lib, f, dist, reach, k);
      assert SoftAttraction(lib, f, d.x, d.y, reach) == Stretched(f.val / p / reach, Stretched(k, d));
    } else {
      AttractedIs(lib, f, d, dist);
      TwiceDivided(f.val, 1.0, lib.Pow(dist, f.misc), dist);
      assert PullAt(lib, f, dist, reach) == f.val / lib.Pow(dist, f.misc) / dist;
      assert SoftAttraction(lib, f, d.x, d.y, reach) == AttractedBy(lib, f, d.x, d.y, dist);
    }
  }

  lemma {:induction false} PullNear(lib: Libm, f: Force, dist: real, reach: real, k: real)
    requires dist < reach && reach > 0.0 && k == dist / reach && Times(lib.Pow(reach, f.misc), reach) > 0.0
    ensures PullAt(lib, f, dist, reach) == Times(f.val, k) / Times(lib.Pow(reach, f.misc), reach)
  {
    hide Times;
    assert lib.Div(dist, reach) == k;
  }

  lemma {:induction false} StretchedTwice(q: real, k: real, d: Vec)
    ensures Stretched(q, Stretched(k, d)) == Stretched(Times(q, k), d)
  {
    Products(q, k, d.x);
    Products(q, k, d.y);
    hide Times;
  }

  lemma {:induction false} TwiceDivided(v: real, k: real, p: real, m: real)
    requires p > 0.0 && m > 0.0
    ensures Times(p, m) > 0.0 && v / p / m == v / Times(p, m) && Times(v / p / m, k) == Times(v, k) / Times(p, m)
  {
    Signs(p, m);
    var q := v / p / m;
    Quotients(v / p, m);
    Quotients(v, p);
    Products(q, m, p);
    Products(m, p, 0.0);
    Products(q, Times(p, m), k);
    Products(q, k, Times(p, m));
    Products(k, Times(p, m), q);
    hide Times;
    QuotientUnique(v, Times(p, m), q);
    QuotientUnique(Times(v, k), Times(p, m), Times(q, k));
  }

  lemma {:induction false} QuotientUnique(a: real, b: real, q: real)
    requires b > 0.0 && Times(q, b) == a
    ensures a / b == q
  {
  }

  /** A mass off the centre point is pulled straight towards it: with strength val over the
      distance to the power misc beyond its radius and the point's, less nearer. */
  lemma {:induction false} AttractionPoints(lib: Libm, bs: seq<Body>, mst: Settings, b: Body)
    requires Roots(lib) && PositivePowers(lib) && mst.attract.on && b.radius >= 0
    requires var c := CentreAt(bs, mst); c.x != b.at.x || c.y != b.at.y
    ensures var c, f, reach := CentreAt(bs, mst), mst.attract, b.radius as real + 1.0;
            var d := Vec(c.x - b.at.x, c.y - b.at.y);
            var dist, a := Hypot(lib, d.x, d.y), Attraction(lib, bs, mst, b);
            && dist > 0.0 && Times(dist, dist) == Inner(d, d)
            && a == Stretched(PullAt(lib, f, dist, reach), d)
            && (f.val > 0.0 ==> PullAt(lib, f, dist, reach) > 0.0 && Inner(a, d) > 0.0)
  {
    var c, f, reach := CentreAt(bs, mst), mst.attract, b.radius as real + 1.0;
    var d := Vec(c.x - b.at.x, c.y - b.at.y);
    hide CentreAt, Roots, PositivePowers, SoftAttraction, PullAt;
    LengthIsRoot(lib, d);
    SoftAttractionIs(lib, f, d, reach);
    hide Hypot, Times, Inner;
    var dist := Hypot(lib, d.x, d.y);
    Parallel(PullAt(lib, f, dist, reach), d, d);
    if f.val > 0.0 {
      PullIsPositive(lib, f, dist, reach);
      Signs(PullAt(lib, f, dist, reach), Inner(d, d));
    }
  }

  lemma {:induction false} PullIsPositive(lib: Libm, f: Force, dist: real, reach: real)
    requires PositivePowers(lib) && f.val > 0.0 && dist > 0.0 && reach > 0.0
    ensures PullAt(lib, f, dist, reach) > 0.0
  {
    assert PowerAt(lib, dist, f.misc) && PowerAt(lib, reach, f.misc);
    Signs(lib.Pow(dist, f.misc), dist);
    Signs(lib.Pow(reach, f.misc), reach);
    Positive(dist, reach);
    Signs(f.val, dist / reach);
    hide Times;
    if dist < reach {
      Positive(Times(f.val, dist / reach), Times(lib.Pow(reach, f.misc), reach));
    } else {
      Positive(f.val, Times(lib.Pow(dist, f.misc), dist));
    }
  }

  lemma {:induction false} Positive(a: real, b: real)
    requires a > 0.0 && b > 0.0
    ensures a / b > 0.0
  {
  }

  /** The settings with no wall but w. */
  function Only(mst: Settings, w: Walls.Wall): Settings {
    mst.(left := mst.left && w.LeftWall?, right := mst.right && w.RightWall?,
         bottom := mst.bottom && w.BottomWall?, top := mst.top && w.TopWall?)
  }

  /** The walls add up. */
  lemma {:induction false} WallsAddUp(lib: Libm, mst: Settings, b: Body)
    requires mst.wall.on
    ensures WallForce(lib, mst, b)
         == Sum(Sum(WallForce(lib, Only(mst, Walls.LeftWall), b), WallForce(lib, Only(mst, Walls.RightWall), b)),
                Sum(WallForce(lib, Only(mst, Walls.BottomWall), b), WallForce(lib, Only(mst, Walls.TopWall), b)))
  {
    hide *;
    AllWalls(lib, mst, b);
    OneWall(lib, mst, b, Walls.LeftWall);
    OneWall(lib, mst, b, Walls.RightWall);
    OneWall(lib, mst, b, Walls.BottomWall);
    OneWall(lib, mst, b, Walls.TopWall);
    var r, wid, ht := b.radius as real, mst.wid as real, mst.ht as real;
    FourPushes(WallPush(lib, mst, mst.left, b.at.x - r), WallPush(lib, mst, mst.right, wid - r - b.at.x),
               WallPush(lib, mst, mst.bottom, b.at.y - r), WallPush(lib, mst, mst.top, ht - r - b.at.y));
  }

  lemma {:induction false} FourPushes(left: real, right: real, bottom: real, top: real)
    ensures Sum(Sum(Vec(-left, 0.0), Vec(right, 0.0)), Sum(Vec(0.0, -bottom), Vec(0.0, top)))
         == Vec(0.0 - left + right, top - bottom)
  {
  }

  lemma {:induction false} AllWalls(lib: Libm, mst: Settings, b: Body)
    requires mst.wall.on
    ensures var r, wid, ht := b.radius as real, mst.wid as real, mst.ht as real;
            WallForce(lib, mst, b)
            == Vec(0.0 - WallPush(lib, mst, mst.left, b.at.x - r) + WallPush(lib, mst, mst.right, wid - r - b.at.x),
                   WallPush(lib, mst, mst.top, ht - r - b.at.y) - WallPush(lib, mst, mst.bottom, b.at.y - r))
  {
    hide WallPush;
  }

  lemma {:induction false} OneWall(lib: Libm, mst: Settings, b: Body, w: Walls.Wall)
    requires mst.wall.on
    ensures var r, wid, ht := b.radius as real, mst.wid as real, mst.ht as real;
            WallForce(lib, Only(mst, w), b) ==
              match w
              case LeftWall => Vec(-WallPush(lib, mst, mst.left, b.at.x - r), 0.0)
              case RightWall => Vec(WallPush(lib, mst, mst.right, wid - r - b.at.x), 0.0)
              case BottomWall => Vec(0.0, -WallPush(lib, mst, mst.bottom, b.at.y - r))
              case TopWall => Vec(0.0, WallPush(lib, mst, mst.top, ht - r - b.at.y))
  {
    SamePushes(lib, mst, w);
    hide WallPush;
  }

  lemma {:induction false} SamePushes(lib: Libm, mst: Settings, w: Walls.Wall)
    ensures forall on, dist :: WallPush(lib, Only(mst, w), on, dist) == WallPush(lib, mst, on, dist)
    ensures forall dist :: WallPush(lib, Only(mst, w), false, dist) == 0.0
  {
    hide Libm.Div;
  }

  /** A wall by itself pushes a mass in front of it straight away, with strength val over its
      distance to the power misc, but no nearer than 1; one behind it not at all. */
  lemma {:induction false} WallPushesAway(lib: Libm, mst: Settings, b: Body, w: Walls.Wall)
    requires PositivePowers(lib) && mst.wall.on && Walls.On(mst, w)
    ensures var a, dist := WallForce(lib, Only(mst, w), b), -Walls.Beyond(mst, b.radius as real, w, b.at);
            var push := Phase(0.0, 0.0, a.x, a.y);
            && Walls.AlongWall(w, push) == 0.0
            && -Walls.Into(w, push) == (if dist < 0.0 then 0.0
                                        else mst.wall.val / PowerOf(lib, AtLeastOne(dist), mst.wall.misc))
            && (mst.wall.val > 0.0 && dist >= 0.0 ==> Walls.Into(w, push) < 0.0)
  {
    var dist := -Walls.Beyond(mst, b.radius as real, w, b.at);
    if dist >= 0.0 {
      var near := AtLeastOne(dist);
      var p := PowerOf(lib, near, mst.wall.misc);
      assert lib.Pow(near, mst.wall.misc) == p;
      NegatedQuotient(mst.wall.val, p);
      if mst.wall.val > 0.0 { Positive(mst.wall.val, p); }
      assert lib.Div(-mst.wall.val, p) == -(mst.wall.val / p);
    }
    hide Libm.Div, PowerOf;
  }

  function AtLeastOne(t: real): real {
    if t < 1.0 then 1.0 else t
  }

  function PowerOf(lib: Libm, t: real, u: real): (p: real)
    requires PositivePowers(lib) && t > 0.0
    ensures p > 0.0
  {
    assert PowerAt(lib, t, u);
    lib.Pow(t, u)
  }

  lemma {:induction false} NegatedQuotient(a: real, b: real)
    requires b > 0.0
    ensures -a / b == -(a / b)
  {
  }

  // ---------------------------------------------------------------------------
  // The force on the centre of mass
  // ---------------------------------------------------------------------------

  /** The bodies of which the centre of mass is kept in place: all but the centre mass. */
  function Others(bs: seq<Body>, centre: int): (os: seq<Body>)
    ensures |os| == |bs|
  {
    if 0 <= centre < |bs| then bs[centre := bs[centre].(fixed := true)] else bs
  }

  function Places(bs: seq<Body>): (r: seq<Vec>)
    ensures |r| == |bs|
  {
    seq(|bs|, i requires 0 <= i < |bs| => Vec(bs[i].at.x, bs[i].at.y))
  }

  lemma {:induction false} DotStep(w: seq<real>, v: seq<real>, n: nat)
    requires |w| == |v| && n < |w|
    ensures Momentum.Dot(w[..n + 1], v[..n + 1]) == Momentum.Dot(w[..n], v[..n]) + Times(w[n], v[n])
  {
    assert w[..n + 1][..n] == w[..n] && v[..n + 1][..n] == v[..n];
  }

  /** The loop's sums over the first n masses. */
  lemma {:induction false} MomentsUpTo(bs: seq<Body>, centre: int, n: nat)
    requires n <= |bs|
    ensures var m, w := MomentsOf(bs, centre, n), Weights(Others(bs, centre))[..n];
            var p, v := Places(bs), Velocities(bs);
            && m.mass == Dot(w, Gliding.Ones(|bs|)[..n])
            && m.x == Dot(w, Xs(p)[..n]) && m.y == Dot(w, Ys(p)[..n])
            && m.vx == Dot(w, Xs(v)[..n]) && m.vy == Dot(w, Ys(v)[..n])
  {
    if n > 0 {
      MomentsUpTo(bs, centre, n - 1);
      var w, p, v := Weights(Others(bs, centre)), Places(bs), Velocities(bs);
      DotStep(w, Gliding.Ones(|bs|), n - 1);
      DotStep(w, Xs(p), n - 1);
      DotStep(w, Ys(p), n - 1);
      DotStep(w, Xs(v), n - 1);
      DotStep(w, Ys(v), n - 1);
      hide Dot, Weights, Others, Times, MomentsOf;
      MomentsStep(bs, centre, n - 1);
    }
  }

  lemma {:induction false} MomentsStep(bs: seq<Body>, centre: int, n: nat)
    requires n < |bs|
    ensures var w, p := Weights(Others(bs, centre))[n], bs[n].at;
            MomentsOf(bs, centre, n + 1) == MomentsPlus(MomentsOf(bs, centre, n), w, p)
  {
    var w, p := Weights(Others(bs, centre))[n], bs[n].at;
    Plain(w, 1.0);
    Plain(w, p.x);
    Plain(w, p.y);
    Plain(w, p.vx);
    Plain(w, p.vy);
    if w == 0.0 {
      Nothing(p.x);
      Nothing(p.y);
      Nothing(p.vx);
      Nothing(p.vy);
    }
    hide Times;
    assert w == if n != centre && bs[n].Free() then bs[n].mass else 0.0;
  }

  function MomentsPlus(m: Moments, w: real, p: Phase): Moments {
    Moments(m.mass + Times(w, 1.0), m.x + Times(w, p.x), m.y + Times(w, p.y), m.vx + Times(w, p.vx),
            m.vy + Times(w, p.vy))
  }

  /** They are the total mass, the momentum and the sum of mass times place. */
  lemma {:induction false} MomentsAreSums(bs: seq<Body>, centre: int)
    ensures var m, os := MomentsOf(bs, centre, |bs|), Others(bs, centre);
            && m.mass == Gliding.Mass(os) && Vec(m.vx, m.vy) == Momentum.Momentum(os)
            && Vec(m.x, m.y) == Vec(Dot(Weights(os), Xs(Places(os))), Dot(Weights(os), Ys(Places(os))))
  {
    MomentsUpTo(bs, centre, |bs|);
    var os := Others(bs, centre);
    assert Places(os) == Places(bs) && Velocities(os) == Velocities(bs);
    hide Others, MomentsOf, Dot;
    assert forall s: seq<real> :: |s| == |bs| ==> s[..|bs|] == s;
  }

  /** The centring force on each of them, times their mass, draws the centre of mass back to the
      centre and brakes its motion. */
  lemma {:induction false} CentringDrawsBack(bs: seq<Body>, mst: Settings)
    requires mst.cmass.on && Gliding.Mass(Others(bs, Centre(bs, mst))) != 0.0
    ensures var os, c, f := Others(bs, Centre(bs, mst)), CentreAt(bs, mst), mst.cmass;
            var m, p := Gliding.Mass(os), Momentum.Momentum(os);
            var x, y := Dot(Weights(os), Xs(Places(os))) / m, Dot(Weights(os), Ys(Places(os))) / m;
            Stretched(m, Centring(bs, mst))
            == Opposite(Sum(Stretched(f.val, Less(Vec(x, y), c)), Stretched(f.misc, Vec(p.x / m, p.y / m))))
  {
    MomentsAreSums(bs, Centre(bs, mst));
    var m, c, f := MomentsOf(bs, Centre(bs, mst), |bs|), CentreAt(bs, mst), mst.cmass;
    hide Others, MomentsOf, Dot, Centre, CentreAt, Gliding.Mass, Momentum.Momentum, Weights;
    Quotients(f.val * (m.x / m.mass - c.x) + f.misc * (m.vx / m.mass), m.mass);
    Quotients(f.val * (m.y / m.mass - c.y) + f.misc * (m.vy / m.mass), m.mass);
    Negations(m.mass, (f.val * (m.x / m.mass - c.x) + f.misc * (m.vx / m.mass)) / m.mass);
    Negations(m.mass, (f.val * (m.y / m.mass - c.y) + f.misc * (m.vy / m.mass)) / m.mass);
    Plain(f.val, m.x / m.mass - c.x);
    Plain(f.val, m.y / m.mass - c.y);
    Plain(f.misc, m.vx / m.mass);
    Plain(f.misc, m.vy / m.mass);
    hide Times;
  }
}
