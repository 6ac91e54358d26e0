/**
 The bitmap resampler: for every destination coordinate a window of weighted source
 coordinates, mirrored at the edges, applied along rows and then along columns in
 fixed point.  Floats are modelled as reals.
 */
module BitmapScale {
  import opened Common

  // ---------------------------------------------------------------------------
  // Filters
  // ---------------------------------------------------------------------------

  /** The filters that are nowhere negative. */
  datatype FilterType = Cubic | Box | Triangle | Bell | BSpline

  function Cube(u: real): real {
    u * u * u
  }

  /** 2t^3 - 3t^2 + 1 */
  function Hermite(t: real): real {
    (2.0 * t - 3.0) * t * t + 1.0
  }

  function Spline(t: real): real {
    0.5 * (t * t) * t - t * t + 2.0 / 3.0
  }

  function Filter(f: FilterType, x: real): real {
    var t := Abs(x);
    match f
    case Cubic => if t < 1.0 then Hermite(t) else 0.0
    case Box => if -0.5 < x <= 0.5 then 1.0 else 0.0
    case Triangle => if t < 1.0 then 1.0 - t else 0.0
    case Bell => if t < 0.5 then 0.75 - Square(t) else if t < 1.5 then 0.5 * Square(t - 1.5) else 0.0
    case BSpline => if t < 1.0 then Spline(t) else if t < 2.0 then (1.0 / 6.0) * Cube(2.0 - t) else 0.0
  }

  function Square(u: real): real {
    u * u
  }

  lemma {:induction false} Product(a: real, b: real) returns (p: real)
    requires a >= 0.0 && b >= 0.0
    ensures p == a * b >= 0.0
    ensures a > 0.0 && b > 0.0 ==> p > 0.0
    ensures b <= 1.0 ==> p <= a
  {
    p := a * b;
  }

  /** 1 - 3t^2 + 2t^3 = (1 - t)^2 (1 + 2t) */
  lemma {:induction false} HermiteFactored(t: real, p: real, q: real)
    requires p == (1.0 - t) * (1.0 - t) && q == p * (1.0 + 2.0 * t)
    ensures Hermite(t) == q
  {
    var a := t * t;
    assert p == 1.0 - 2.0 * t + a;
    assert q == (1.0 - 2.0 * t + a) + 2.0 * (t - 2.0 * a + a * t);
  }

  lemma {:induction false} HermiteIsPositive(t: real)
    requires 0.0 <= t < 1.0
    ensures Hermite(t) > 0.0
  {
    var p := Product(1.0 - t, 1.0 - t);
    var q := Product(p, 1.0 + 2.0 * t);
    HermiteFactored(t, p, q);
    hide Hermite;
  }

  /** t^2 - t^3/2 = t h with h = t - t^2/2 = 1/2 - (1 - t)^2/2 */
  lemma {:induction false} SplineFactored(t: real, h: real, u: real, p: real)
    requires h == t * (1.0 - 0.5 * t) && u == (1.0 - t) * (1.0 - t) && p == h * t
    ensures h == 0.5 - 0.5 * u && Spline(t) == 2.0 / 3.0 - p
  {
    assert p == t * t - 0.5 * (t * t * t);
  }

  lemma {:induction false} SplineIsPositive(t: real)
    requires 0.0 <= t < 1.0
    ensures Spline(t) > 0.0
  {
    var h := Product(t, 1.0 - 0.5 * t);
    var u := Product(1.0 - t, 1.0 - t);
    var p := Product(h, t);
    SplineFactored(t, h, u, p);
    hide Spline;
  }

  lemma {:induction false} PowersArePositive(u: real)
    ensures Square(u) >= 0.0 && (u != 0.0 ==> Square(u) > 0.0)
    ensures u > 0.0 ==> Cube(u) > 0.0
  {
    var a := Abs(u);
    var p := Product(a, a);
    SquareOfAbs(u);
    if u > 0.0 {
      var q := Product(p, u);
    }
    hide Square;
  }

  lemma {:induction false} SquareOfAbs(u: real)
    ensures Square(u) == Abs(u) * Abs(u)
  {
  }

  lemma {:induction false} BellIsPositive(t: real)
    requires 0.0 <= t < 0.5
    ensures 0.75 - Square(t) > 0.0
  {
    var p := Product(t, 0.5 - t);
    var q := Product(t, t);
    SquareBelow(t, p, q);
  }

  lemma {:induction false} SquareBelow(t: real, p: real, q: real)
    requires p == t * (0.5 - t) && q == t * t
    ensures q == 0.5 * t - p
  {
  }

  /** Nowhere negative, and positive over the width of one source pixel. */
  lemma {:induction false} FiltersAreNonNegative(f: FilterType, x: real)
    ensures Filter(f, x) >= 0.0
    ensures -0.5 < x <= 0.5 ==> Filter(f, x) > 0.0
  {
    hide Hermite, Spline, Square, Cube;
    var t := Abs(x);
    match f
    case Cubic => if t < 1.0 { HermiteIsPositive(t); }
    case Box =>
    case Triangle =>
    case Bell =>
      if t < 0.5 { BellIsPositive(t); }
      PowersArePositive(t - 1.5);
    case BSpline =>
      if t < 1.0 { SplineIsPositive(t); }
      PowersArePositive(2.0 - t);
  }

  /** Powers of x and 1 - x. */
  lemma {:induction false} Powers(x: real, a: real, b: real, u: real, p: real, q: real)
    requires a == x * x && b == a * x && u == 1.0 - x && p == u * u && q == p * u
    ensures p == 1.0 - 2.0 * x + a && q == 1.0 - 3.0 * x + 3.0 * a - b
  {
    assert u * u == 1.0 - 2.0 * x + a;
    assert p * u == p - p * x;
    assert p * x == x - 2.0 * a + b;
  }

  lemma {:induction false} HermiteIs(t: real, a: real, b: real)
    requires a == t * t && b == a * t
    ensures Hermite(t) == 2.0 * b - 3.0 * a + 1.0
  {
    assert (2.0 * t - 3.0) * t == 2.0 * a - 3.0 * t;
    assert (2.0 * a - 3.0 * t) * t == 2.0 * b - 3.0 * a;
  }

  lemma {:induction false} SplineIs(t: real, a: real, b: real)
    requires a == t * t && b == a * t
    ensures Spline(t) == 0.5 * b - a + 2.0 / 3.0 && Cube(t) == b && Square(t) == a
  {
  }

  lemma {:induction false} HermitesSum(x: real)
    ensures Hermite(x) + Hermite(1.0 - x) == 1.0
  {
    var u := 1.0 - x;
    Powers(x, x * x, x * x * x, u, u * u, u * u * u);
    HermiteIs(x, x * x, x * x * x);
    HermiteIs(u, u * u, u * u * u);
    hide Hermite;
  }

  lemma {:induction false} SplinesSum(x: real)
    ensures Spline(x) + Spline(1.0 - x) + (1.0 / 6.0) * Cube(1.0 - x) + (1.0 / 6.0) * Cube(x) == 1.0
  {
    var u := 1.0 - x;
    Powers(x, x * x, x * x * x, u, u * u, u * u * u);
    SplineIs(x, x * x, x * x * x);
    SplineIs(u, u * u, u * u * u);
    hide Spline, Cube;
  }

  lemma {:induction false} SquaresSum(x: real)
    ensures Square(x + 0.5) + Square(x - 0.5) == 2.0 * Square(x) + 0.5
    ensures Square(x) == Square(-x)
  {
  }

  /** The filters are a partition of unity: shifted by whole pixels they sum to one
      everywhere. */
  lemma {:induction false} FiltersSumToOne(f: FilterType, x: real)
    requires 0.0 <= x < 1.0
    ensures Filter(f, x + 1.0) + Filter(f, x) + Filter(f, x - 1.0) + Filter(f, x - 2.0) == 1.0
  {
    hide Hermite, Spline, Square, Cube;
    match f
    case Cubic =>
      HermitesSum(x);
      HermiteAtZero();
    case Box =>
    case Triangle =>
    case Bell =>
      SquareAtHalf();
      if x < 0.5 {
        SquaresSum(x);
        SquaresSum(x + 0.5);
        SquaresSum(x - 0.5);
      } else {
        SquaresSum(1.0 - x);
        SquaresSum(1.5 - x);
        SquaresSum(0.5 - x);
      }
    case BSpline =>
      SplinesSum(x);
      SplineAtZero();
  }

  lemma {:induction false} SquareAtHalf()
    ensures Square(0.5) == 0.25 && Square(-1.0) == 1.0 && Square(0.0) == 0.0
  {
  }

  lemma {:induction false} HermiteAtZero()
    ensures Hermite(0.0) == 1.0 && Hermite(1.0) == 0.0
  {
  }

  lemma {:induction false} SplineAtZero()
    ensures Cube(0.0) == 0.0 && Spline(1.0) == 1.0 / 6.0 && Cube(1.0) == 1.0 && Spline(0.0) == 2.0 / 3.0
  {
  }

  // ---------------------------------------------------------------------------
  // Windows
  // ---------------------------------------------------------------------------

  function Ceil(x: real): int {
    -((-x).Floor)
  }

  /** One axis: the filter, its half-width on the source axis, the scale applied to offsets. */
  datatype Axis = Axis(filter: FilterType, scale: real, size: real, fscale: real, src: int)
  {
    ghost predicate Valid() {
      scale > 0.0 && size > 0.0 && fscale > 0.0 && src > 0
    }

    function Centre(i: nat): real
      requires scale > 0.0
    {
      i as real / scale
    }

    function First(i: nat): int
      requires scale > 0.0
    {
      Ceil(Centre(i) - size)
    }

    function Last(i: nat): int
      requires scale > 0.0
    {
      (Centre(i) + size).Floor
    }

    /** Positions off the edges are mirrored back. */
    function Source(j: int): int {
      if j < 0 then -j else if j >= src then (src - j) + src - 1 else j
    }

    function Offset(c: real, j: int): real {
      Times(c - j as real, fscale)
    }

    function Raw(c: real, j: int): real {
      Times(Filter(filter, Offset(c, j)), fscale)
    }
  }

  function MakeAxis(filter: FilterType, scale: real, filterwidth: real, src: int): Axis
    requires scale > 0.0
  {
    if scale < 1.0 then Axis(filter, scale, filterwidth / scale, scale, src)
    else Axis(filter, scale, filterwidth, 1.0, src)
  }

  lemma {:induction false} Quotient(a: real, b: real) returns (q: real)
    requires b > 0.0
    ensures q == a / b && q * b == a
    ensures a > 0.0 ==> q > 0.0
    ensures a >= 0.0 ==> q >= 0.0
    ensures b <= 1.0 && a >= 0.0 ==> q >= a
  {
    q := a / b;
  }

  lemma {:induction false} QuotientBelow(q: real, b: real, c: real)
    requires b > 0.0 && q * b < c * b
    ensures q < c
  {
    assert (c - q) * b > 0.0;
  }

  lemma {:induction false} MadeAxis(filter: FilterType, scale: real, filterwidth: real, src: int)
    requires scale > 0.0 && filterwidth > 0.0 && src > 0
    ensures var a := MakeAxis(filter, scale, filterwidth, src);
            a.Valid() && a.size >= filterwidth && a.fscale <= 1.0
  {
    var q := Quotient(filterwidth, scale);
  }

  /** A window never has more positions than the slots allocated for it. */
  lemma {:induction false} SlotsSuffice(a: Axis, i: nat)
    requires a.Valid()
    ensures 0 <= a.Last(i) - a.First(i) + 1 <= (2.0 * a.size + 1.0).Floor
  {
    var c := a.Centre(i);
  }

  /** With a half-width below the source size, every position is mirrored into the source. */
  lemma {:induction false} SourcesAreInRange(a: Axis, dst: nat, i: nat, j: int)
    requires a.Valid() && a.scale == dst as real / a.src as real && i < dst
    requires a.size < a.src as real && a.First(i) <= j <= a.Last(i)
    ensures 0 <= a.Source(j) < a.src
  {
    CentreInSource(a, dst, i);
  }

  /** The half-width must be below the source size: otherwise the very first position of the
      first window is mirrored beyond the end. */
  lemma {:induction false} SourcesInRangeExactly(a: Axis, dst: nat)
    requires a.Valid() && a.scale == dst as real / a.src as real && dst > 0
    ensures (forall i: nat, j: int :: i < dst && a.First(i) <= j <= a.Last(i) ==> 0 <= a.Source(j) < a.src)
            <==> a.size < a.src as real
  {
    if a.size < a.src as real {
      forall i: nat, j: int | i < dst && a.First(i) <= j <= a.Last(i) ensures 0 <= a.Source(j) < a.src {
        SourcesAreInRange(a, dst, i, j);
      }
    } else {
      FirstIsBeyond(a);
    }
  }

  lemma {:induction false} FirstIsBeyond(a: Axis)
    requires a.Valid() && a.size >= a.src as real
    ensures a.First(0) <= a.Last(0) && a.Source(a.First(0)) >= a.src
  {
    var c := Quotient(0.0, a.scale);
    assert c == a.Centre(0) == 0.0;
  }

  lemma {:induction false} CentreInSource(a: Axis, dst: nat, i: nat)
    requires a.Valid() && a.scale == dst as real / a.src as real && i < dst
    ensures 0.0 <= a.Centre(i) < a.src as real
  {
    var s, n, d := a.scale, a.src as real, dst as real;
    assert s * n == d;
    var c := Quotient(i as real, s);
    assert c == a.Centre(i);
    QuotientBelow(c, s, n);
  }

  /** Some position of the window is within half a source pixel of the centre, so the
      total weight is positive. */
  lemma {:induction false} NearestPosition(a: Axis, i: nat) returns (j: int)
    requires a.Valid() && a.size >= 0.5 && a.fscale <= 1.0
    ensures a.First(i) <= j <= a.Last(i) && a.Raw(a.Centre(i), j) > 0.0
  {
    j := NearestInWindow(a, i);
    hide Axis.Centre, Axis.First, Axis.Last;
    RawNearCentre(a, a.Centre(i), j);
  }

  lemma {:induction false} RawNearCentre(a: Axis, c: real, j: int)
    requires a.Valid() && a.fscale <= 1.0 && -0.5 < c - j as real <= 0.5
    ensures a.Raw(c, j) > 0.0
  {
    OffsetShrinks(a, c, j);
    hide Filter, Times, Axis.Offset;
    FiltersAreNonNegative(a.filter, a.Offset(c, j));
    TimesIsNonNegative(Filter(a.filter, a.Offset(c, j)), a.fscale);
  }

  lemma {:induction false} OffsetShrinks(a: Axis, c: real, j: int)
    requires 0.0 < a.fscale <= 1.0 && -0.5 < c - j as real <= 0.5
    ensures -0.5 < a.Offset(c, j) <= 0.5
  {
    ShrunkOffset(c - j as real, a.fscale);
  }

  lemma {:induction false} TimesIsNonNegative(a: real, b: real)
    requires a >= 0.0 && b > 0.0
    ensures Times(a, b) >= 0.0 && (a > 0.0 ==> Times(a, b) > 0.0)
  {
    var p := Product(a, b);
  }

  lemma {:induction false} RawIsNonNegative(a: Axis, c: real, j: int)
    requires a.Valid()
    ensures a.Raw(c, j) >= 0.0
  {
    FiltersAreNonNegative(a.filter, a.Offset(c, j));
    hide Filter, Times, Axis.Offset;
    TimesIsNonNegative(Filter(a.filter, a.Offset(c, j)), a.fscale);
  }

  lemma {:induction false} NearestInWindow(a: Axis, i: nat) returns (j: int)
    requires a.Valid() && a.size >= 0.5
    ensures a.First(i) <= j <= a.Last(i) && -0.5 < a.Centre(i) - j as real <= 0.5
  {
    j := Ceil(a.Centre(i) - 0.5);
  }

  lemma {:induction false} ShrunkOffset(t: real, f: real)
    requires -0.5 < t <= 0.5 && 0.0 < f <= 1.0
    ensures -0.5 < Times(t, f) <= 0.5
  {
    if t >= 0.0 {
      var p := Product(t, f);
    } else {
      var p := Product(-t, f);
      assert t * f == -p;
    }
  }

  // ---------------------------------------------------------------------------
  // Weights
  // ---------------------------------------------------------------------------

  const UNIT := 65530
  const ONE := 0x1_0000

  function Total(ws: seq<real>): real {
    if ws == [] then 0.0 else Total(ws[..|ws| - 1]) + ws[|ws| - 1]
  }

  /** (int)(w * (1 / total) * 65530) for a non-negative w. */
  function FixedPoint(w: real, inverse: real): int {
    (w * inverse * UNIT as real).Floor
  }

  function Sum(ns: seq<int>): int {
    if ns == [] then 0 else Sum(ns[..|ns| - 1]) + ns[|ns| - 1]
  }

  lemma {:induction false} TotalIsPositive(ws: seq<real>, k: nat)
    requires forall i :: 0 <= i < |ws| ==> ws[i] >= 0.0
    requires k < |ws| && ws[k] > 0.0
    ensures Total(ws) > 0.0
  {
    var n := |ws| - 1;
    if k < n {
      TotalIsPositive(ws[..n], k);
    } else {
      TotalIsNonNegative(ws[..n]);
    }
  }

  lemma {:induction false} TotalIsNonNegative(ws: seq<real>)
    requires forall i :: 0 <= i < |ws| ==> ws[i] >= 0.0
    ensures Total(ws) >= 0.0
  {
    if ws != [] { TotalIsNonNegative(ws[..|ws| - 1]); }
  }

  lemma {:induction false} FixedPointBounds(w: real, inverse: real) returns (p: real)
    requires w >= 0.0 && inverse > 0.0
    ensures p == w * inverse
    ensures 0 <= FixedPoint(w, inverse)
    ensures FixedPoint(w, inverse) as real <= p * UNIT as real < FixedPoint(w, inverse) as real + 1.0
  {
    p := Product(w, inverse);
  }

  /** Truncation loses less than one unit per weight. */
  lemma {:induction false} SumOfWeights(ws: seq<real>, ns: seq<int>, inverse: real) returns (p: real)
    requires inverse > 0.0 && |ns| == |ws|
    requires forall i :: 0 <= i < |ws| ==> ws[i] >= 0.0 && ns[i] == FixedPoint(ws[i], inverse)
    ensures p == Total(ws) * inverse
    ensures p * UNIT as real - |ws| as real <= Sum(ns) as real <= p * UNIT as real
    ensures ws != [] ==> p * UNIT as real - |ws| as real < Sum(ns) as real
    ensures forall i :: 0 <= i < |ns| ==> ns[i] >= 0
  {
    if ws == [] {
      p := 0.0;
    } else {
      var n := |ws| - 1;
      var q := SumOfWeights(ws[..n], ns[..n], inverse);
      var r := FixedPointBounds(ws[n], inverse);
      p := q + r;
      TotalTimes(Total(ws[..n]), ws[n], inverse, q, r);
      hide FixedPoint;
      assert forall i :: 0 <= i < n ==> ns[i] == ns[..n][i];
    }
  }

  lemma {:induction false} TotalTimes(a: real, b: real, f: real, q: real, r: real)
    requires q == a * f && r == b * f
    ensures q + r == (a + b) * f
  {
  }

  /** The weights of a window of n non-negative taps are non-negative; they sum to 65530 less
      a loss of under one for each. */
  lemma {:induction false} WeightsSumToUnit(ws: seq<real>, ns: seq<int>)
    requires Total(ws) > 0.0 && |ns| == |ws|
    requires forall i :: 0 <= i < |ws| ==> ws[i] >= 0.0 && ns[i] == FixedPoint(ws[i], 1.0 / Total(ws))
    ensures UNIT - |ws| < Sum(ns) <= UNIT
    ensures forall i :: 0 <= i < |ns| ==> ns[i] >= 0
  {
    assert ws != [];
    var inverse := Quotient(1.0, Total(ws));
    var p := SumOfWeights(ws, ns, inverse);
    assert p == 1.0;
  }

  // ---------------------------------------------------------------------------
  // The windows as the original computes them
  // ---------------------------------------------------------------------------

  datatype Contrib = Contrib(sourcepos: int, floatweight: real, weight: int)

  function Count(a: Axis, i: nat): int
    requires a.Valid()
  {
    a.Last(i) - a.First(i) + 1
  }

  function RawWeights(a: Axis, i: nat, n: nat): (ws: seq<real>)
    requires a.Valid()
    ensures |ws| == n
  {
    seq(n, k => a.Raw(a.Centre(i), a.First(i) + k))
  }

  /** Window i of an axis. */
  ghost predicate IsWindow(a: Axis, i: nat, w: seq<Contrib>)
    requires a.Valid()
  {
    && |w| == Count(a, i)
    && var ws := RawWeights(a, i, |w|);
       && (w != [] ==> Total(ws) > 0.0)
       && forall k :: 0 <= k < |w| ==>
            w[k] == Contrib(a.Source(a.First(i) + k), ws[k], FixedPoint(ws[k], 1.0 / Total(ws)))
  }

  lemma {:induction false} WindowTotal(a: Axis, i: nat)
    requires a.Valid() && a.fscale <= 1.0
    ensures Count(a, i) >= 0
    ensures Count(a, i) > 0 ==> Total(RawWeights(a, i, Count(a, i))) > 0.0
    ensures a.size >= 0.5 ==> Count(a, i) > 0
  {
    SlotsSuffice(a, i);
    if a.size >= 0.5 {
      var j := NearestPosition(a, i);
      TotalFromTap(a, i, j);
    } else if Count(a, i) > 0 {
      FirstNearCentre(a, i);
      RawNearCentre(a, a.Centre(i), a.First(i));
      TotalFromTap(a, i, a.First(i));
    }
  }

  lemma {:induction false} FirstNearCentre(a: Axis, i: nat)
    requires a.Valid() && a.size < 0.5 && a.First(i) <= a.Last(i)
    ensures -0.5 < a.Centre(i) - a.First(i) as real <= 0.5
  {
  }

  lemma {:induction false} TotalFromTap(a: Axis, i: nat, j: int)
    requires a.Valid() && a.First(i) <= j <= a.Last(i) && a.Raw(a.Centre(i), j) > 0.0
    ensures Total(RawWeights(a, i, Count(a, i))) > 0.0
  {
    var ws := RawWeights(a, i, Count(a, i));
    forall k | 0 <= k < |ws| ensures ws[k] >= 0.0 {
      RawIsNonNegative(a, a.Centre(i), a.First(i) + k);
    }
    hide Axis.Raw, Axis.Centre, Axis.First, Axis.Last, Total;
    TotalIsPositive(ws, j - a.First(i));
  }

  lemma {:induction false} OneMoreWeight(a: Axis, i: nat, n: nat)
    requires a.Valid()
    ensures Total(RawWeights(a, i, n + 1)) == Total(RawWeights(a, i, n)) + a.Raw(a.Centre(i), a.First(i) + n)
  {
    assert RawWeights(a, i, n + 1)[..n] == RawWeights(a, i, n);
    hide Axis.Raw;
  }

  /** Fills the slots of one window with positions and float weights. */
  method Collect(a: Axis, i: nat, contribs: array<Contrib>) returns (contribcnt: nat, totweight: real)
    requires a.Valid() && 0 <= Count(a, i) <= contribs.Length
    modifies contribs
    ensures contribcnt == Count(a, i) && totweight == Total(RawWeights(a, i, contribcnt))
    ensures forall k :: 0 <= k < contribcnt ==>
              contribs[k].sourcepos == a.Source(a.First(i) + k)
              && contribs[k].floatweight == a.Raw(a.Centre(i), a.First(i) + k)
  {
    contribcnt := 0;
    totweight := 0.0;
    var j := a.First(i);
    while j <= a.Last(i)
      invariant contribcnt <= Count(a, i) && j == a.First(i) + contribcnt
      invariant totweight == Total(RawWeights(a, i, contribcnt))
      invariant forall k :: 0 <= k < contribcnt ==>
                  contribs[k].sourcepos == a.Source(a.First(i) + k)
                  && contribs[k].floatweight == a.Raw(a.Centre(i), a.First(i) + k)
    {
      hide Axis.Raw, Axis.Source, Axis.Centre, Axis.First, Axis.Last, Total, RawWeights;
      OneMoreWeight(a, i, contribcnt);
      var weight := a.Raw(a.Centre(i), j);
      totweight := totweight + weight;
      contribs[contribcnt] := Contrib(a.Source(j), weight, 0);
      contribcnt := contribcnt + 1;
      j := j + 1;
    }
  }

  /** Fills one window; the array has the size the original allocates. */
  method FillWindow(a: Axis, i: nat) returns (contribs: array<Contrib>, contribcnt: nat)
    requires a.Valid() && a.fscale <= 1.0
    ensures fresh(contribs) && contribs.Length == (a.size * 2.0 + 1.0).Floor && contribcnt <= contribs.Length
    ensures IsWindow(a, i, contribs[..contribcnt])
  {
    SlotsSuffice(a, i);
    WindowTotal(a, i);
    hide Axis.Raw, FixedPoint, Axis.Source, Axis.Valid, Axis.Centre, Axis.First, Axis.Last, Total;
    contribs := new Contrib[(a.size * 2.0 + 1.0).Floor](_ => Contrib(0, 0.0, 0));
    var totweight;
    contribcnt, totweight := Collect(a, i, contribs);
    Normalise(contribs, contribcnt, totweight);
  }

  /** Turns the float weights of the first contribcnt slots into fixed point. */
  method Normalise(contribs: array<Contrib>, contribcnt: nat, totweight: real)
    requires (contribcnt > 0 ==> totweight > 0.0) && contribcnt <= contribs.Length
    modifies contribs
    ensures forall k :: 0 <= k < contribcnt ==>
              contribs[k] == old(contribs[k]).(weight := FixedPoint(old(contribs[k].floatweight), 1.0 / totweight))
  {
    hide FixedPoint;
    var inverse := if totweight == 0.0 then 0.0 else 1.0 / totweight;
    for k := 0 to contribcnt
      invariant forall m :: k <= m < contribcnt ==> contribs[m] == old(contribs[m])
      invariant forall m :: 0 <= m < k ==>
                  contribs[m] == old(contribs[m]).(weight := FixedPoint(old(contribs[m].floatweight), inverse))
    {
      contribs[k] := contribs[k].(weight := FixedPoint(contribs[k].floatweight, inverse));
    }
  }

  method CalcFilterWeight(filter: FilterType, scale: real, filterwidth: real, src: int, dst: nat)
    returns (lists: seq<seq<Contrib>>)
    requires scale > 0.0 && filterwidth > 0.0 && src > 0
    ensures MakeAxis(filter, scale, filterwidth, src).Valid() && |lists| == dst
    ensures forall i :: 0 <= i < dst ==> IsWindow(MakeAxis(filter, scale, filterwidth, src), i, lists[i])
  {
    var a := MakeAxis(filter, scale, filterwidth, src);
    MadeAxis(filter, scale, filterwidth, src);
    hide MakeAxis, IsWindow;
    lists := [];
    for i := 0 to dst
      invariant |lists| == i && forall k :: 0 <= k < i ==> IsWindow(a, k, lists[k])
    {
      var contribs, contribcnt := FillWindow(a, i);
      lists := lists + [contribs[..contribcnt]];
    }
  }

  // ---------------------------------------------------------------------------
  // One pixel
  // ---------------------------------------------------------------------------

  /** Byte k of a colour. */
  function Channel(c: Word, k: nat): (v: int)
    requires k < 4
    ensures 0 <= v < 0x100
  {
    if k <= 0 then c % 0x100 else Channel(c / 0x100, k - 1)
  }

  function Pack(r: Byte, g: Byte, b: Byte, a: Byte): Word {
    r as int + 0x100 * (g as int + 0x100 * (b as int + 0x100 * a as int))
  }

  lemma {:induction false} Digits(low: int, high: int)
    requires 0 <= low < 0x100
    ensures (low + 0x100 * high) / 0x100 == high && (low + 0x100 * high) % 0x100 == low
  {
  }

  lemma {:induction false} NextChannel(low: Byte, high: int, k: nat)
    requires 0 <= low as int + 0x100 * high < 0x1_0000_0000 && k < 4
    ensures 0 <= high < 0x1_0000_0000
    ensures Channel(low as int + 0x100 * high, k) == if k == 0 then low as int else Channel(high, k - 1)
  {
    Digits(low as int, high);
  }

  lemma {:induction false} PackedChannels(r: Byte, g: Byte, b: Byte, a: Byte)
    ensures Channel(Pack(r, g, b, a), 0) == r && Channel(Pack(r, g, b, a), 1) == g
    ensures Channel(Pack(r, g, b, a), 2) == b && Channel(Pack(r, g, b, a), 3) == a
  {
    var ba := b as int + 0x100 * a as int;
    var gba := g as int + 0x100 * ba;
    forall k: nat | k < 4
      ensures Channel(Pack(r, g, b, a), k) == if k == 0 then r as int else Channel(gba, k - 1)
    {
      NextChannel(r, gba, k);
    }
    NextChannel(g, ba, 0);
    NextChannel(g, ba, 1);
    NextChannel(g, ba, 2);
    NextChannel(b, a as int, 0);
    NextChannel(b, a as int, 1);
    NextChannel(a, 0, 0);
    hide Channel;
  }

  function Clamp(v: int, l: int, h: int): int {
    if v < l then l else if v > h then h else v
  }

  ghost predicate InRange(w: seq<Contrib>, n: nat) {
    forall t :: 0 <= t < |w| ==> 0 <= w[t].sourcepos < n
  }

  /** The weighted sum of channel k over a window. */
  function Weighted(line: seq<Word>, w: seq<Contrib>, k: nat): int
    requires k < 4 && InRange(w, |line|)
  {
    if w == [] then 0
    else
      var t := |w| - 1;
      Weighted(line, w[..t], k) + Channel(line[w[t].sourcepos], k) * w[t].weight
  }

  function Resampled(line: seq<Word>, w: seq<Contrib>, k: nat): Byte
    requires k < 4 && InRange(w, |line|)
  {
    Clamp(Weighted(line, w, k) / ONE, 0, 255)
  }

  function Pixel(line: seq<Word>, w: seq<Contrib>): Word
    requires InRange(w, |line|)
  {
    Pack(Resampled(line, w, 0), Resampled(line, w, 1), Resampled(line, w, 2), Resampled(line, w, 3))
  }

  // ---------------------------------------------------------------------------
  // How far one pass can move a channel
  // ---------------------------------------------------------------------------

  function WeightSum(w: seq<Contrib>): int {
    if w == [] then 0 else WeightSum(w[..|w| - 1]) + w[|w| - 1].weight
  }

  /** Non-negative weights, 65530 in all but for the truncation of at most `taps` of them. */
  ghost predicate NearUnit(w: seq<Contrib>, taps: nat) {
    && (forall t :: 0 <= t < |w| ==> w[t].weight >= 0)
    && UNIT - taps < WeightSum(w) <= UNIT
  }

  ghost predicate Between(line: seq<Word>, k: nat, lo: int, hi: int)
    requires k < 4
  {
    forall x :: 0 <= x < |line| ==> lo <= Channel(line[x], k) <= hi
  }

  lemma {:induction false} WeightedBounds(line: seq<Word>, w: seq<Contrib>, k: nat, lo: int, hi: int)
    requires k < 4 && InRange(w, |line|) && Between(line, k, lo, hi)
    requires forall t :: 0 <= t < |w| ==> w[t].weight >= 0
    ensures lo * WeightSum(w) <= Weighted(line, w, k) <= hi * WeightSum(w)
  {
    if w != [] {
      var t := |w| - 1;
      WeightedBounds(line, w[..t], k, lo, hi);
      TermBounds(Channel(line[w[t].sourcepos], k), w[t].weight, lo, hi, WeightSum(w[..t]));
      hide Channel;
    }
  }

  lemma {:induction false} TermBounds(c: int, weight: int, lo: int, hi: int, s: int)
    requires lo <= c <= hi && weight >= 0
    ensures lo * weight <= c * weight <= hi * weight
    ensures lo * s + lo * weight == lo * (s + weight) && hi * s + hi * weight == hi * (s + weight)
  {
  }

  function Darker(v: int, loss: int): int {
    if v > loss then v - loss else 0
  }

  /** How far a pass with windows of at most that many taps can darken a channel. */
  function Loss(taps: nat): nat {
    (255 * (taps + 5) + ONE - 1) / ONE
  }

  lemma {:induction false} LossOfShortWindows(taps: nat)
    requires taps > 0
    ensures Loss(taps) >= 1 && (Loss(taps) == 1 <==> taps <= 252)
  {
  }

  /** One pass moves a channel down by one, by more below if the windows are long, give or
      take the spread of its sources; it never needs the clamp. */
  lemma {:induction false} PassBounds(line: seq<Word>, w: seq<Contrib>, taps: nat, k: nat, lo: int, hi: int)
    requires k < 4 && InRange(w, |line|) && Between(line, k, lo, hi) && NearUnit(w, taps) && 0 <= lo <= hi <= 255
    ensures Resampled(line, w, k) == Weighted(line, w, k) / ONE
    ensures 0 <= Weighted(line, w, k) <= 255 * UNIT
    ensures Darker(lo, Loss(taps)) <= Resampled(line, w, k) <= Darker(hi, 1)
  {
    WeightedBounds(line, w, k, lo, hi);
    WeightSumIsNonNegative(w);
    var v, sum := Weighted(line, w, k), WeightSum(w);
    hide Weighted, WeightSum, Between, InRange, Loss;
    FromBelow(v, sum, lo, taps);
    FromAbove(v, sum, hi);
  }

  lemma {:induction false} WeightSumIsNonNegative(w: seq<Contrib>)
    requires forall t :: 0 <= t < |w| ==> w[t].weight >= 0
    ensures WeightSum(w) >= 0
  {
    if w != [] { WeightSumIsNonNegative(w[..|w| - 1]); }
  }

  lemma {:induction false} FromBelow(v: int, sum: int, lo: int, taps: nat)
    requires 0 <= lo <= 255 && UNIT - taps < sum && 0 <= sum && lo * sum <= v
    ensures 0 <= v && Darker(lo, Loss(taps)) <= v / ONE
  {
    Monotone(lo, UNIT - taps + 1, sum);
    Monotone(taps + 5, lo, 255);
    assert lo * (UNIT - taps + 1) == ONE * lo - (taps + 5) * lo;
    Monotone(lo, 0, sum);
    var least := 255 * (taps + 5);
    assert v >= ONE * lo - least;
    RoundedDown(v, lo, least);
  }

  lemma {:induction false} Monotone(c: int, a: int, b: int)
    requires c >= 0 && a <= b
    ensures c * a <= c * b
  {
  }

  lemma {:induction false} RoundedDown(v: int, lo: int, least: nat)
    requires v >= ONE * lo - least && v >= 0
    ensures v / ONE >= lo - (least + ONE - 1) / ONE && v / ONE >= 0
  {
  }

  lemma {:induction false} FromAbove(v: int, sum: int, hi: int)
    requires 0 <= hi <= 255 && sum <= UNIT && v <= hi * sum
    ensures v / ONE <= Darker(hi, 1) && v <= 255 * UNIT
  {
    Monotone(hi, sum, UNIT);
    Monotone(UNIT, hi, 255);
  }

  lemma {:induction false} WeightSumIs(w: seq<Contrib>, ns: seq<int>)
    requires |w| == |ns| && forall t :: 0 <= t < |w| ==> w[t].weight == ns[t]
    ensures WeightSum(w) == Sum(ns)
  {
    if w != [] { WeightSumIs(w[..|w| - 1], ns[..|ns| - 1]); }
  }

  /** A window that is not empty. */
  lemma {:induction false} WindowIsNearUnit(a: Axis, i: nat, w: seq<Contrib>)
    requires a.Valid() && IsWindow(a, i, w) && w != []
    ensures NearUnit(w, |w|)
  {
    var ws := RawWeights(a, i, |w|);
    forall k | 0 <= k < |ws| ensures ws[k] >= 0.0 {
      RawIsNonNegative(a, a.Centre(i), a.First(i) + k);
    }
    var ns := seq(|w|, k requires 0 <= k < |w| => w[k].weight);
    hide Axis.Raw, Axis.Centre, Axis.First, Axis.Last, FixedPoint, Total;
    WeightsSumToUnit(ws, ns);
    WeightSumIs(w, ns);
  }

  // ---------------------------------------------------------------------------
  // Both passes
  // ---------------------------------------------------------------------------

  function DefaultWidth(f: FilterType): real {
    match f
    case Cubic => 1.0
    case Box => 0.5
    case Triangle => 1.0
    case Bell => 1.5
    case BSpline => 2.0
  }

  /** The default reaches exactly as far as the filter is positive; the box takes in only its
      right edge. */
  lemma {:induction false} DefaultWidthIsSupport(f: FilterType, x: real)
    ensures Filter(f, x) > 0.0 <==> Abs(x) < DefaultWidth(f) || (f.Box? && x == 0.5)
  {
    hide Hermite, Spline, Square, Cube;
    var t := Abs(x);
    FiltersAreNonNegative(f, x);
    match f
    case Cubic => if t < 1.0 { HermiteIsPositive(t); }
    case Box =>
    case Triangle =>
    case Bell =>
      if t < 0.5 { BellIsPositive(t); }
      PowersArePositive(t - 1.5);
    case BSpline =>
      if t < 1.0 { SplineIsPositive(t); }
      PowersArePositive(2.0 - t);
  }

  /** Values at the halves and wholes, and at a quarter. */
  lemma {:induction false} FilterValues()
    ensures Filter(Cubic, 0.25) == 27.0 / 32.0 && Filter(Cubic, 0.5) == 0.5
    ensures Filter(Triangle, 0.25) == 0.75 && Filter(Box, 0.25) == 1.0
    ensures Filter(Bell, 0.0) == 0.75 && Filter(Bell, 0.25) == 11.0 / 16.0 && Filter(Bell, 1.0) == 0.125
    ensures Filter(BSpline, 0.0) == 2.0 / 3.0 && Filter(BSpline, 0.5) == 23.0 / 48.0
    ensures Filter(BSpline, 1.0) == 1.0 / 6.0 && Filter(BSpline, 1.5) == 1.0 / 48.0
  {
  }

  /** All but the box, with its one closed edge, are even. */
  lemma {:induction false} FiltersAreEven(f: FilterType, x: real)
    requires f.Box? ==> Abs(x) != 0.5
    ensures Filter(f, -x) == Filter(f, x)
  {
    hide Hermite, Spline, Square, Cube;
  }

  function WidthFor(filter: FilterType, filterwidth: real): real {
    if filterwidth == 0.0 then DefaultWidth(filter) else filterwidth
  }

  function Ratio(m: int, n: int): (r: real)
    requires n > 0 && m > 0
    ensures r > 0.0
  {
    m as real / n as real
  }

  /** The axis Scale uses to bring n source positions to m destination positions. */
  function AxisFor(filter: FilterType, filterwidth: real, n: int, m: int): Axis
    requires n > 0 && m > 0
  {
    MakeAxis(filter, Ratio(m, n), WidthFor(filter, filterwidth), n)
  }

  /** A filter of positive width whose half-width is below the source size. */
  predicate Fits(filter: FilterType, filterwidth: real, n: int, m: int) {
    && n > 0 && m > 0 && WidthFor(filter, filterwidth) > 0.0
    && AxisFor(filter, filterwidth, n, m).size < n as real
  }

  /** The windows of an axis. */
  type Windows = seq<seq<Contrib>>

  ghost predicate AreWindows(lists: Windows, filter: FilterType, filterwidth: real, n: int, m: int)
    requires n > 0 && m > 0 && WidthFor(filter, filterwidth) > 0.0
  {
    MadeAxis(filter, Ratio(m, n), WidthFor(filter, filterwidth), n);
    && |lists| == m
    && forall i :: 0 <= i < m ==> IsWindow(AxisFor(filter, filterwidth, n, m), i, lists[i])
  }

  ghost predicate AllInRange(lists: Windows, n: nat) {
    forall i :: 0 <= i < |lists| ==> InRange(lists[i], n)
  }

  lemma {:induction false} WindowsAreInRange(lists: Windows, filter: FilterType, filterwidth: real, n: int, m: int)
    requires Fits(filter, filterwidth, n, m) && AreWindows(lists, filter, filterwidth, n, m)
    ensures AllInRange(lists, n)
  {
    var a := AxisFor(filter, filterwidth, n, m);
    MadeAxis(filter, Ratio(m, n), WidthFor(filter, filterwidth), n);
    assert a.Valid() && a.src == n && a.scale == m as real / n as real;
    hide AxisFor, Axis.Valid;
    forall i | 0 <= i < |lists| ensures InRange(lists[i], n) {
      WindowIsInRange(a, m, i, lists[i]);
    }
  }

  lemma {:induction false} WindowIsInRange(a: Axis, m: int, i: nat, w: seq<Contrib>)
    requires a.Valid() && a.scale == m as real / a.src as real && i < m && a.size < a.src as real
    requires IsWindow(a, i, w)
    ensures InRange(w, a.src)
  {
    hide FixedPoint, Axis.Raw;
    forall t | 0 <= t < |w| ensures 0 <= w[t].sourcepos < a.src {
      SourcesAreInRange(a, m, i, a.First(i) + t);
    }
  }

  /** One pixel, all four channels accumulated together. */
  method Resample(line: seq<Word>, w: seq<Contrib>) returns (c: Word)
    requires InRange(w, |line|)
    ensures c == Pixel(line, w)
  {
    var rweight, gweight, bweight, aweight := 0, 0, 0, 0;
    hide Channel;
    for t := 0 to |w|
      invariant rweight == Weighted(line, w[..t], 0) && gweight == Weighted(line, w[..t], 1)
      invariant bweight == Weighted(line, w[..t], 2) && aweight == Weighted(line, w[..t], 3)
    {
      assert w[..t + 1][..t] == w[..t];
      var color, weight := line[w[t].sourcepos], w[t].weight;
      rweight := rweight + Channel(color, 0) * weight;
      gweight := gweight + Channel(color, 1) * weight;
      bweight := bweight + Channel(color, 2) * weight;
      aweight := aweight + Channel(color, 3) * weight;
    }
    assert w[..|w|] == w;
    c := Pack(Clamp(rweight / ONE, 0, 255), Clamp(gweight / ONE, 0, 255),
              Clamp(bweight / ONE, 0, 255), Clamp(aweight / ONE, 0, 255));
  }

  function Row(bits: array2<Word>, y: nat): (r: seq<Word>)
    requires y < bits.Length0
    reads bits
    ensures |r| == bits.Length1
  {
    seq(bits.Length1, x requires 0 <= x < bits.Length1 reads bits => bits[y, x])
  }

  function Column(bits: array2<Word>, x: nat): (r: seq<Word>)
    requires x < bits.Length1
    reads bits
    ensures |r| == bits.Length0
  {
    seq(bits.Length0, y requires 0 <= y < bits.Length0 reads bits => bits[y, x])
  }

  /** One line seen through the windows: a pass over a bitmap does this to each line. */
  function Pass(line: seq<Word>, lists: Windows): (out: seq<Word>)
    requires AllInRange(lists, |line|)
    ensures |out| == |lists|
  {
    seq(|lists|, i requires 0 <= i < |lists| => Pixel(line, lists[i]))
  }

  method ScaleRow(line: seq<Word>, lists: Windows, tmp: array2<Word>, iy: nat)
    requires AllInRange(lists, |line|) && iy < tmp.Length0 && tmp.Length1 == |lists|
    modifies tmp
    ensures Row(tmp, iy) == Pass(line, lists)
    ensures forall y, x :: 0 <= y < tmp.Length0 && 0 <= x < tmp.Length1 && y != iy ==> tmp[y, x] == old(tmp[y, x])
  {
    hide Pixel, InRange;
    for ix := 0 to |lists|
      invariant forall x :: 0 <= x < ix ==> tmp[iy, x] == Pixel(line, lists[x])
      invariant forall y, x :: 0 <= y < tmp.Length0 && 0 <= x < tmp.Length1 && y != iy ==> tmp[y, x] == old(tmp[y, x])
    {
      var c := Resample(line, lists[ix]);
      tmp[iy, ix] := c;
    }
  }

  /** The row pass. */
  method ScaleRows(src: array2<Word>, lists: Windows) returns (tmp: array2<Word>)
    requires AllInRange(lists, src.Length1)
    ensures fresh(tmp) && tmp.Length0 == src.Length0 && tmp.Length1 == |lists|
    ensures forall y :: 0 <= y < src.Length0 ==> Row(tmp, y) == Pass(Row(src, y), lists)
  {
    hide Pass, AllInRange;
    tmp := new Word[src.Length0, |lists|]((y, x) => 0);
    for iy := 0 to src.Length0
      invariant forall y :: 0 <= y < iy ==> Row(tmp, y) == Pass(Row(src, y), lists)
    {
      label Before:
      ScaleRow(Row(src, iy), lists, tmp, iy);
      forall y | 0 <= y < iy ensures Row(tmp, y) == old@Before(Row(tmp, y)) {
      }
    }
  }

  method ScaleColumn(line: seq<Word>, lists: Windows, dst: array2<Word>, ix: nat)
    requires AllInRange(lists, |line|) && ix < dst.Length1 && dst.Length0 == |lists|
    modifies dst
    ensures Column(dst, ix) == Pass(line, lists)
    ensures forall y, x :: 0 <= y < dst.Length0 && 0 <= x < dst.Length1 && x != ix ==> dst[y, x] == old(dst[y, x])
  {
    hide Pixel, InRange;
    for iy := 0 to |lists|
      invariant forall y :: 0 <= y < iy ==> dst[y, ix] == Pixel(line, lists[y])
      invariant forall y, x :: 0 <= y < dst.Length0 && 0 <= x < dst.Length1 && x != ix ==> dst[y, x] == old(dst[y, x])
    {
      var c := Resample(line, lists[iy]);
      dst[iy, ix] := c;
    }
  }

  method CopyColumn(tmp: array2<Word>, ix: nat, bitmaprow: array<Word>)
    requires ix < tmp.Length1 && bitmaprow.Length == tmp.Length0
    modifies bitmaprow
    ensures bitmaprow[..] == Column(tmp, ix)
  {
    for iy := 0 to tmp.Length0
      invariant forall j :: 0 <= j < iy ==> bitmaprow[j] == tmp[j, ix]
    {
      bitmaprow[iy] := tmp[iy, ix];
    }
  }

  /** The column pass, through a copy of each column. */
  method ScaleColumns(tmp: array2<Word>, lists: Windows, dst: array2<Word>)
    requires AllInRange(lists, tmp.Length0) && tmp != dst
    requires dst.Length0 == |lists| && dst.Length1 == tmp.Length1
    modifies dst
    ensures forall x :: 0 <= x < dst.Length1 ==> Column(dst, x) == Pass(Column(tmp, x), lists)
  {
    hide Pass, AllInRange;
    var bitmaprow := new Word[tmp.Length0](_ => 0);
    for ix := 0 to dst.Length1
      invariant forall x :: 0 <= x < ix ==> Column(dst, x) == Pass(Column(tmp, x), lists)
    {
      CopyColumn(tmp, ix, bitmaprow);
      var line := bitmaprow[..];
      label Before:
      ScaleColumn(line, lists, dst, ix);
      forall x | 0 <= x < ix ensures Column(dst, x) == Pass(Column(tmp, x), lists) {
        assert Column(dst, x) == old@Before(Column(dst, x));
      }
    }
  }

  /** No window has more taps. */
  ghost predicate AtMost(lists: Windows, taps: nat) {
    forall i :: 0 <= i < |lists| ==> |lists[i]| <= taps
  }

  /** Channel k of every pixel lies between lo and hi. */
  ghost predicate Within(bits: array2<Word>, k: nat, lo: int, hi: int)
    requires k < 4
    reads bits
  {
    forall y, x :: 0 <= y < bits.Length0 && 0 <= x < bits.Length1 ==> lo <= Channel(bits[y, x], k) <= hi
  }

  // ---------------------------------------------------------------------------
  // The whole operation
  // ---------------------------------------------------------------------------

  /** dst is src taken through a row pass and then a column pass. */
  ghost predicate TwoPasses(src: array2<Word>, tmp: array2<Word>, dst: array2<Word>, xs: Windows, ys: Windows)
    reads src, tmp, dst
  {
    && AllInRange(xs, src.Length1) && AllInRange(ys, src.Length0)
    && tmp.Length0 == src.Length0 && tmp.Length1 == |xs| == dst.Length1 && |ys| == dst.Length0
    && (forall y :: 0 <= y < src.Length0 ==> Row(tmp, y) == Pass(Row(src, y), xs))
    && (forall x :: 0 <= x < dst.Length1 ==> Column(dst, x) == Pass(Column(tmp, x), ys))
  }

  /** Beyond the half-width the original reads out of its rows or columns, and nothing is said
      of what comes of that. */
  method Scale(src: array2<Word>, dst: array2<Word>, filter: FilterType, filterwidth: real)
    returns (wild: bool, tmp: array2<Word>, xs: Windows, ys: Windows)
    requires src != dst && WidthFor(filter, filterwidth) > 0.0
    requires src.Length0 > 0 && src.Length1 > 0 && dst.Length0 > 0 && dst.Length1 > 0
    modifies dst
    ensures wild <==> !(Fits(filter, filterwidth, src.Length1, dst.Length1)
                        && Fits(filter, filterwidth, src.Length0, dst.Length0))
    ensures !wild ==>
              && AreWindows(xs, filter, filterwidth, src.Length1, dst.Length1)
              && AreWindows(ys, filter, filterwidth, src.Length0, dst.Length0)
              && fresh(tmp) && TwoPasses(src, tmp, dst, xs, ys)
  {
    wild := !(Fits(filter, filterwidth, src.Length1, dst.Length1)
              && Fits(filter, filterwidth, src.Length0, dst.Length0));
    if wild {
      tmp := new Word[0, 0];
      xs, ys := [], [];
    } else {
      hide AxisFor, Pass, AllInRange;
      xs := LineWindows(filter, filterwidth, src.Length1, dst.Length1);
      tmp := ScaleRows(src, xs);
      ys := LineWindows(filter, filterwidth, src.Length0, dst.Length0);
      ScaleColumns(tmp, ys, dst);
    }
  }

  method LineWindows(filter: FilterType, filterwidth: real, n: int, m: int) returns (lists: Windows)
    requires Fits(filter, filterwidth, n, m)
    ensures AreWindows(lists, filter, filterwidth, n, m) && |lists| == m && AllInRange(lists, n)
  {
    lists := CalcFilterWeight(filter, Ratio(m, n), WidthFor(filter, filterwidth), n, m);
    WindowsAreInRange(lists, filter, filterwidth, n, m);
  }

  /** The windows of an axis: no weight is negative, and those that are not empty sum to
      nearly one. */
  ghost predicate Weighing(lists: Windows, taps: nat) {
    forall i :: 0 <= i < |lists| && lists[i] != [] ==> NearUnit(lists[i], taps)
  }

  /** A caller reads it off the lists. */
  predicate NoneEmpty(lists: Windows) {
    forall i :: 0 <= i < |lists| ==> lists[i] != []
  }

  /** What is left at least of a channel at lo: nothing behind an empty window. */
  function Least(lists: Windows, taps: nat, lo: int): int {
    if NoneEmpty(lists) then Darker(lo, Loss(taps)) else 0
  }

  lemma {:induction false} EmptyWindowIsBlack(line: seq<Word>, k: nat)
    requires k < 4 && InRange([], |line|)
    ensures Resampled(line, [], k) == 0
  {
  }

  lemma {:induction false} PassKeepsBounds(line: seq<Word>, lists: Windows, taps: nat, k: nat, lo: int, hi: int)
    requires k < 4 && AllInRange(lists, |line|) && Between(line, k, lo, hi) && 0 <= lo <= hi <= 255
    requires Weighing(lists, taps)
    ensures Between(Pass(line, lists), k, Least(lists, taps, lo), Darker(hi, 1))
    ensures forall i :: 0 <= i < |lists| && lists[i] == [] ==> Channel(Pass(line, lists)[i], k) == 0
  {
    hide Channel, NearUnit, Resampled, Pass, InRange, Loss;
    forall i | 0 <= i < |lists|
      ensures Least(lists, taps, lo) <= Channel(Pass(line, lists)[i], k) <= Darker(hi, 1)
      ensures lists[i] == [] ==> Channel(Pass(line, lists)[i], k) == 0
    {
      PassAt(line, lists, i, k);
      if lists[i] == [] {
        EmptyWindowIsBlack(line, k);
      } else {
        PassBounds(line, lists[i], taps, k, lo, hi);
      }
    }
  }

  lemma {:induction false} PassAt(line: seq<Word>, lists: Windows, i: nat, k: nat)
    requires k < 4 && AllInRange(lists, |line|) && i < |lists|
    ensures Channel(Pass(line, lists)[i], k) == Resampled(line, lists[i], k)
  {
    PixelChannels(line, lists[i], k);
    hide Channel, Resampled, Pixel;
  }

  lemma {:induction false} PixelChannels(line: seq<Word>, w: seq<Contrib>, k: nat)
    requires k < 4 && InRange(w, |line|)
    ensures Channel(Pixel(line, w), k) == Resampled(line, w, k)
  {
    PackedChannels(Resampled(line, w, 0), Resampled(line, w, 1), Resampled(line, w, 2), Resampled(line, w, 3));
    hide Channel, Resampled, Pack;
    assert k == 0 || k == 1 || k == 2 || k == 3;
  }

  lemma {:induction false} WindowsWeigh(lists: Windows, taps: nat, filter: FilterType, filterwidth: real,
                                        n: int, m: int)
    requires Fits(filter, filterwidth, n, m) && AreWindows(lists, filter, filterwidth, n, m) && AtMost(lists, taps)
    ensures Weighing(lists, taps)
  {
    MadeAxis(filter, Ratio(m, n), WidthFor(filter, filterwidth), n);
    var a := AxisFor(filter, filterwidth, n, m);
    assert a.Valid();
    hide IsWindow, AxisFor, WeightSum;
    forall i | 0 <= i < |lists| && lists[i] != [] ensures NearUnit(lists[i], taps) {
      WindowIsNearUnit(a, i, lists[i]);
    }
  }

  /** A filter at least one source pixel wide leaves no window empty. */
  lemma {:induction false} WideFilterFillsWindows(lists: Windows, filter: FilterType, filterwidth: real, n: int, m: int)
    requires Fits(filter, filterwidth, n, m) && AreWindows(lists, filter, filterwidth, n, m)
    requires WidthFor(filter, filterwidth) >= 0.5
    ensures NoneEmpty(lists)
  {
    MadeAxis(filter, Ratio(m, n), WidthFor(filter, filterwidth), n);
    var a := AxisFor(filter, filterwidth, n, m);
    forall i | 0 <= i < |lists| ensures lists[i] != [] {
      WindowTotal(a, i);
    }
  }

  /** A narrower one may: doubling four pixels with a width of 0.3, nothing is near enough to
      the second of the eight. */
  lemma {:induction false} NarrowFilterLeavesAGap()
    ensures Fits(Cubic, 0.3, 4, 8)
    ensures var a := AxisFor(Cubic, 0.3, 4, 8); a.Valid() && Count(a, 1) == 0
    ensures forall lists :: AreWindows(lists, Cubic, 0.3, 4, 8) ==> !NoneEmpty(lists)
  {
    var a := AxisFor(Cubic, 0.3, 4, 8);
    assert a == Axis(Cubic, 2.0, 0.3, 1.0, 4);
    assert a.Centre(1) == 0.5 && a.First(1) == 1 && a.Last(1) == 0;
    hide IsWindow, Axis.Centre, Axis.First, Axis.Last;
    forall lists | AreWindows(lists, Cubic, 0.3, 4, 8) ensures !NoneEmpty(lists) {
      assert |lists[1]| == 0;
    }
  }

  lemma {:induction false} RowsWithin(src: array2<Word>, tmp: array2<Word>, xs: Windows, taps: nat,
                                      k: nat, lo: int, hi: int)
    requires AllInRange(xs, src.Length1) && Weighing(xs, taps) && tmp.Length0 == src.Length0 && tmp.Length1 == |xs|
    requires forall y :: 0 <= y < src.Length0 ==> Row(tmp, y) == Pass(Row(src, y), xs)
    requires k < 4 && 0 <= lo <= hi <= 255 && Within(src, k, lo, hi)
    ensures Within(tmp, k, Least(xs, taps, lo), Darker(hi, 1))
    ensures forall y, x :: 0 <= y < tmp.Length0 && 0 <= x < |xs| && xs[x] == [] ==> Channel(tmp[y, x], k) == 0
  {
    hide Weighing, Channel, Pass, AllInRange, Least, Darker;
    forall y, x | 0 <= y < tmp.Length0 && 0 <= x < tmp.Length1
      ensures Least(xs, taps, lo) <= Channel(tmp[y, x], k) <= Darker(hi, 1)
      ensures xs[x] == [] ==> Channel(tmp[y, x], k) == 0
    {
      PassKeepsBounds(Row(src, y), xs, taps, k, lo, hi);
      assert Row(tmp, y)[x] == tmp[y, x];
    }
  }

  lemma {:induction false} ColumnsWithin(tmp: array2<Word>, dst: array2<Word>, ys: Windows, taps: nat,
                                         k: nat, lo: int, hi: int)
    requires AllInRange(ys, tmp.Length0) && Weighing(ys, taps) && dst.Length1 == tmp.Length1 && dst.Length0 == |ys|
    requires forall x :: 0 <= x < dst.Length1 ==> Column(dst, x) == Pass(Column(tmp, x), ys)
    requires k < 4 && 0 <= lo <= hi <= 255 && Within(tmp, k, lo, hi)
    ensures Within(dst, k, Least(ys, taps, lo), Darker(hi, 1))
    ensures forall y, x :: 0 <= y < |ys| && 0 <= x < dst.Length1 && ys[y] == [] ==> Channel(dst[y, x], k) == 0
  {
    hide Weighing, Channel, Pass, AllInRange, Least, Darker;
    forall y, x | 0 <= y < dst.Length0 && 0 <= x < dst.Length1
      ensures Least(ys, taps, lo) <= Channel(dst[y, x], k) <= Darker(hi, 1)
      ensures ys[y] == [] ==> Channel(dst[y, x], k) == 0
    {
      PassKeepsBounds(Column(tmp, x), ys, taps, k, lo, hi);
      assert Column(dst, x)[y] == dst[y, x];
    }
  }

  /** A column that the row pass left black stays black. */
  lemma {:induction false} BlackColumn(tmp: array2<Word>, dst: array2<Word>, ys: Windows, taps: nat, k: nat, x: nat)
    requires AllInRange(ys, tmp.Length0) && Weighing(ys, taps) && dst.Length1 == tmp.Length1 && dst.Length0 == |ys|
    requires x < dst.Length1 && Column(dst, x) == Pass(Column(tmp, x), ys) && k < 4
    requires forall y :: 0 <= y < tmp.Length0 ==> Channel(tmp[y, x], k) == 0
    ensures forall y :: 0 <= y < dst.Length0 ==> Channel(dst[y, x], k) == 0
  {
    hide Weighing, Channel, Pass, AllInRange;
    PassKeepsBounds(Column(tmp, x), ys, taps, k, 0, 0);
    forall y | 0 <= y < dst.Length0 ensures Channel(dst[y, x], k) == 0 {
      assert Column(dst, x)[y] == dst[y, x];
    }
  }

  /** The two passes over a source whose channel k lies between lo and hi. */
  ghost predicate Scaled(src: array2<Word>, tmp: array2<Word>, dst: array2<Word>, filter: FilterType, filterwidth: real,
                         xs: Windows, ys: Windows, tx: nat, ty: nat, k: nat, lo: int, hi: int)
    reads src, tmp, dst
  {
    && Fits(filter, filterwidth, src.Length1, dst.Length1) && Fits(filter, filterwidth, src.Length0, dst.Length0)
    && AreWindows(xs, filter, filterwidth, src.Length1, dst.Length1) && AtMost(xs, tx)
    && AreWindows(ys, filter, filterwidth, src.Length0, dst.Length0) && AtMost(ys, ty)
    && TwoPasses(src, tmp, dst, xs, ys)
    && k < 4 && 0 <= lo <= hi <= 255 && Within(src, k, lo, hi)
  }

  lemma {:induction false} BothPasses(src: array2<Word>, tmp: array2<Word>, dst: array2<Word>,
                                      filter: FilterType, filterwidth: real,
                                      xs: Windows, ys: Windows, tx: nat, ty: nat, k: nat, lo: int, hi: int)
    requires Scaled(src, tmp, dst, filter, filterwidth, xs, ys, tx, ty, k, lo, hi)
    ensures |xs| == dst.Length1 > 0 && |ys| == dst.Length0 > 0 && Weighing(xs, tx) && Weighing(ys, ty)
    ensures Within(dst, k, Least(ys, ty, Least(xs, tx, lo)), Darker(Darker(hi, 1), 1))
    ensures forall y, x :: 0 <= y < dst.Length0 && 0 <= x < dst.Length1 && (xs[x] == [] || ys[y] == []) ==>
              Channel(dst[y, x], k) == 0
  {
    WindowsWeigh(xs, tx, filter, filterwidth, src.Length1, dst.Length1);
    WindowsWeigh(ys, ty, filter, filterwidth, src.Length0, dst.Length0);
    assert |xs| == dst.Length1 > 0 && |ys| == dst.Length0 > 0;
    hide Fits, AreWindows, AtMost, Weighing, Channel, Pass, AllInRange, Loss, Row, Column, NoneEmpty;
    RowsWithin(src, tmp, xs, tx, k, lo, hi);
    ColumnsWithin(tmp, dst, ys, ty, k, Least(xs, tx, lo), Darker(hi, 1));
    forall y, x | 0 <= y < dst.Length0 && 0 <= x < dst.Length1 && (xs[x] == [] || ys[y] == [])
      ensures Channel(dst[y, x], k) == 0
    {
      if xs[x] == [] { BlackColumn(tmp, dst, ys, ty, k, x); }
    }
  }

  /** Both passes together never brighten a channel beyond the source maximum less two, and,
      no window being empty, darken it by at most the loss of each pass.  With windows of at
      most 252 taps that is one each: a constant channel v becomes exactly v - 2, or 0. */
  lemma {:induction false} ScaleKeepsRange(src: array2<Word>, tmp: array2<Word>, dst: array2<Word>,
                                           filter: FilterType, filterwidth: real,
                                           xs: Windows, ys: Windows, tx: nat, ty: nat, k: nat, lo: int, hi: int)
    requires Scaled(src, tmp, dst, filter, filterwidth, xs, ys, tx, ty, k, lo, hi)
    ensures Within(dst, k, 0, Darker(hi, 2))
    ensures NoneEmpty(xs) && NoneEmpty(ys) ==>
              && Within(dst, k, Darker(lo, Loss(tx) + Loss(ty)), Darker(hi, 2))
              && (0 < tx <= 252 && 0 < ty <= 252 ==> Within(dst, k, Darker(lo, 2), Darker(hi, 2)))
  {
    BothPasses(src, tmp, dst, filter, filterwidth, xs, ys, tx, ty, k, lo, hi);
    if 0 < tx <= 252 && 0 < ty <= 252 {
      LossOfShortWindows(tx);
      LossOfShortWindows(ty);
    }
    hide Scaled, NoneEmpty, Weighing, Channel, Loss;
  }

  /** For a source bright enough to show it, the lower bound holds exactly when no window of
      either axis is empty. */
  lemma {:induction false} MinimumKeptExactly(src: array2<Word>, tmp: array2<Word>, dst: array2<Word>,
                                              filter: FilterType, filterwidth: real,
                                              xs: Windows, ys: Windows, tx: nat, ty: nat, k: nat, lo: int, hi: int)
    requires Scaled(src, tmp, dst, filter, filterwidth, xs, ys, tx, ty, k, lo, hi) && lo > Loss(tx) + Loss(ty)
    ensures Within(dst, k, lo - Loss(tx) - Loss(ty), 255) <==> NoneEmpty(xs) && NoneEmpty(ys)
  {
    BothPasses(src, tmp, dst, filter, filterwidth, xs, ys, tx, ty, k, lo, hi);
    hide Scaled, Weighing, Channel, Loss;
    if !NoneEmpty(xs) {
      var x :| 0 <= x < |xs| && xs[x] == [];
      assert Channel(dst[0, x], k) == 0;
    } else if !NoneEmpty(ys) {
      var y :| 0 <= y < |ys| && ys[y] == [];
      assert Channel(dst[y, 0], k) == 0;
    }
  }

  // ---------------------------------------------------------------------------
  // Enlarging with a sharp filter
  // ---------------------------------------------------------------------------

  /** The filters that are one at the centre and zero at every other whole position. */
  predicate Sharp(f: FilterType) {
    f.Cubic? || f.Box? || f.Triangle?
  }

  lemma {:induction false} SharpAtWholePositions(f: FilterType, d: int)
    requires Sharp(f)
    ensures Filter(f, d as real) == if d == 0 then 1.0 else 0.0
  {
    HermiteAtZero();
    hide Hermite;
  }

  lemma {:induction false} WholeCentre(a: Axis, m: nat, i: nat, j: nat)
    requires a.Valid() && m > 0 && a.scale == m as real / a.src as real && i * a.src == j * m
    ensures a.Centre(i) == j as real
  {
    var c, n := a.Centre(i), a.src as real;
    var s := a.scale;
    assert s * n == m as real;
    assert c * s == i as real;
    assert (i * a.src) as real == i as real * n && (j * m) as real == j as real * m as real;
    SameQuotient(c, j as real, s, n, i as real, m as real);
  }

  lemma {:induction false} SameQuotient(c: real, j: real, s: real, n: real, i: real, m: real)
    requires s > 0.0 && n > 0.0 && s * n == m && c * s == i && i * n == j * m
    ensures c == j
  {
    assert (c * s) * n == c * (s * n) == c * m;
    assert (c - j) * m == 0.0;
    assert m > 0.0;
  }

  /** At a whole centre j the weights are those of position j alone. */
  lemma {:induction false} SharpWeights(a: Axis, i: nat, j: nat, k: nat)
    requires a.Valid() && a.fscale == 1.0 && Sharp(a.filter) && a.Centre(i) == j as real && k < Count(a, i)
    ensures a.First(i) <= j <= a.Last(i)
    ensures a.Raw(a.Centre(i), a.First(i) + k) == if a.First(i) + k == j then 1.0 else 0.0
  {
    var d := j - (a.First(i) + k);
    SharpAtWholePositions(a.filter, d);
    assert a.Offset(a.Centre(i), a.First(i) + k) == d as real;
    hide Filter;
  }

  lemma {:induction false} CentreInWindow(a: Axis, i: nat, j: nat)
    requires a.Valid() && a.Centre(i) == j as real
    ensures a.First(i) <= j <= a.Last(i)
  {
  }

  /** One weight among zeros. */
  lemma {:induction false} LoneWeight(ws: seq<real>, q: nat)
    requires q < |ws| && ws[q] == 1.0 && forall k :: 0 <= k < |ws| && k != q ==> ws[k] == 0.0
    ensures Total(ws) == 1.0
  {
    var n := |ws| - 1;
    if q < n { LoneWeight(ws[..n], q); } else { NoWeight(ws[..n]); }
  }

  lemma {:induction false} NoWeight(ws: seq<real>)
    requires forall k :: 0 <= k < |ws| ==> ws[k] == 0.0
    ensures Total(ws) == 0.0
  {
    if ws != [] { NoWeight(ws[..|ws| - 1]); }
  }

  /** A window whose only weight is at tap q, for source position j. */
  ghost predicate Lone(w: seq<Contrib>, q: nat, j: nat) {
    && q < |w| && w[q].sourcepos == j && w[q].weight == UNIT
    && forall t :: 0 <= t < |w| && t != q ==> w[t].weight == 0
  }

  lemma {:induction false} SharpWindow(a: Axis, i: nat, j: nat, w: seq<Contrib>) returns (q: nat)
    requires a.Valid() && a.fscale == 1.0 && Sharp(a.filter) && a.Centre(i) == j as real && j < a.src
    requires IsWindow(a, i, w)
    ensures Lone(w, q, j)
  {
    CentreInWindow(a, i, j);
    q := j - a.First(i);
    var ws := RawWeights(a, i, |w|);
    forall k | 0 <= k < |w| ensures ws[k] == if k == q then 1.0 else 0.0 {
      SharpWeights(a, i, j, k);
    }
    hide Axis.Raw, Axis.First, Axis.Last, Axis.Centre, Sharp;
    LoneWeight(ws, q);
    UnitWeights();
    hide FixedPoint, Total, RawWeights;
  }

  lemma {:induction false} UnitWeights()
    ensures FixedPoint(1.0, 1.0 / 1.0) == UNIT && FixedPoint(0.0, 1.0 / 1.0) == 0
  {
  }

  lemma {:induction false} LoneWeighted(line: seq<Word>, w: seq<Contrib>, q: nat, j: nat, k: nat)
    requires k < 4 && InRange(w, |line|) && Lone(w, q, j)
    ensures j < |line| && Weighted(line, w, k) == Channel(line[j], k) * UNIT
  {
    hide Channel;
    var t := |w| - 1;
    if q < t { LoneWeighted(line, w[..t], q, j, k); } else { Unweighted(line, w[..t], k); }
  }

  lemma {:induction false} Unweighted(line: seq<Word>, w: seq<Contrib>, k: nat)
    requires k < 4 && InRange(w, |line|) && forall t :: 0 <= t < |w| ==> w[t].weight == 0
    ensures Weighted(line, w, k) == 0
  {
    hide Channel;
    if w != [] { Unweighted(line, w[..|w| - 1], k); }
  }

  /** One level is lost of anything but black. */
  lemma {:induction false} LonePixel(line: seq<Word>, w: seq<Contrib>, q: nat, j: nat, k: nat)
    requires k < 4 && InRange(w, |line|) && Lone(w, q, j)
    ensures j < |line| && Channel(Pixel(line, w), k) == Darker(Channel(line[j], k), 1)
  {
    LoneWeighted(line, w, q, j, k);
    PackedChannels(Resampled(line, w, 0), Resampled(line, w, 1), Resampled(line, w, 2), Resampled(line, w, 3));
    var v := Channel(line[j], k);
    OneLevel(v);
    assert Resampled(line, w, k) == Clamp(v * UNIT / ONE, 0, 255);
    hide Channel, Weighted, Lone, InRange, Pack;
  }

  lemma {:induction false} OneLevel(v: int)
    requires 0 <= v <= 255
    ensures v * UNIT / ONE == Darker(v, 1)
  {
  }

  /** Enlarging along an axis: the window of a destination that falls on source position j. */
  lemma {:induction false} EnlargedWindow(lists: Windows, filter: FilterType, filterwidth: real, n: int, m: int, i: nat,
                                          j: nat) returns (q: nat)
    requires Fits(filter, filterwidth, n, m) && AreWindows(lists, filter, filterwidth, n, m)
    requires Sharp(filter) && m >= n && i < m && i * n == j * m
    ensures j < n && Lone(lists[i], q, j)
  {
    MadeAxis(filter, Ratio(m, n), WidthFor(filter, filterwidth), n);
    var a := AxisFor(filter, filterwidth, n, m);
    NotReduced(n, m);
    if j >= n { Beyond(i, j, n, m); }
    WholeCentre(a, m, i, j);
    hide IsWindow, Axis.Centre;
    q := SharpWindow(a, i, j, lists[i]);
  }

  lemma {:induction false} NotReduced(n: int, m: int)
    requires 0 < n <= m
    ensures Ratio(m, n) >= 1.0
  {
    var q := Quotient(m as real, n as real);
    if q < 1.0 { assert q * n as real < n as real; }
  }

  lemma {:induction false} Beyond(i: nat, j: nat, n: int, m: int)
    requires 0 < n && i < m && j >= n
    ensures i * n < j * m
  {
    assert i * n < m * n <= m * j;
  }

  /** Enlarged by a sharp filter of any width, every pixel that falls on a source pixel is that
      pixel, two levels darker in each channel. */
  lemma {:induction false} SharpFiltersInterpolate(src: array2<Word>, tmp: array2<Word>, dst: array2<Word>,
                                                   filter: FilterType, filterwidth: real, xs: Windows, ys: Windows,
                                                   x: nat, y: nat, jx: nat, jy: nat, k: nat)
    requires Fits(filter, filterwidth, src.Length1, dst.Length1) && Fits(filter, filterwidth, src.Length0, dst.Length0)
    requires AreWindows(xs, filter, filterwidth, src.Length1, dst.Length1)
    requires AreWindows(ys, filter, filterwidth, src.Length0, dst.Length0)
    requires TwoPasses(src, tmp, dst, xs, ys) && Sharp(filter) && k < 4
    requires dst.Length1 >= src.Length1 && x < dst.Length1 && x * src.Length1 == jx * dst.Length1
    requires dst.Length0 >= src.Length0 && y < dst.Length0 && y * src.Length0 == jy * dst.Length0
    ensures jx < src.Length1 && jy < src.Length0
    ensures Channel(dst[y, x], k) == Darker(Channel(src[jy, jx], k), 2)
  {
    var qx := EnlargedWindow(xs, filter, filterwidth, src.Length1, dst.Length1, x, jx);
    var qy := EnlargedWindow(ys, filter, filterwidth, src.Length0, dst.Length0, y, jy);
    hide Fits, AreWindows, Channel, Lone, InRange;
    LonePixel(Row(src, jy), xs[x], qx, jx, k);
    assert Row(tmp, jy)[x] == tmp[jy, x];
    LonePixel(Column(tmp, x), ys[y], qy, jy, k);
    assert Column(dst, x)[y] == dst[y, x];
  }

  /** So scaling to the same size gives the picture back, two levels darker. */
  lemma {:induction false} SameSizeKeepsPicture(src: array2<Word>, tmp: array2<Word>, dst: array2<Word>,
                                                filter: FilterType, filterwidth: real, xs: Windows, ys: Windows, k: nat)
    requires Fits(filter, filterwidth, src.Length1, dst.Length1) && Fits(filter, filterwidth, src.Length0, dst.Length0)
    requires AreWindows(xs, filter, filterwidth, src.Length1, dst.Length1)
    requires AreWindows(ys, filter, filterwidth, src.Length0, dst.Length0)
    requires TwoPasses(src, tmp, dst, xs, ys) && Sharp(filter) && k < 4
    requires dst.Length1 == src.Length1 && dst.Length0 == src.Length0
    ensures forall y, x :: 0 <= y < dst.Length0 && 0 <= x < dst.Length1 ==>
              Channel(dst[y, x], k) == Darker(Channel(src[y, x], k), 2)
  {
    forall y, x | 0 <= y < dst.Length0 && 0 <= x < dst.Length1
      ensures Channel(dst[y, x], k) == Darker(Channel(src[y, x], k), 2)
    {
      SharpFiltersInterpolate(src, tmp, dst, filter, filterwidth, xs, ys, x, y, x, y, k);
    }
  }

  // ---------------------------------------------------------------------------
  // Reducing with the box filter
  // ---------------------------------------------------------------------------

  /** Off the left edge positions are mirrored about the first pixel, off the right edge about
      the edge itself. */
  lemma {:induction false} SourceMirrors(a: Axis, d: int)
    requires a.src > 0 && d > 0
    ensures a.Source(-d) == d && a.Source(a.src - 1 + d) == a.src - d
    ensures forall j :: 0 <= j < a.src ==> a.Source(j) == j
  {
  }

  /** The axis for a reduction to the p-th part. */
  ghost predicate Reduces(a: Axis, p: nat) {
    && p > 0 && a.Valid() && a.filter == Box
    && a.scale == 1.0 / p as real && a.size == 0.5 * p as real && a.fscale == 1.0 / p as real
  }

  lemma {:induction false} ReducingAxis(n: int, m: int, p: nat)
    requires p > 1 && m > 0 && n == p * m
    ensures n > 0 && Reduces(AxisFor(Box, 0.0, n, m), p)
  {
    assert n >= m;
    var q := Quotient(m as real, n as real);
    var r := Quotient(1.0, p as real);
    assert n as real == p as real * m as real;
    Inverse(q, r, n as real, m as real, p as real);
    assert Ratio(m, n) == r < 1.0;
    var s := Quotient(0.5, r);
    HalfOver(s, r, p as real);
  }

  lemma {:induction false} Inverse(q: real, r: real, n: real, m: real, p: real)
    requires n == p * m && m > 0.0 && p > 1.0 && q * n == m && r * p == 1.0
    ensures q == r && r < 1.0
  {
    assert q * n == (q * p) * m;
    assert (q * p - 1.0) * m == 0.0;
    assert q * p == 1.0;
    assert (q - r) * p == 0.0;
  }

  lemma {:induction false} HalfOver(s: real, r: real, p: real)
    requires s * r == 0.5 && r * p == 1.0
    ensures s == 0.5 * p
  {
    assert (s * r) * p == s * (r * p);
  }

  /** The window of destination i begins p / 2 positions before i p, and has p positions, or one
      more at its end. */
  lemma {:induction false} ReducedWindow(a: Axis, p: nat, i: nat)
    requires Reduces(a, p)
    ensures a.Centre(i) == (i * p) as real && a.First(i) == i * p - p / 2
    ensures Count(a, i) == if p % 2 == 0 then p + 1 else p
  {
    var c := a.Centre(i);
    assert c * a.scale == i as real;
    var r := Quotient(1.0, p as real);
    assert r == a.scale;
    HalfOver2(c, r, i as real, p as real);
    assert (i * p) as real == i as real * p as real;
    hide Axis.Centre;
    HalfFloor(i * p, p);
  }

  lemma {:induction false} HalfOver2(c: real, r: real, i: real, p: real)
    requires c * r == i && r * p == 1.0
    ensures c == i * p
  {
    assert (c * r) * p == c * (r * p);
  }

  lemma {:induction false} HalfFloor(c: int, p: nat)
    ensures Ceil(c as real - 0.5 * p as real) == c - p / 2
    ensures (c as real + 0.5 * p as real).Floor == c + p / 2
  {
    var h := p / 2;
    assert p as real == 2.0 * h as real + (p % 2) as real;
  }

  /** All but that last one weigh the same. */
  lemma {:induction false} ReducedWeight(a: Axis, p: nat, i: nat, t: nat)
    requires Reduces(a, p) && t <= p
    ensures a.Raw(a.Centre(i), a.First(i) + t) == if t < p then 1.0 / p as real else if p % 2 == 0 then 0.0
                                                  else a.Raw(a.Centre(i), a.First(i) + p)
  {
    ReducedWindow(a, p, i);
    var d := p / 2 - t;
    var r := Quotient(1.0, p as real);
    hide Axis.Centre, Axis.First;
    assert a.Centre(i) - (a.First(i) + t) as real == d as real;
    var o := a.Offset(a.Centre(i), a.First(i) + t);
    assert o == Times(d as real, r);
    assert t < p ==> 0 < 2 * d + p <= 2 * p;
    assert t == p && p % 2 == 0 ==> 2 * d + p == 0;
    ShareOf(d, r, p);
  }

  lemma {:induction false} ShareOf(d: int, r: real, p: nat)
    requires p > 0 && r * p as real == 1.0
    ensures 0 < 2 * d + p <= 2 * p ==> -0.5 < Times(d as real, r) <= 0.5
    ensures 2 * d + p == 0 ==> Times(d as real, r) == -0.5
  {
    ShareTimes(d as real, r, p as real);
    hide Times;
    HalfBounds(Times(d as real, r), p as real, d as real);
  }

  lemma {:induction false} ShareTimes(d: real, r: real, p: real)
    requires r * p == 1.0
    ensures Times(Times(d, r), p) == d
  {
    assert (d * r) * p == d * (r * p);
  }

  lemma {:induction false} HalfBounds(x: real, p: real, d: real)
    requires p > 0.0 && Times(x, p) == d
    ensures 0.0 < 2.0 * d + p <= 2.0 * p ==> -0.5 < x <= 0.5
    ensures 2.0 * d + p == 0.0 ==> x == -0.5
  {
    var y, z := Times(x + 0.5, p), Times(0.5 - x, p);
    Halves(x, p, y, z);
    Sign(x + 0.5, p, y);
    Sign(0.5 - x, p, z);
    hide Times;
  }

  lemma {:induction false} Halves(x: real, p: real, y: real, z: real)
    requires y == Times(x + 0.5, p) && z == Times(0.5 - x, p)
    ensures 2.0 * y == 2.0 * Times(x, p) + p && 2.0 * z == p - 2.0 * Times(x, p)
  {
  }

  lemma {:induction false} Sign(x: real, p: real, y: real)
    requires p > 0.0 && y == Times(x, p)
    ensures (y > 0.0 <==> x > 0.0) && (y == 0.0 <==> x == 0.0)
  {
  }

  /** n shares q and nothing else add up to n q. */
  lemma {:induction false} TotalOfShares(ws: seq<real>, p: nat, q: real)
    requires Shares(ws, p, q)
    ensures Total(ws) == (if |ws| < p then |ws| else p) as real * q
  {
    if ws != [] { TotalOfShares(ws[..|ws| - 1], p, q); }
  }

  /** The fixed-point weight of a share of 1 / p. */
  function Share(p: nat): nat
    requires p > 0
  {
    UNIT / p
  }

  lemma {:induction false} FixedShare(p: nat, q: real)
    requires p > 0 && q * p as real == 1.0
    ensures FixedPoint(q, 1.0 / 1.0) == Share(p) && FixedPoint(0.0, 1.0 / 1.0) == 0
  {
    var x := q * UNIT as real;
    ShareOfUnit(x, q, p as real);
    QuotientFloor(x, p);
    assert q * (1.0 / 1.0) * UNIT as real == x;
  }

  lemma {:induction false} ShareOfUnit(x: real, q: real, p: real)
    requires x == q * 65530.0 && q * p == 1.0
    ensures x * p == 65530.0
  {
    assert x * p == (q * p) * 65530.0;
  }

  lemma {:induction false} QuotientFloor(x: real, p: nat)
    requires p > 0 && x * p as real == UNIT as real
    ensures x.Floor == Share(p)
  {
    var f := x.Floor;
    FloorTimes(x, f, p);
    QuotientIs(p, UNIT / p, UNIT % p, f, UNIT - f * p);
  }

  lemma {:induction false} FloorTimes(x: real, f: int, p: nat)
    requires p > 0 && f == x.Floor && x * p as real == UNIT as real
    ensures f * p <= UNIT < f * p + p
  {
    var r := x - f as real;
    RealBelow(r, p as real);
    assert r * p as real == UNIT as real - f as real * p as real;
    assert (f * p) as real == f as real * p as real;
  }

  lemma {:induction false} RealBelow(r: real, p: real)
    requires 0.0 <= r < 1.0 && p > 0.0
    ensures 0.0 <= r * p < p
  {
  }

  /** The first position of window i of a reduction. */
  function Start(i: nat, p: nat): int {
    i * p - p / 2
  }

  /** Window i of a reduction weighs p positions from there on alike, and nothing else. */
  ghost predicate Alike(a: Axis, p: nat, i: nat, w: seq<Contrib>)
    requires p > 0
  {
    && |w| >= p
    && (forall t :: 0 <= t < p ==> w[t].weight == Share(p) && w[t].sourcepos == a.Source(Start(i, p) + t))
    && forall t :: p <= t < |w| ==> w[t].weight == 0
  }

  /** n weights: shares q in the first p places, nothing after. */
  ghost predicate Shares(ws: seq<real>, p: nat, q: real) {
    forall t :: 0 <= t < |ws| ==> ws[t] == if t < p then q else 0.0
  }

  lemma {:induction false} RawAt(a: Axis, i: nat, n: nat, t: nat)
    requires a.Valid() && t < n
    ensures RawWeights(a, i, n)[t] == a.Raw(a.Centre(i), a.First(i) + t)
  {
  }

  lemma {:induction false} ReducedShares(a: Axis, p: nat, i: nat)
    requires Reduces(a, p)
    ensures a.Valid() && Count(a, i) >= p && a.First(i) == Start(i, p)
    ensures Shares(RawWeights(a, i, Count(a, i)), p, 1.0 / p as real)
  {
    ReducedIsValid(a, p);
    ReducedWindow(a, p, i);
    var ws, q := RawWeights(a, i, Count(a, i)), 1.0 / p as real;
    hide Reduces, Axis.Valid, Axis.Raw, Axis.Centre, Axis.First, Axis.Last, Count, RawWeights;
    forall t | 0 <= t < |ws| ensures ws[t] == if t < p then q else 0.0 {
      RawAt(a, i, |ws|, t);
      ReducedWeight(a, p, i, t);
    }
  }

  lemma {:induction false} ReducedIsValid(a: Axis, p: nat)
    requires Reduces(a, p)
    ensures a.Valid()
  {
  }

  lemma {:induction false} SharesOfUnit(ws: seq<real>, p: nat) returns (q: real)
    requires p > 0 && |ws| >= p && Shares(ws, p, 1.0 / p as real)
    ensures q == 1.0 / p as real && q * p as real == 1.0 && Total(ws) == 1.0
  {
    q := Quotient(1.0, p as real);
    TotalOfShares(ws, p, q);
    hide Total, Shares;
  }

  lemma {:induction false} ReducedTaps(a: Axis, p: nat, i: nat, w: seq<Contrib>)
    requires Reduces(a, p) && IsWindow(a, i, w)
    ensures Alike(a, p, i, w)
  {
    assert |w| == Count(a, i) && a.Valid();
    hide *;
    ReducedShares(a, p, i);
    var q := SharesOfUnit(RawWeights(a, i, |w|), p);
    WindowOfShares(a, p, i, w, q);
  }

  lemma {:induction false} WindowOfShares(a: Axis, p: nat, i: nat, w: seq<Contrib>, q: real)
    requires p > 0 && a.Valid() && IsWindow(a, i, w) && |w| >= p && a.First(i) == Start(i, p) && q * p as real == 1.0
    requires Total(RawWeights(a, i, |w|)) == 1.0 && Shares(RawWeights(a, i, |w|), p, q)
    ensures Alike(a, p, i, w)
  {
    FixedShare(p, q);
    hide IsWindow, FixedPoint, Axis.Raw, Axis.Source, Axis.First, Axis.Last, Axis.Centre, Axis.Valid, Share, Start,
      Total, RawWeights, Count;
    forall t | 0 <= t < |w|
      ensures w[t].sourcepos == a.Source(Start(i, p) + t) && w[t].weight == if t < p then Share(p) else 0
    {
      TapIs(a, i, w, t);
    }
  }

  lemma {:induction false} TapIs(a: Axis, i: nat, w: seq<Contrib>, t: nat)
    requires a.Valid() && IsWindow(a, i, w) && t < |w| && Total(RawWeights(a, i, |w|)) == 1.0
    ensures w[t].sourcepos == a.Source(a.First(i) + t)
    ensures w[t].weight == FixedPoint(RawWeights(a, i, |w|)[t], 1.0 / 1.0)
  {
    hide FixedPoint, Axis.Raw, Axis.Source, Axis.First, Axis.Last, Axis.Centre, Total, RawWeights, Count;
  }

  /** The sum of channel k over the positions of the first n taps. */
  function TapSum(line: seq<Word>, w: seq<Contrib>, n: nat, k: nat): int
    requires k < 4 && n <= |w| && InRange(w, |line|)
  {
    if n <= 0 then 0 else TapSum(line, w, n - 1, k) + Channel(line[w[n - 1].sourcepos], k)
  }

  lemma {:induction false} AlikeWeighted(w: seq<Contrib>, line: seq<Word>, p: nat, u: int, n: nat, k: nat)
    requires k < 4 && InRange(w, |line|) && p <= |w| && n <= |w|
    requires forall t :: 0 <= t < |w| ==> w[t].weight == if t < p then u else 0
    ensures Weighted(line, w[..n], k) == u * TapSum(line, w, if n < p then n else p, k)
  {
    hide Channel;
    if n > 0 {
      AlikeWeighted(w, line, p, u, n - 1, k);
      assert w[..n][..n - 1] == w[..n - 1];
      if n <= p {
        Distribute(u, TapSum(line, w, n - 1, k), Channel(line[w[n - 1].sourcepos], k));
      }
    }
  }

  lemma {:induction false} Distribute(u: int, s: int, c: int)
    ensures u * s + c * u == u * (s + c)
  {
  }

  lemma {:induction false} AlikePixel(a: Axis, p: nat, i: nat, w: seq<Contrib>, line: seq<Word>, k: nat)
    requires p > 0 && k < 4 && a.Valid() && IsWindow(a, i, w) && Alike(a, p, i, w) && InRange(w, |line|)
    ensures Resampled(line, w, k) == Share(p) * TapSum(line, w, p, k) / ONE
  {
    hide IsWindow, Channel, Axis.Source, Share, TapSum, Weighted, Resampled;
    AlikeWeighted(w, line, p, Share(p), |w|, k);
    assert w[..|w|] == w;
    WindowIsNearUnit(a, i, w);
    PassBounds(line, w, |w|, k, 0, 255);
  }

  /** Reduced to the p-th part by the box filter, a pixel is the sum of p neighbouring source
      pixels times 65530 / p, over 65536. */
  lemma {:induction false} BoxReducesByAveraging(lists: Windows, line: seq<Word>, n: int, m: int, p: nat, i: nat,
                                                 k: nat)
    requires p > 1 && n == p * m && |line| == n && i < m && k < 4
    requires Fits(Box, 0.0, n, m) && AreWindows(lists, Box, 0.0, n, m) && AllInRange(lists, n)
    ensures Alike(AxisFor(Box, 0.0, n, m), p, i, lists[i])
    ensures Channel(Pass(line, lists)[i], k) == Share(p) * TapSum(line, lists[i], p, k) / ONE
  {
    var a, w := AxisFor(Box, 0.0, n, m), lists[i];
    ReducingAxis(n, m, p);
    assert a.Valid() && IsWindow(a, i, w) && InRange(w, n);
    hide *;
    ReducedTaps(a, p, i, w);
    AlikeIsLong(a, p, i, w);
    AlikePixel(a, p, i, w, line, k);
    PassAt(line, lists, i, k);
  }

  lemma {:induction false} AlikeIsLong(a: Axis, p: nat, i: nat, w: seq<Contrib>)
    requires p > 0 && Alike(a, p, i, w)
    ensures |w| >= p && w != []
  {
  }
}
