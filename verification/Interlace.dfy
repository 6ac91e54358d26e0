/**
 Interlaced GIF rows: the order in which the four passes visit them, and what is left of
 it once every row has been painted.
 */
module Interlace {

  /** Four passes: every eighth row from 0, every eighth from 4, every fourth from 2,
      every second from 1. */
  function Offset(pass: nat): nat
    requires pass < 4
  {
    [0, 4, 2, 1][pass]
  }

  function Jump(pass: nat): (jump: nat)
    requires pass < 4
    ensures jump > 0
  {
    [8, 8, 4, 2][pass]
  }

  /** j, j + jump, ... below h. */
  function Stripe(j: nat, jump: nat, h: nat): seq<nat>
    requires jump > 0
    decreases h - j
  {
    if j < h then [j] + Stripe(j + jump, jump, h) else []
  }

  /** The rows of the first passes, in the order they are visited. */
  function Visited(passes: nat, h: nat): seq<nat>
    requires passes <= 4
  {
    if passes <= 0 then []
    else Visited(passes - 1, h) + Stripe(Offset(passes - 1), Jump(passes - 1), h)
  }

  function Order(h: nat): seq<nat> {
    Visited(4, h)
  }

  // ---------------------------------------------------------------------------
  // The same order, told row by row
  // ---------------------------------------------------------------------------

  /** The pass that brings row r, from its low bits alone. */
  function PassOf(r: nat): (pass: nat)
    ensures pass < 4
  {
    if r % 8 == 0 then 0 else if r % 8 == 4 then 1 else if r % 4 == 2 then 2 else 3
  }

  /** Rows of one pass in an image of h rows. */
  function PassSize(pass: nat, h: nat): nat
    requires pass < 4
  {
    if Offset(pass) < h then (h - Offset(pass) + Jump(pass) - 1) / Jump(pass) else 0
  }

  function Before(pass: nat, h: nat): nat
    requires pass <= 4
  {
    if pass <= 0 then 0 else Before(pass - 1, h) + PassSize(pass - 1, h)
  }

  /** Where row r comes in the file. */
  function Rank(h: nat, r: nat): nat
    requires r < h
  {
    Before(PassOf(r), h) + r / Jump(PassOf(r))
  }

  lemma {:induction false} StripeAt(pass: nat, q: nat, h: nat)
    requires pass < 4
    ensures var j := Offset(pass) + q * Jump(pass);
            |Stripe(j, Jump(pass), h)| == (if j < h then (h - j + Jump(pass) - 1) / Jump(pass) else 0)
    ensures var s := Stripe(Offset(pass) + q * Jump(pass), Jump(pass), h);
            forall t :: 0 <= t < |s| ==> s[t] == Offset(pass) + (q + t) * Jump(pass) < h
    decreases h - (Offset(pass) + q * Jump(pass))
  {
    var j := Offset(pass) + q * Jump(pass);
    if j < h {
      StripeAt(pass, q + 1, h);
      Next(pass, q);
      var s := Stripe(j, Jump(pass), h);
      var rest := Stripe(j + Jump(pass), Jump(pass), h);
      forall t | 0 <= t < |s| ensures s[t] == Offset(pass) + (q + t) * Jump(pass) < h {
        if t > 0 {
          assert s[t] == rest[t - 1];
        }
      }
    }
  }

  lemma {:induction false} Next(pass: nat, q: nat)
    requires pass < 4
    ensures Offset(pass) + (q + 1) * Jump(pass) == Offset(pass) + q * Jump(pass) + Jump(pass)
  {
  }

  lemma {:induction false} VisitedSize(passes: nat, h: nat)
    requires passes <= 4
    ensures |Visited(passes, h)| == Before(passes, h)
  {
    if passes > 0 {
      VisitedSize(passes - 1, h);
      StripeAt(passes - 1, 0, h);
    }
  }

  lemma {:induction false} PassSizes(h: nat, q: nat, s: nat)
    requires h == 8 * q + s && s < 8
    ensures PassSize(0, h) == q + if s > 0 then 1 else 0
    ensures PassSize(1, h) == q + if s > 4 then 1 else 0
    ensures PassSize(2, h) == 2 * q + if s > 6 then 2 else if s > 2 then 1 else 0
    ensures PassSize(3, h) == 4 * q + s / 2
  {
  }

  lemma {:induction false} PassesCoverAll(h: nat)
    ensures Before(4, h) == h
  {
    PassSizes(h, h / 8, h % 8);
    hide PassSize;
    assert Before(1, h) == PassSize(0, h);
    assert Before(2, h) == Before(1, h) + PassSize(1, h);
    assert Before(3, h) == Before(2, h) + PassSize(2, h);
  }

  /** Element t of pass p is at position Before(p) + t of the whole order. */
  lemma {:induction false} OrderAt(passes: nat, pass: nat, t: nat, h: nat)
    requires pass < passes <= 4 && t < PassSize(pass, h)
    ensures Before(pass, h) + t < |Visited(passes, h)|
    ensures Visited(passes, h)[Before(pass, h) + t] == Offset(pass) + t * Jump(pass) < h
  {
    VisitedSize(passes, h);
    VisitedSize(passes - 1, h);
    StripeAt(passes - 1, 0, h);
    if pass < passes - 1 {
      OrderAt(passes - 1, pass, t, h);
    }
  }

  lemma {:induction false} RowInStride(h: nat, r: nat, offset: nat, jump: nat)
    requires r < h && offset < jump && (jump == 8 || jump == 4 || jump == 2) && r % jump == offset
    ensures r == offset + (r / jump) * jump && r / jump < (h - offset + jump - 1) / jump
  {
    var q := r / jump;
    assert r == q * jump + offset;
    assert h - offset + jump - 1 >= (q + 1) * jump;
  }

  lemma {:induction false} RowInPass(h: nat, r: nat)
    requires r < h
    ensures var p := PassOf(r); r == Offset(p) + (r / Jump(p)) * Jump(p) && r / Jump(p) < PassSize(p, h)
  {
    var p := PassOf(r);
    LowBits(r);
    RowInStride(h, r, Offset(p), Jump(p));
  }

  lemma {:induction false} LowBits(r: nat)
    ensures var p := PassOf(r); Offset(p) < Jump(p) && r % Jump(p) == Offset(p)
  {
  }

  /** Every row of an image of any height is visited exactly once, and Rank says when. */
  lemma {:induction false} EachRowOnce(h: nat)
    ensures |Order(h)| == h
    ensures forall r :: 0 <= r < h ==> Rank(h, r) < h && Order(h)[Rank(h, r)] == r
    ensures forall i :: 0 <= i < h ==> Order(h)[i] < h && Rank(h, Order(h)[i]) == i
  {
    VisitedSize(4, h);
    PassesCoverAll(h);
    forall r | 0 <= r < h ensures Rank(h, r) < h && Order(h)[Rank(h, r)] == r {
      RankFinds(h, r);
    }
    forall i | 0 <= i < h ensures Order(h)[i] < h && Rank(h, Order(h)[i]) == i {
      RankOfElement(h, i);
    }
  }

  lemma {:induction false} RankFinds(h: nat, r: nat)
    requires r < h
    ensures Rank(h, r) < |Order(h)| && Order(h)[Rank(h, r)] == r
  {
    RowInPass(h, r);
    hide Offset, Jump, PassSize, PassOf, Before, Visited;
    OrderAt(4, PassOf(r), r / Jump(PassOf(r)), h);
  }

  lemma {:induction false} RankOfElement(h: nat, i: nat)
    requires i < Before(4, h)
    ensures i < |Order(h)| && Order(h)[i] < h && Rank(h, Order(h)[i]) == i
  {
    var p := PassAt(h, i, 4);
    hide Offset, Jump, PassSize, PassOf, Before, Visited;
    OrderAt(4, p, i - Before(p, h), h);
    PassOfElement(p, i - Before(p, h));
  }

  lemma {:induction false} PassAt(h: nat, i: nat, passes: nat) returns (p: nat)
    requires passes <= 4 && i < Before(passes, h)
    ensures p < passes && Before(p, h) <= i < Before(p, h) + PassSize(p, h)
  {
    p := passes - 1;
    if i < Before(p, h) {
      p := PassAt(h, i, p);
    }
  }

  lemma {:induction false} PassOfElement(p: nat, t: nat)
    requires p < 4
    ensures PassOf(Offset(p) + t * Jump(p)) == p && (Offset(p) + t * Jump(p)) / Jump(p) == t
  {
  }

  // ---------------------------------------------------------------------------
  // Painting
  // ---------------------------------------------------------------------------

  /** Row order[i] of the picture becomes rows[i], one after the other. */
  function Paint<T>(picture: seq<T>, order: seq<nat>, rows: seq<T>): (painted: seq<T>)
    requires |rows| <= |order| && forall i :: 0 <= i < |order| ==> order[i] < |picture|
    ensures |painted| == |picture|
  {
    if rows == [] then picture
    else
      var n := |rows| - 1;
      Paint(picture, order, rows[..n])[order[n] := rows[n]]
  }

  /** When no row comes twice, painting puts every row where it belongs and leaves the rest. */
  lemma {:induction false} PaintPuts<T>(picture: seq<T>, order: seq<nat>, rows: seq<T>)
    requires |rows| <= |order| && forall i :: 0 <= i < |order| ==> order[i] < |picture|
    requires forall i, j :: 0 <= i < j < |order| ==> order[i] != order[j]
    ensures forall i :: 0 <= i < |rows| ==> Paint(picture, order, rows)[order[i]] == rows[i]
    ensures forall r :: 0 <= r < |picture| && r !in order[..|rows|] ==> Paint(picture, order, rows)[r] == picture[r]
  {
    if rows != [] {
      var n := |rows| - 1;
      PaintPuts(picture, order, rows[..n]);
      assert order[..|rows|] == order[..n] + [order[n]];
    }
  }

  /** The rows that have arrived are exactly those ranked below their number. */
  lemma {:induction false} PaintedInterlaced<T>(picture: seq<T>, rows: seq<T>)
    requires |rows| <= |picture|
    ensures |Order(|picture|)| == |picture| && forall i :: 0 <= i < |picture| ==> Order(|picture|)[i] < |picture|
    ensures forall r :: 0 <= r < |picture| ==>
              Paint(picture, Order(|picture|), rows)[r]
              == if Rank(|picture|, r) < |rows| then rows[Rank(|picture|, r)] else picture[r]
  {
    var h := |picture|;
    var order := Order(h);
    EachRowOnce(h);
    hide Order, Rank;
    forall i, j | 0 <= i < j < |order| ensures order[i] != order[j] {
      assert Rank(h, order[i]) == i;
    }
    PaintPuts(picture, order, rows);
    forall r | 0 <= r < h
      ensures Paint(picture, order, rows)[r] == if Rank(h, r) < |rows| then rows[Rank(h, r)] else picture[r]
    {
      assert order[Rank(h, r)] == r;
    }
  }
}
