/** What several components share. */
module Common {

  datatype Option<T> = None | Some(value: T)

  /** Unsigned machine integers of 8, 16 and 32 bits. */
  type Byte = x: int | 0 <= x < 0x100

  type Half = x: int | 0 <= x < 0x1_0000

  type Word = x: int | 0 <= x < 0x1_0000_0000

  lemma {:induction false} Assoc<T>(a: seq<T>, b: seq<T>, c: seq<T>)
    ensures (a + b) + c == a + (b + c)
  {
  }

  /** Division with remainder has one quotient. */
  lemma {:induction false} QuotientIs(b: int, d: int, m: int, q: int, r: int)
    requires b > 0 && 0 <= m < b && 0 <= r < b && b * d + m == b * q + r
    ensures d == q
  {
    assert b * (d - q) == b * d - b * q && b * (q - d) == b * q - b * d;
    if d > q { MultipleIsFar(b, d - q); }
    if d < q { MultipleIsFar(b, q - d); }
  }

  lemma {:induction false} MultipleIsFar(b: int, d: int)
    requires b > 0 && d > 0
    ensures b * d >= b
  {
    assert b * d == b + b * (d - 1);
  }

  /** Real arithmetic by name, so that a proof can hide how it is computed. */
  function Times(a: real, b: real): real {
    a * b
  }

  function Abs(t: real): (r: real)
    ensures r >= 0.0
  {
    if t < 0.0 then -t else t
  }

  function Power(x: real, n: nat): real {
    if n <= 0 then 1.0 else x * Power(x, n - 1)
  }
}
