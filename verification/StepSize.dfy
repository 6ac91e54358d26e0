/** Arithmetic of the adaptive step size: why retrying must stop. */
module StepSize {
  import opened Common

  const DT_MIN := 0.0001
  const DT_MAX := 0.5
  const DEF_TSTEP := 0.025
  const MAX_RESTARTS: nat := 81

  /** A bound on the step after n rejected trials. */
  function Shrunk(n: nat): real {
    DT_MAX * Power(0.9, n)
  }

  lemma {:induction false} ShrunkNone()
    ensures Shrunk(0) == DT_MAX
  {
  }

  lemma {:induction false} PowerOfSum(x: real, m: nat, n: nat)
    ensures Power(x, m + n) == Power(x, m) * Power(x, n)
  {
    if m > 0 {
      PowerOfSum(x, m - 1, n);
      assert Power(x, m + n) == x * Power(x, m - 1 + n);
    }
  }

  /** 0.9^9 < 0.38743, its cube is below 0.058155, and the cube of that below 0.00019669. */
  lemma {:induction false} PowerAtMaxRestarts()
    ensures 0.0 < Power(0.9, 81) < 0.0002
  {
    assert Power(0.9, 3) == 0.729;
    PowerOfSum(0.9, 3, 3);
    PowerOfSum(0.9, 6, 3);
    var a := Power(0.9, 9);
    assert a == 0.387420489;
    PowerOfSum(0.9, 9, 9);
    PowerOfSum(0.9, 18, 9);
    var b := Power(0.9, 27);
    PowerOfSum(0.9, 27, 27);
    PowerOfSum(0.9, 54, 27);
    assert 0.0 < b < 0.058155;
    CubeBound(b);
  }

  lemma {:induction false} CubeBound(b: real)
    requires 0.0 < b < 0.058155
    ensures 0.0 < b * b * b < 0.0002
  {
    assert 0.0 < b * b < 0.058155 * 0.058155;
    assert b * b * b < 0.058155 * 0.058155 * 0.058155;
  }

  lemma {:induction false} PowerShrinks(n: nat)
    requires n >= 81
    ensures 0.0 < Power(0.9, n) <= Power(0.9, 81)
  {
    if n == 81 { PowerAtMaxRestarts(); } else { PowerShrinks(n - 1); }
  }

  /** While the step is above the minimum, fewer than 81 trials have been rejected. */
  lemma {:induction false} RestartsAreBounded(dt: real, n: nat)
    requires DT_MIN < dt <= Shrunk(n)
    ensures n < MAX_RESTARTS
  {
    if n >= MAX_RESTARTS {
      PowerShrinks(n);
      PowerAtMaxRestarts();
    }
  }

  lemma {:induction false} ScaledDown(dt: real, e: real) returns (p: real)
    requires 0.0 < dt && 0.0 < e <= 1.0
    ensures 0.0 < p <= dt && dt * (0.9 * e) == 0.9 * p
  {
    p := dt * e;
  }

  /** A rejected trial shrinks the step by at least a tenth. */
  lemma {:induction false} RejectionShrinks(dt: real, e: real, n: nat)
    requires 0.0 < dt <= Shrunk(n) && 0.0 < e <= 1.0
    ensures 0.0 < dt * (0.9 * e) <= Shrunk(n + 1)
  {
    var p := ScaledDown(dt, e);
    assert Shrunk(n + 1) == 0.9 * Shrunk(n);
  }
}
