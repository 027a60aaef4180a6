/** Arithmetic shared by every store: exact reals for tokens, milliseconds for time. */
module Numbers {

  datatype Option<+T> = None | Some(value: T)

  function Min(a: real, b: real): real {
    if a <= b then a else b
  }

  function Abs(x: real): real {
    if x < 0.0 then -x else x
  }

  /** Conversion of a float to an integer by truncation toward zero (Go's `int(x)`). */
  function Trunc(x: real): (n: int)
    ensures x >= 0.0 ==> n as real <= x < n as real + 1.0
    ensures x < 0.0 ==> n as real - 1.0 < x <= n as real
  {
    if x >= 0.0 then x.Floor else -(-x).Floor
  }

  function Ceil(x: real): (n: int)
    ensures n as real - 1.0 < x <= n as real
  {
    -(-x).Floor
  }

  /** `later` is some whole number of seconds after `now`, both in milliseconds. */
  predicate WholeSecondsLater(now: real, later: real) {
    later == now + ((later - now) / 1000.0).Floor as real * 1000.0
  }

  /** Tokens that `rate` tokens per second add in `ms` milliseconds. */
  function Earned(rate: real, ms: real): real {
    rate * ms / 1000.0
  }

  lemma EarnedMonotone(rate: real, a: real, b: real)
    requires rate >= 0.0 && a <= b
    ensures Earned(rate, a) <= Earned(rate, b)
  {
    assert rate * (b - a) >= 0.0;
  }

  lemma EarnedSum(rate: real, a: real, b: real)
    ensures Earned(rate, a + b) == Earned(rate, a) + Earned(rate, b)
    ensures Earned(rate, 0.0) == 0.0
  {
  }

  lemma ProductMonotone(a: real, b: real, rate: real)
    requires rate > 0.0
    ensures a <= b <==> a * rate <= b * rate
  {
    if a <= b {
      assert (b - a) * rate >= 0.0;
    } else {
      assert (a - b) * rate > 0.0;
    }
  }

  lemma QuotientBounds(need: real, rate: real, b: real)
    requires rate > 0.0
    ensures need / rate <= b <==> need <= b * rate
    ensures need / rate >= b <==> need >= b * rate
  {
    var q := need / rate;
    assert q * rate == need;
    ProductMonotone(q, b, rate);
    ProductMonotone(b, q, rate);
  }

  function Times(n: int, x: real): real {
    n as real * x
  }

  lemma TimesSucc(n: int, x: real)
    ensures Times(n + 1, x) == Times(n, x) + x
  {
  }

  lemma TimesMonotone(m: int, n: int, x: real)
    requires m <= n && x >= 0.0
    ensures Times(m, x) <= Times(n, x)
  {
    assert (n - m) as real * x >= 0.0;
  }
}
