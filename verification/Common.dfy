/** Small vocabulary shared by the models. */
module Common {

  datatype Option<+T> = None | Some(value: T)

  datatype Result<+T, +E> = Ok(value: T) | Err(error: E)

  function Max(a: int, b: int): int {
    if a < b then b else a
  }

  function Min(a: int, b: int): int {
    if a < b then a else b
  }

  lemma MulMonotone(a: int, b: int, d: int)
    requires a <= b && d >= 0
    ensures a * d <= b * d
  {
    assert b * d - a * d == (b - a) * d;
  }

  /** Quotient and remainder are determined by their product form. */
  lemma DivModUnique(d: int, q: int, r: int, q': int, r': int)
    requires 0 <= r < d && 0 <= r' < d && q * d + r == q' * d + r'
    ensures q == q' && r == r'
  {
    assert (q + 1) * d == q * d + d && (q' + 1) * d == q' * d + d;
    if q < q' {
      MulMonotone(q + 1, q', d);
    } else if q' < q {
      MulMonotone(q' + 1, q, d);
    }
  }

  lemma QuotientIs(x: int, d: int, q: int, r: int)
    requires 0 <= r < d && x == q * d + r
    ensures x / d == q && x % d == r
  {
    DivModUnique(d, x / d, x % d, q, r);
  }

  const TWO_63: int := 0x8000_0000_0000_0000
  const TWO_64: int := 0x1_0000_0000_0000_0000

  /** The signed 64-bit number that `x` wraps to. */
  function Int64(x: int): int {
    (x + TWO_63) % TWO_64 - TWO_63
  }

  predicate IsInt64(x: int) {
    -TWO_63 <= x < TWO_63
  }

  /** `k` times `x`, then the rest. */
  function Times<T>(x: T, k: nat, rest: seq<T>): seq<T> {
    if k == 0 then rest else [x] + Times(x, k - 1, rest)
  }

  lemma {:induction false} TimesInjective<T>(x: T, k: nat, a: seq<T>, b: seq<T>)
    requires Times(x, k, a) == Times(x, k, b)
    ensures a == b
  {
    if k > 0 {
      assert ([x] + Times(x, k - 1, a))[1..] == Times(x, k - 1, a);
      assert ([x] + Times(x, k - 1, b))[1..] == Times(x, k - 1, b);
      TimesInjective(x, k - 1, a, b);
    }
  }
}
