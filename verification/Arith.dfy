/** Fixed-width integer types, the integer operators of the source language with the division facts the other modules
    need, and what several modules share. */
module Arith {

  type u16 = x: int | 0 <= x < 0x1_0000
  type byte = x: int | 0 <= x < 0x100

  datatype Option<+T> = None | Some(value: T)

  /** No element occurs twice. */
  ghost predicate Distinct<T>(s: seq<T>) {
    forall i, j :: 0 <= i < j < |s| ==> s[i] != s[j]
  }

  function Min(a: int, b: int): int { if a <= b then a else b }

  function Max(a: int, b: int): int { if a >= b then a else b }

  function Clamp(x: int, lo: int, hi: int): int
    requires lo <= hi
  {
    if x < lo then lo else if x > hi then hi else x
  }

  /** Integer division as Rust's `/` does it: the quotient is truncated toward zero. */
  function TruncDiv(a: int, b: int): int
    requires b > 0
  {
    if a >= 0 then a / b else -((-a) / b)
  }

  /** Truncating division never overshoots and stays within one of the exact quotient. */
  lemma TruncDivBounds(a: int, b: int)
    requires b > 0
    ensures a >= 0 ==> 0 <= TruncDiv(a, b) && TruncDiv(a, b) * b <= a < (TruncDiv(a, b) + 1) * b
    ensures a <= 0 ==> TruncDiv(a, b) <= 0 && (TruncDiv(a, b) - 1) * b < a <= TruncDiv(a, b) * b
  {
    var q := if a >= 0 then a / b else (-a) / b;
    var m := if a >= 0 then a else -a;
    DivBounds(m, b);
    assert a < 0 ==> TruncDiv(a, b) * b == -(q * b);
    assert a < 0 ==> (TruncDiv(a, b) - 1) * b == -((q + 1) * b);
  }

  lemma DivBounds(a: int, b: int)
    requires a >= 0 && b > 0
    ensures 0 <= a / b && (a / b) * b <= a < (a / b + 1) * b
  {
    assert a == (a / b) * b + a % b;
  }

  lemma ModOnce(i: int, n: int)
    requires 0 <= i < 2 * n
    ensures i % n == if i < n then i else i - n
  {
    DivBounds(i, n);
    assert i == (i / n) * n + i % n;
    if i / n >= 2 {
      MulMono(2, i / n, n);
    }
  }

  lemma MulMono(a: int, b: int, c: int)
    requires a <= b && c >= 0
    ensures a * c <= b * c
    ensures c * a <= c * b
  {
  }

  lemma MulCancel(a: int, b: int, c: int)
    requires a * c <= b * c && c > 0
    ensures a <= b
  {
  }

  lemma MulDist(a: int, b: int, c: int)
    ensures (a + b) * c == a * c + b * c
    ensures c * (a + b) == c * a + c * b
  {
  }

  /** The quotient is the largest integer whose product with `b` does not exceed `a`. */
  lemma DivLargest(a: int, b: int, q: int)
    requires a >= 0 && b > 0 && q * b <= a
    ensures q <= a / b
  {
    DivBounds(a, b);
    if q > a / b {
      MulMono(a / b + 1, q, b);
      assert false;
    }
  }

  lemma DivMono(a: int, a': int, b: int)
    requires 0 <= a <= a' && b > 0
    ensures a / b <= a' / b
  {
    DivBounds(a, b);
    DivLargest(a', b, a / b);
  }

  lemma DivDiv(a: int, b: int, c: int)
    requires a >= 0 && b > 0 && c > 0
    ensures b * c > 0
    ensures (a / b) / c == a / (b * c)
  {
    assert b * c > 0;
    var q := (a / b) / c;
    DivBounds(a, b);
    DivBounds(a / b, c);
    // q * (b * c) <= a, so q does not exceed the right-hand side
    MulMono(q * c, a / b, b);
    assert q * (b * c) == (q * c) * b;
    DivLargest(a, b * c, q);
    // and the right-hand side r satisfies r * c <= a / b
    var r := a / (b * c);
    DivBounds(a, b * c);
    assert r * (b * c) == (r * c) * b;
    DivLargest(a, b, r * c);
    DivLargest(a / b, c, r);
  }
}
