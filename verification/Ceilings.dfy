/** Division rounded up. */
module Ceilings {

  function CeilDiv(a: nat, b: nat): nat
    requires b > 0
  {
    (a + b - 1) / b
  }

  lemma TimesMonotone(b: nat, x: int, y: int)
    requires x <= y
    ensures b * x <= b * y
  {
  }

  lemma QuotientIs(x: nat, b: nat, c: nat)
    requires b > 0 && b * c <= x < b * c + b
    ensures x / b == c
  {
    var q := x / b;
    assert x == b * q + x % b;
    assert b * (c + 1) == b * c + b && b * (q + 1) == b * q + b;
    if q > c {
      TimesMonotone(b, c + 1, q);
    } else if q < c {
      TimesMonotone(b, q + 1, c);
    }
  }

  /** c is ceil(a / b) when b(c - 1) < a <= bc. */
  lemma CeilDivIs(a: nat, b: nat, c: nat)
    requires b > 0
    requires a <= b * c
    requires c > 0 ==> b * (c - 1) < a
    ensures CeilDiv(a, b) == c
  {
    if c > 0 {
      assert b * c == b * (c - 1) + b;
    }
    QuotientIs(a + b - 1, b, c);
  }

  lemma CeilDivBounds(a: nat, b: nat)
    requires b > 0
    ensures a <= b * CeilDiv(a, b)
    ensures CeilDiv(a, b) > 0 ==> b * (CeilDiv(a, b) - 1) < a
  {
    var x := a + b - 1;
    assert x == b * (x / b) + x % b;
  }

  /** n times b covers a exactly when n is at least ceil(a / b). */
  lemma CeilDivLeast(a: nat, b: nat, n: nat)
    requires b > 0
    ensures a <= b * n <==> CeilDiv(a, b) <= n
  {
    var c := CeilDiv(a, b);
    CeilDivBounds(a, b);
    if c <= n {
      TimesMonotone(b, c, n);
    } else {
      TimesMonotone(b, n, c - 1);
    }
  }
}
