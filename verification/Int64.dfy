/**
 Go's `int64`: the integers of 64 bits, with the wrap-around and the truncated
 division of "Integer operators" and "Integer overflow" in the Go Programming
 Language Specification.
 */
module Int64 {
  const MODULUS: int := 0x1_0000_0000_0000_0000
  const MIN: int := -0x8000_0000_0000_0000
  const MAX: int := 0x7FFF_FFFF_FFFF_FFFF

  type int64 = x: int | -0x8000_0000_0000_0000 <= x <= 0x7FFF_FFFF_FFFF_FFFF

  /** The 64-bit two's complement value of an integer. */
  function Wrap(x: int): (r: int64)
    ensures (x - r) % MODULUS == 0
  {
    var m := x % MODULUS;
    if m <= MAX then m else m - MODULUS
  }

  /** x and y have the same low 64 bits. */
  ghost predicate Congruent(x: int, y: int)
  {
    exists k: int :: x - y == k * MODULUS
  }

  /** `Wrap` picks the only 64-bit value with the same low bits. */
  lemma WrapUnique(x: int, r: int64)
    ensures r == Wrap(x) <==> Congruent(x, r)
  {
    var w := Wrap(x);
    var k := (x - w) / MODULUS;
    assert x - w == k * MODULUS;
    if Congruent(x, r) {
      var j: int :| x - r == j * MODULUS;
      assert r - w == (k - j) * MODULUS;
    }
  }

  lemma WrapFits(x: int)
    requires MIN <= x <= MAX
    ensures Wrap(x) == x
  {
  }

  function Add(l: int64, r: int64): int64 { Wrap(l as int + r as int) }
  function Sub(l: int64, r: int64): int64 { Wrap(l as int - r as int) }
  function Mul(l: int64, r: int64): int64 { Wrap(l as int * r as int) }
  function Neg(x: int64): int64 { Wrap(0 - x as int) }

  lemma WrapParts(x: int) returns (k: int)
    ensures x == Wrap(x) + k * MODULUS
  {
    WrapUnique(x, Wrap(x));
    k :| x - Wrap(x) == k * MODULUS;
  }

  lemma WrapSum(x: int, y: int)
    ensures Wrap(Wrap(x) + Wrap(y)) == Wrap(x + y)
  {
    var j := WrapParts(x);
    var k := WrapParts(y);
    SameLowBits(x + y, Wrap(x) + Wrap(y), j + k);
  }

  lemma WrapNegation(x: int)
    ensures Neg(Wrap(x)) == Wrap(0 - x)
  {
    WrapFits(0);
    WrapDifference(0, x);
  }

  lemma WrapDifference(x: int, y: int)
    ensures Wrap(Wrap(x) - Wrap(y)) == Wrap(x - y)
  {
    var j := WrapParts(x);
    var k := WrapParts(y);
    SameLowBits(x - y, Wrap(x) - Wrap(y), j - k);
  }

  lemma WrapProduct(x: int, y: int)
    ensures Wrap(Wrap(x) * Wrap(y)) == Wrap(x * y)
  {
    var j := WrapParts(x);
    var k := WrapParts(y);
    var a, b := Wrap(x) as int, Wrap(y) as int;
    ProductParts(a, b, j * MODULUS, k * MODULUS);
    FactorOut(a, b, j, k);
    SameLowBits(x * y, a * b, a * k + j * b + j * (k * MODULUS));
  }

  lemma ProductParts(a: int, b: int, c: int, d: int)
    ensures (a + c) * (b + d) == a * b + a * d + c * b + c * d
  {
  }

  lemma FactorOut(a: int, b: int, j: int, k: int)
    ensures a * (k * MODULUS) + (j * MODULUS) * b + (j * MODULUS) * (k * MODULUS)
         == (a * k + j * b + j * (k * MODULUS)) * MODULUS
  {
    assert a * (k * MODULUS) == (a * k) * MODULUS;
    assert (j * MODULUS) * b == (j * b) * MODULUS;
    assert (j * MODULUS) * (k * MODULUS) == (j * (k * MODULUS)) * MODULUS;
  }

  lemma SameLowBits(x: int, y: int, k: int)
    requires x - y == k * MODULUS
    ensures Wrap(x) == Wrap(y)
  {
    var j := WrapParts(y);
    assert x - Wrap(y) == (k + j) * MODULUS;
    WrapUnique(x, Wrap(y));
  }

  function Abs(x: int): nat { if x < 0 then -x else x }

  /** x with its sign turned when asked to. */
  function Signed(negative: bool, x: int): int { if negative then -x else x }

  /** The quotient of truncated division, before it is wrapped to 64 bits. */
  function Quotient(l: int, r: int): int
    requires r != 0
  {
    Signed((l < 0) != (r < 0), Abs(l) / Abs(r))
  }

  /** Division truncated toward zero, wrapped to 64 bits. */
  function Div(l: int64, r: int64): int64
    requires r != 0
  {
    Wrap(Quotient(l, r))
  }

  /** The remainder of truncated division: it has the sign of the dividend. */
  function Mod(l: int64, r: int64): int64
    requires r != 0
  {
    Signed(l < 0, Abs(l) % Abs(r))
  }

  /** The product p of a quotient and its divisor never exceeds the dividend. */
  lemma NaturalQuotient(a: nat, b: nat, q: nat, m: nat, p: int)
    requires b > 0 && p == q * b && a == p + m
    ensures q <= p <= a
    ensures b >= 2 ==> 2 * q <= a
  {
    assert q * b == q + q * (b - 1);
    if b >= 2 {
      assert q * b == 2 * q + q * (b - 2);
    }
  }

  lemma SignedProduct(s: bool, t: bool, q: int, b: int, p: int)
    requires p == q * b
    ensures Signed(s != t, q) * Signed(t, b) == Signed(s, p)
  {
    assert (-q) * b == -p;
    assert q * (-b) == -p;
    assert (-q) * (-b) == p;
  }

  /** Over the unbounded integers: the truncated quotient times the divisor, plus the remainder, is the dividend. */
  lemma QuotientLaw(l: int, r: int, product: int)
    requires r != 0 && product == Quotient(l, r) * r
    ensures product + Signed(l < 0, Abs(l) % Abs(r)) == l
    ensures Abs(product) <= Abs(l)
    ensures Abs(Quotient(l, r)) <= Abs(l)
    ensures r != 1 && r != -1 ==> 2 * Abs(Quotient(l, r)) <= Abs(l)
  {
    var a, b := Abs(l), Abs(r);
    var q, m, p := Split(a, b);
    NaturalQuotient(a, b, q, m, p);
    SignedProduct(l < 0, r < 0, q, b, p);
    assert Signed(r < 0, b) == r;
  }

  lemma Split(a: nat, b: nat) returns (q: nat, m: nat, p: int)
    requires b > 0
    ensures q == a / b && m == a % b && p == q * b && a == p + m && m < b
  {
    q, m := a / b, a % b;
    p := q * b;
  }

  /** Away from overflow, division is exact: quotient times divisor plus remainder is the dividend. */
  lemma ExactDivision(l: int64, r: int64, product: int)
    requires r != 0 && !(l == MIN && r == -1)
    requires product == Quotient(l, r) * r
    ensures Div(l, r) == Quotient(l, r)
    ensures product + Mod(l, r) == l && Abs(product) <= Abs(l)
  {
    QuotientLaw(l, r, product);
    QuotientFits(l, r);
    WrapFits(Quotient(l, r));
  }

  lemma RemainderBound(l: int64, r: int64)
    requires r != 0
    ensures Abs(Mod(l, r)) < Abs(r)
    ensures Mod(l, r) != 0 ==> (Mod(l, r) < 0 <==> l < 0)
  {
  }

  /** The law of the language specification, in 64-bit arithmetic, with no exception. */
  lemma DivModLaw(l: int64, r: int64)
    requires r != 0
    ensures Add(Mul(Div(l, r), r), Mod(l, r)) == l
    ensures Abs(Mod(l, r)) < Abs(r)
    ensures Mod(l, r) != 0 ==> (Mod(l, r) < 0 <==> l < 0)
    ensures l == MIN && r == -1 ==> Div(l, r) == MIN && Mod(l, r) == 0
  {
    RemainderBound(l, r);
    if l == MIN && r == -1 {
      MinOverMinusOne();
    } else {
      var q := Quotient(l, r);
      var product := q * r;
      ExactDivision(l, r, product);
      AddBack(product, Mod(l, r), l);
    }
  }

  lemma AddBack(product: int, m: int64, l: int64)
    requires product + m == l && Abs(product) <= Abs(l)
    ensures Wrap(Wrap(product) + m) == l
  {
    WrapFits(l);
    if product <= MAX {
      WrapFits(product);
    }
  }

  lemma MinOverMinusOne()
    ensures Div(MIN, -1) == MIN && Mod(MIN, -1) == 0
    ensures Add(Mul(MIN, -1), 0) == MIN
  {
    assert Abs(MIN) / Abs(-1) == -MIN;
    assert Wrap(-MIN) == MIN;
  }

  lemma QuotientFits(l: int64, r: int64)
    requires r != 0 && !(l == MIN && r == -1)
    ensures MIN <= Quotient(l, r) <= MAX
  {
    QuotientLaw(l, r, Quotient(l, r) * r);
    if r == -1 {
      assert Abs(l) / 1 == Abs(l);
    }
  }
}
