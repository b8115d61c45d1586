// Amounts are whole cents. A value computed with a fraction of a cent is rounded when its
// decimal(15,2) column is saved; Round is that rounding, on the exact fraction num / den.
module Money {

  const RWF: int := 100

  // Half away from zero, as PostgreSQL rounds a numeric.
  function Round(num: int, den: int): (r: int)
    requires den > 0
  {
    if num >= 0 then (2 * num + den) / (2 * den) else -((den - 2 * num) / (2 * den))
  }

  lemma DivBounds(x: int, d: int)
    requires d > 0
    ensures d * (x / d) <= x < d * (x / d) + d
  {
  }

  lemma FactorSign(d: int, x: int)
    requires d > 0
    ensures d * x > -d ==> x >= 0
    ensures d * x < d ==> x <= 0
  {
  }

  // Rounding moves a value by at most half a cent.
  lemma RoundBounds(num: int, den: int)
    requires den > 0
    ensures -den <= 2 * (den * Round(num, den) - num) <= den
  {
    var x := if num >= 0 then 2 * num + den else den - 2 * num;
    DivBounds(x, 2 * den);
    var q := x / (2 * den);
    assert 2 * den * q == 2 * (den * q);
    assert den * (-q) == -(den * q);
  }

  lemma RoundAtLeast(num: int, den: int, k: int)
    requires den > 0 && k * den <= num
    ensures Round(num, den) >= k
  {
    RoundBounds(num, den);
    var r := Round(num, den);
    assert den * (r - k) == den * r - k * den;
    FactorSign(den, r - k);
  }

  lemma RoundExact(k: int, den: int)
    requires den > 0
    ensures Round(k * den, den) == k
  {
    RoundBounds(k * den, den);
    var r := Round(k * den, den);
    assert den * (r - k) == den * r - k * den;
    FactorSign(den, r - k);
  }

  // Whole cents pass through the rounding of a sum untouched.
  lemma RoundShift(k: int, num: int, den: int)
    requires den > 0 && 0 <= num && 0 <= k * den + num
    ensures Round(k * den + num, den) == k + Round(num, den)
  {
    var (x, y, d) := (2 * num + den, 2 * (k * den + num) + den, 2 * den);
    assert y == x + k * d;
    DivBounds(x, d);
    DivBounds(y, d);
    var e := y / d - x / d - k;
    assert d * e == d * (y / d) - d * (x / d) - k * d;
    FactorSign(d, e);
  }

  function Min(a: int, b: int): int { if a <= b then a else b }

  function Max(a: int, b: int): int { if a >= b then a else b }
}
