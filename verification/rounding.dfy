/** Rounding a quotient to the nearest integer, ties to even, as Python's round does on exact values. */
module Rounding {
  function RoundHalfEven(n: int, d: int): (r: int)
    requires d > 0
    ensures -d <= 2 * (d * r - n) <= d
    ensures 2 * (d * r - n) == d || 2 * (d * r - n) == -d ==> r % 2 == 0
  {
    var q, rem := n / d, n % d;
    assert n == d * q + rem;
    if 2 * rem < d then q
    else if 2 * rem > d then assert d * (q + 1) == d * q + d; q + 1
    else if q % 2 == 0 then q
    else assert d * (q + 1) == d * q + d; q + 1
  }

  /** No other integer meets that description, so it says what rounding is. */
  lemma RoundingIsUnique(n: int, d: int, r: int)
    requires d > 0 && -d <= 2 * (d * r - n) <= d
    requires 2 * (d * r - n) == d || 2 * (d * r - n) == -d ==> r % 2 == 0
    ensures r == RoundHalfEven(n, d)
  {
    var s := RoundHalfEven(n, d);
    Apart(d, n, r, s);
    Apart(d, n, s, r);
  }

  /** Two integers both within half a step of n, the first above the second, are one apart and both ties. */
  lemma Apart(d: int, n: int, r: int, s: int)
    requires d > 0 && -d <= 2 * (d * r - n) <= d && -d <= 2 * (d * s - n) <= d
    ensures r > s ==> r == s + 1 && 2 * (d * r - n) == d && 2 * (d * s - n) == -d
  {
    if r > s {
      Steps(d, r, s);
    }
  }

  lemma Steps(d: int, r: int, s: int)
    requires d > 0 && r > s
    ensures d * r >= d * s + d && (r > s + 1 ==> d * r >= d * s + 2 * d)
  {
    var k := r - s;
    assert d * r == d * s + d * k;
    assert k >= 2 ==> d * k >= d * 2;
  }
}
