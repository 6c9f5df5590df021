/** The audio PLL's dividers: a fixed-point feedback divider, and the best of 49 post-divider pairs. */
module PllDivider {
  import opened Basics

  const U64: nat := 0x1_0000_0000_0000_0000
  const ONE24: nat := 0x100_0000     // 1 with 24 fractional bits

  /** DIV_ROUND_CLOSEST. */
  function RoundDiv(n: nat, d: nat): (q: nat)
    requires d > 0
    ensures 2 * Abs(q * d - n) <= d
  {
    var q := (n + d / 2) / d;
    Multiple(n + d / 2, d);
    q
  }

  lemma Multiple(n: nat, d: nat)
    requires d > 0
    ensures 0 <= n / d && n - d < n / d * d <= n
  {
    assert n == n / d * d + n % d;
  }

  /** The returned rate, and the integer and fractional part of the divider. */
  datatype Core = Core(calcRate: nat, fbdivInt: nat, fbdivFrac: nat)

  function Divider(c: Core): nat {
    c.fbdivInt * ONE24 + c.fbdivFrac
  }

  /** The 32.32 fixed-point quotient with half a unit of the 24-bit fraction added. */
  function Quotient32(rate: nat, parentRate: nat): nat
    requires parentRate > 0
  {
    RoundDiv(rate * U32, parentRate) + 128
  }

  /** GetPLLCoreDivider, in 64-bit arithmetic. */
  function CoreDivider(rate: nat, parentRate: nat): (c: Core)
    requires parentRate > 0
  {
    var shifted := rate * U32 % U64;
    var divFp64 := ((shifted + parentRate / 2) % U64 / parentRate + 128) % U64;
    var fbdivInt, fbdivFrac := divFp64 / U32, divFp64 / 256 % ONE24;
    Core((parentRate * (fbdivInt * ONE24 + fbdivFrac) + 0x80_0000) % U64 / ONE24, fbdivInt, fbdivFrac)
  }

  // ---------------------------------------------------------------- no overflow

  /** Both parts together are the quotient cut to 24 fractional bits. */
  lemma PartsTogether(q: nat)
    ensures q / U32 * ONE24 + q / 256 % ONE24 == q / 256
  {
    var d := q / 256;
    assert q == 256 * d + q % 256;
    assert d == ONE24 * (d / ONE24) + d % ONE24;
    assert q == U32 * (d / ONE24) + (256 * (d % ONE24) + q % 256);
    HighPart(q, d / ONE24, 256 * (d % ONE24) + q % 256);
  }

  lemma HighPart(q: nat, a: nat, r: nat)
    requires q == U32 * a + r && r < U32
    ensures q / U32 == a
  {
  }

  /** The quotient is the request scaled up, give or take half a unit and the half added. */
  lemma QuotientBounds(rate: nat, parentRate: nat)
    requires 0 < parentRate
    ensures var q := Quotient32(rate, parentRate) - 128;
            0 <= q && 2 * Abs(q * parentRate - rate * U32) <= parentRate
  {
  }

  lemma SmallMod(n: nat)
    requires n < U64
    ensures n % U64 == n
  {
  }

  /** For 32-bit rates no step of the computation overflows. */
  lemma InRange(rate: nat, parentRate: nat)
    requires rate < U32 && 0 < parentRate < U32
    ensures var q := Quotient32(rate, parentRate);
            && rate * U32 + parentRate / 2 < 0x1_0000_0000_0000_0000 && q < 0x1_0000_0000_0000_0000
            && parentRate * (q / 256) + 0x80_0000 < 0x1_0000_0000_0000_0000
            && CoreDivider(rate, parentRate) ==
               Core((parentRate * (q / 256) + 0x80_0000) / 0x100_0000, q / 0x1_0000_0000, q / 256 % 0x100_0000)
  {
    hide RoundDiv;
    var q := Quotient32(rate, parentRate);
    QuotientFits(rate, parentRate);
    SmallMod(rate * U32);
    SmallMod(rate * U32 + parentRate / 2);
    RoundIs(rate * U32, parentRate);
    SmallMod(q);
    PartsTogether(q);
    SmallMod(parentRate * (q / 256) + 0x80_0000);
    hide Quotient32;
  }

  lemma RoundIs(n: nat, d: nat)
    requires d > 0
    ensures RoundDiv(n, d) == (n + d / 2) / d
  {
  }

  /** Products with a positive factor. */
  lemma Products(q: nat, d: nat, p: nat)
    requires 0 < p && 256 * d <= q + 128
    ensures q <= q * p && 256 * (p * d) <= q * p + 128 * p
  {
    MulMono(1, p, q);
    MulMono(256 * d, q + 128, p);
    assert (256 * d) * p == 256 * (p * d);
    assert (q + 128) * p == q * p + 128 * p;
  }

  lemma QuotientFits(rate: nat, parentRate: nat)
    requires rate < U32 && 0 < parentRate < U32
    ensures var q := Quotient32(rate, parentRate);
            && rate * U32 + parentRate / 2 < U64 && q < U64 && parentRate * (q / 256) + 0x80_0000 < U64
  {
    var n, q := rate * U32, RoundDiv(rate * U32, parentRate);
    hide RoundDiv;
    RoundIs(n, parentRate);
    Multiple(n + parentRate / 2, parentRate);
    Products(q, (q + 128) / 256, parentRate);
  }

  // ---------------------------------------------------------------- accuracy

  /** The divider is within 1/2 + 1/512 of a unit of rate / parent with 24 fractional bits. */
  lemma DividerError(rate: nat, parentRate: nat)
    requires rate < U32 && 0 < parentRate < U32
    ensures 512 * Abs(Divider(CoreDivider(rate, parentRate)) * parentRate - rate * 0x100_0000) <= 257 * parentRate
  {
    hide RoundDiv, Quotient32, CoreDivider;
    InRange(rate, parentRate);
    var q := Quotient32(rate, parentRate);
    PartsTogether(q);
    QuotientBounds(rate, parentRate);
    var d := q / 256;
    var e: int := q - 128;
    var r: int := 256 * d;
    Scaled(d, e, r - e, rate, parentRate);
  }

  lemma Scaled(d: nat, e: int, r: int, rate: nat, p: nat)
    requires r == 256 * d - e && Abs(r) <= 128 && 2 * Abs(e * p - rate * U32) <= p
    ensures 512 * Abs(d * p - rate * ONE24) <= 257 * p
  {
    Distribute(d, e, r, p);
    var a, b, c := d * p, e * p, r * p;
    assert 256 * (a - rate * ONE24) == c + (b - rate * U32);
  }

  lemma Distribute(d: nat, e: int, r: int, p: nat)
    requires r == 256 * d - e && Abs(r) <= 128
    ensures 256 * (d * p) == e * p + r * p && Abs(r * p) <= 128 * p
  {
    assert (e + r) * p == e * p + r * p;
    assert (256 * d) * p == 256 * (d * p);
    MulMono(Abs(r), 128, p);
    assert Abs(r) * p == Abs(r * p) by { if r < 0 { assert (-r) * p == -(r * p); } }
  }

  /** The returned rate is within parent * (1/2 + 1/512) / 2^24 + 1/2 of the request. */
  lemma RateError(rate: nat, parentRate: nat)
    requires rate < U32 && 0 < parentRate < U32
    ensures 512 * 0x100_0000 * Abs(CoreDivider(rate, parentRate).calcRate - rate) <= 257 * parentRate + 256 * 0x100_0000
  {
    hide RoundDiv, Quotient32, CoreDivider;
    InRange(rate, parentRate);
    DividerError(rate, parentRate);
    var q := Quotient32(rate, parentRate);
    PartsTogether(q);
    var d := q / 256;
    var c := CoreDivider(rate, parentRate).calcRate;
    assert Divider(CoreDivider(rate, parentRate)) == d && c == (parentRate * d + 0x80_0000) / ONE24;
    var n := parentRate * d + 0x80_0000;
    assert n == ONE24 * c + n % ONE24;
    assert d * parentRate == parentRate * d;
    Nearest(c, rate, parentRate * d, parentRate);
  }

  lemma Nearest(c: nat, rate: nat, m: nat, p: nat)
    requires 2 * Abs(ONE24 * c - m) <= ONE24 && 512 * Abs(m - rate * ONE24) <= 257 * p
    ensures 512 * ONE24 * Abs(c - rate) <= 257 * p + 256 * ONE24
  {
    assert ONE24 * (c - rate) == (ONE24 * c - m) + (m - rate * ONE24);
  }

  // ---------------------------------------------------------------- the post dividers

  /** The deviation of a divider pair. */
  function Deviation(parentRate: nat, rate: nat, div1: nat, div2: nat): nat
    requires div1 > 0 && div2 > 0
  {
    Product(div1, div2);
    Abs(RoundDiv(parentRate, div1 * div2) - rate)
  }

  /** How far the nearest integer to the divided rate (from a half on the next one) is from the request. */
  lemma DeviationIs(parentRate: nat, rate: nat, div1: nat, div2: nat, q: nat)
    requires 0 < div1 && 0 < div2
    requires q * (div1 * div2) <= parentRate + div1 * div2 / 2 < q * (div1 * div2) + div1 * div2
    ensures div1 * div2 > 0 && Deviation(parentRate, rate, div1, div2) == if q < rate then rate - q else q - rate
  {
    Product(div1, div2);
    var d := div1 * div2;
    Quotient(parentRate + d / 2, d, q);
    RoundIs(parentRate, d);
  }

  lemma Product(a: nat, b: nat)
    requires a > 0 && b > 0
    ensures a * b > 0 && a * b == b * a
  {
  }

  predicate InSearch(a: nat, b: nat) { 1 <= b <= a <= 7 }

  /** None of the pairs searched before row `div1`, column `div2` is better. */
  ghost predicate BestSoFar(parentRate: nat, rate: nat, best: nat, div1: nat, div2: nat) {
    forall a: nat, b: nat :: InSearch(a, b) && (a < div1 || (a == div1 && b < div2)) ==> best <= Deviation(parentRate, rate, a, b)
  }

  /** Although only pairs with the larger divider first are searched, and the search ends at an exact
      match, no pair of dividers from 1 to 7 is better. */
  method GetPLLDividers(rate: nat, parentRate: nat) returns (divider1: nat, divider2: nat)
    ensures 1 <= divider2 <= divider1 <= 7
    ensures forall a: nat, b: nat :: 1 <= a <= 7 && 1 <= b <= 7 ==>
                             Deviation(parentRate, rate, divider1, divider2) <= Deviation(parentRate, rate, a, b)
  {
    hide RoundDiv;
    divider1, divider2 := 7, 7;
    var bestRateDiff := AbsDiff(RoundDiv(parentRate, divider1 * divider2), rate);
    var div1 := 1;
    while div1 <= 7
      invariant 1 <= div1 <= 8 && InSearch(divider1, divider2)
      invariant bestRateDiff == Deviation(parentRate, rate, divider1, divider2)
      invariant BestSoFar(parentRate, rate, bestRateDiff, div1, 1)
    {
      var div2 := 1;
      while div2 <= div1
        invariant 1 <= div2 <= div1 + 1 && InSearch(divider1, divider2)
        invariant bestRateDiff == Deviation(parentRate, rate, divider1, divider2)
        invariant BestSoFar(parentRate, rate, bestRateDiff, div1, div2)
      {
        Product(div1, div2);
        var calcRate := RoundDiv(parentRate, div1 * div2);
        var rateDiff := AbsDiff(calcRate, rate);
        if calcRate == rate {
          return div1, div2;
        } else if rateDiff < bestRateDiff {
          divider1, divider2, bestRateDiff := div1, div2, rateDiff;
        }
        div2 := div2 + 1;
      }
      div1 := div1 + 1;
    }
    WholeSquare(parentRate, rate, bestRateDiff);
  }

  function AbsDiff(n: nat, m: nat): (d: nat)
    ensures d == Abs(n - m)
  {
    if n > m then n - m else m - n
  }

  lemma WholeSquare(parentRate: nat, rate: nat, best: nat)
    requires BestSoFar(parentRate, rate, best, 8, 1)
    ensures forall a: nat, b: nat :: 1 <= a <= 7 && 1 <= b <= 7 ==> best <= Deviation(parentRate, rate, a, b)
  {
    forall a: nat, b: nat | 1 <= a <= 7 && 1 <= b <= 7 ensures best <= Deviation(parentRate, rate, a, b) {
      Product(a, b);
      if a >= b { assert InSearch(a, b); } else { assert InSearch(b, a); }
    }
  }
}
