/**
  Fixed-point arithmetic with 18 decimals over 128-bit integers
  (nado-rust-sdk/src/nado_utils/math.rs).

  Every machine operation that panics on overflow is written as a checked step, so a result of
  `None` means "the original aborts", and `Some(v)` is the value it returns. Casts that wrap
  silently are written out as wraps.
*/
module X18 {
  import opened Base

  const TWO_127: int := 0x8000_0000_0000_0000_0000_0000_0000_0000
  const TWO_128: int := 0x1_0000_0000_0000_0000_0000_0000_0000_0000
  const I128_MIN: I128 := -TWO_127

  type I128 = x: int | -0x8000_0000_0000_0000_0000_0000_0000_0000 <= x < 0x8000_0000_0000_0000_0000_0000_0000_0000
  type U128 = x: int | 0 <= x < 0x1_0000_0000_0000_0000_0000_0000_0000_0000

  const ONE: int := 1_000_000_000_000_000_000

  function CheckedU(x: int): Option<U128> {
    if 0 <= x < TWO_128 then Some(x) else None
  }

  function CheckedI(x: int): Option<I128> {
    if -TWO_127 <= x < TWO_127 then Some(x) else None
  }

  /** The silent `as i128` cast of an unsigned value. */
  function WrapI(u: U128): I128 {
    if u < TWO_127 then u else u - TWO_128
  }

  /** Quotient truncated toward zero, the division of Rust integers. */
  function TruncDiv(a: int, b: int): int
    requires b != 0
  {
    WithSign(Abs(a) / Abs(b), (a < 0) != (b < 0))
  }

  function WithSign(q: int, negative: bool): int {
    if negative then -q else q
  }

  /** What "truncated toward zero" means, without dividing. */
  ghost predicate IsTruncated(a: int, b: int, q: int) {
    && Abs(q * b) <= Abs(a) < Abs(q * b) + Abs(b)
    && (q != 0 ==> ((q < 0) == ((a < 0) != (b < 0))))
  }

  lemma AbsProduct(q: int, b: int)
    ensures Abs(q * b) == Abs(q) * Abs(b)
  {
  }

  lemma DivisionBounds(a: nat, b: nat)
    requires b > 0
    ensures 0 <= a / b && a / b * b <= a < a / b * b + b
  {
  }

  lemma QuotientUnique(a: nat, b: nat, q: nat)
    requires b > 0 && q * b <= a < q * b + b
    ensures q == a / b
  {
    DivisionBounds(a, b);
    var k := a / b;
    assert q < k ==> (q + 1) * b <= k * b;
    assert k < q ==> (k + 1) * b <= q * b;
  }

  /** TruncDiv is the one quotient that is truncated toward zero. */
  lemma TruncDivMeaning(a: int, b: int, q: int)
    requires b != 0
    ensures IsTruncated(a, b, q) <==> q == TruncDiv(a, b)
  {
    AbsProduct(q, b);
    AbsTruncDiv(a, b);
    DivisionBounds(Abs(a), Abs(b));
    if IsTruncated(a, b, q) {
      QuotientUnique(Abs(a), Abs(b), Abs(q));
    }
  }

  lemma AbsTruncDiv(a: int, b: int)
    requires b != 0
    ensures Abs(TruncDiv(a, b)) == Abs(a) / Abs(b)
    ensures TruncDiv(a, b) != 0 ==> ((TruncDiv(a, b) < 0) == ((a < 0) != (b < 0)))
  {
    assert Abs(b) > 0;
    hide Abs, WithSign;
    DivisionBounds(Abs(a), Abs(b));
    SignedMagnitude(Abs(a) / Abs(b), (a < 0) != (b < 0));
  }

  lemma SignedMagnitude(q: int, negative: bool)
    requires q >= 0
    ensures var r := WithSign(q, negative); Abs(r) == q && (r != 0 ==> ((r < 0) == negative))
  {
  }

  // ---- signed_to_unsigned ----

  /** Negating the least value aborts; otherwise both magnitudes and the sign of the product. */
  function SignedToUnsigned(x: I128, y: I128): Option<(U128, U128, int)> {
    if x >= 0 && y >= 0 then
      Some((x, y, 1))
    else if x >= 0 && y < 0 then
      var ny :- CheckedI(-(y as int));
      Some((x, ny, -1))
    else if x < 0 && y >= 0 then
      var nx :- CheckedI(-(x as int));
      Some((nx, y, -1))
    else
      var nx :- CheckedI(-(x as int));
      var ny :- CheckedI(-(y as int));
      Some((nx, ny, 1))
  }

  function SignOf(x: int, y: int): int {
    if (x < 0) == (y < 0) then 1 else -1
  }

  /** The common tail of mul_x18 and div_x18: cast the magnitude, then multiply by the sign. */
  function Signed(q: nat, sign: int): Option<I128> {
    if q >= TWO_128 then None else CheckedI(WrapI(q) * sign)
  }

  // ---- mul_x18 ----

  /** x * y / 10^18 on magnitudes with lo <= hi, in the three cases of the original. */
  function MulMagnitudes(lo: U128, hi: U128): Option<U128> {
    if hi < ONE then
      var p :- CheckedU(lo * hi);
      Some(p / ONE)
    else if lo < ONE then
      var (c, d) := (hi / ONE, hi % ONE);
      SumOfTwo(lo * c, lo * d)
    else
      var (a, b) := (lo / ONE, lo % ONE);
      var (c, d) := (hi / ONE, hi % ONE);
      SumOfFour(a * c, a * d, b * c, b * d)
  }

  /** Every product and every partial sum is checked. */
  function SumOfTwo(lc: nat, ld: nat): Option<U128> {
    var x1 :- CheckedU(lc);
    var x2 :- CheckedU(ld);
    CheckedU(x1 + x2 / ONE)
  }

  function SumOfFour(ac: nat, ad: nat, bc: nat, bd: nat): Option<U128> {
    var x1 :- CheckedU(ac);
    var x2 :- CheckedU(x1 * ONE);
    var x3 :- CheckedU(ad);
    var x4 :- CheckedU(x2 + x3);
    var x5 :- CheckedU(bc);
    var x6 :- CheckedU(x4 + x5);
    var x7 :- CheckedU(bd);
    CheckedU(x6 + x7 / ONE)
  }

  function MulX18(x: I128, y: I128): Option<I128> {
    var (ux, uy, sign) :- SignedToUnsigned(x, y);
    var (lo, hi) := if ux > uy then (uy, ux) else (ux, uy);
    var q :- MulMagnitudes(lo, hi);
    CheckedI(WrapI(q) * sign)
  }

  lemma SplitProduct(x: nat, y: nat)
    ensures x * y / ONE
         == x / ONE * (y / ONE) * ONE + x / ONE * (y % ONE) + x % ONE * (y / ONE) + x % ONE * (y % ONE) / ONE
  {
    var (a, b) := (x / ONE, x % ONE);
    var (c, d) := (y / ONE, y % ONE);
    var k := a * c * ONE + a * d + b * c;
    calc {
      x * y;
      (a * ONE + b) * (c * ONE + d);
      a * ONE * (c * ONE) + a * ONE * d + b * (c * ONE) + b * d;
      { assert a * ONE * (c * ONE) == a * c * ONE * ONE; assert a * ONE * d == a * d * ONE;
        assert b * (c * ONE) == b * c * ONE; }
      k * ONE + b * d;
    }
  }

  lemma ProductBound(x: nat, y: nat, xMax: nat, yMax: nat)
    requires x <= xMax && y <= yMax
    ensures x * y <= xMax * yMax
  {
    assert x * y <= xMax * y <= xMax * yMax;
  }

  lemma MulSmallSmall(lo: U128, hi: U128)
    requires lo <= hi < ONE
    ensures MulMagnitudes(lo, hi) == CheckedU(lo * hi / ONE)
  {
    ProductBound(lo, hi, ONE, ONE);
  }

  lemma MulSmallLarge(lo: U128, hi: U128)
    requires lo < ONE <= hi
    ensures MulMagnitudes(lo, hi) == CheckedU(lo * hi / ONE)
  {
    hide SumOfTwo, CheckedU;
    var (c, d) := (hi / ONE, hi % ONE);
    ProductBound(lo, d, ONE, ONE);
    assert lo * hi / ONE == lo * c + lo * d / ONE by {
      SplitProduct(lo, hi);
      assert lo / ONE == 0 && lo % ONE == lo;
    }
    SumPair(lo * c, lo * d);
  }

  lemma MulLargeLarge(lo: U128, hi: U128)
    requires ONE <= lo <= hi
    ensures MulMagnitudes(lo, hi) == CheckedU(lo * hi / ONE)
  {
    hide SumOfFour, CheckedU;
    var (a, b) := (lo / ONE, lo % ONE);
    var (c, d) := (hi / ONE, hi % ONE);
    ProductBound(b, d, ONE, ONE);
    SplitProduct(lo, hi);
    SumChain(a * c, a * d, b * c, b * d);
  }

  lemma SumPair(lc: nat, ld: nat)
    requires ld < TWO_128
    ensures SumOfTwo(lc, ld) == CheckedU(lc + ld / ONE)
  {
  }

  /** Adding non-negative parts one at a time overflows exactly when the whole sum does. */
  lemma SumChain(ac: nat, ad: nat, bc: nat, bd: nat)
    requires bd < TWO_128
    ensures SumOfFour(ac, ad, bc, bd) == CheckedU(ac * ONE + ad + bc + bd / ONE)
  {
  }

  /**
    All three cases compute the truncated quotient, and the checked steps abort exactly when the
    quotient itself does not fit 128 unsigned bits: no intermediate value is ever the cause.
  */
  lemma MulMagnitudesExact(lo: U128, hi: U128)
    requires lo <= hi <= TWO_127
    ensures MulMagnitudes(lo, hi) == CheckedU(lo * hi / ONE)
  {
    if hi < ONE {
      MulSmallSmall(lo, hi);
    } else if lo < ONE {
      MulSmallLarge(lo, hi);
    } else {
      MulLargeLarge(lo, hi);
    }
  }

  /**
    mul_x18 on every pair of inputs: it aborts on the least value and when the quotient needs more
    than 128 bits, and otherwise is the signed image of the truncated quotient.
  */
  lemma MulX18Characterised(x: I128, y: I128)
    ensures MulX18(x, y) == if x == I128_MIN || y == I128_MIN then None
                            else Signed(Abs(x) * Abs(y) / ONE, SignOf(x, y))
  {
    hide MulMagnitudes, SignedToUnsigned, SignOf, WrapI;
    SignedToUnsignedMeaning(x, y);
    if x != I128_MIN && y != I128_MIN {
      var (lo, hi) := if Abs(x) > Abs(y) then (Abs(y), Abs(x)) else (Abs(x), Abs(y));
      MulMagnitudesExact(lo, hi);
      MulCommutes(Abs(x), Abs(y));
    }
  }

  lemma MulCommutes(x: int, y: int)
    ensures x * y == y * x
  {
  }

  lemma SignedToUnsignedMeaning(x: I128, y: I128)
    ensures SignedToUnsigned(x, y) == if x == I128_MIN || y == I128_MIN then None
                                      else Some((Abs(x), Abs(y), SignOf(x, y)))
  {
  }

  ghost predicate Returns(r: Option<I128>, v: int) {
    r.Some? && r.value == v
  }

  lemma SignedExact(q: nat, sign: int)
    requires sign == 1 || sign == -1
    ensures Returns(Signed(q, sign), q * sign) <==> q < TWO_127
  {
  }

  lemma TruncDivMagnitude(a: int, x: int, y: int, b: nat)
    requires b > 0 && Abs(a) == Abs(x) * Abs(y) && (a != 0 ==> ((a < 0) <==> SignOf(x, y) == -1))
    ensures TruncDiv(a, b) == Abs(x) * Abs(y) / b * SignOf(x, y)
  {
    if a == 0 {
      assert 0 / b == 0;
    }
  }

  lemma ProductSign(x: int, y: int)
    ensures Abs(x * y) == Abs(x) * Abs(y)
    ensures x * y != 0 ==> ((x * y < 0) <==> SignOf(x, y) == -1)
  {
  }

  /**
    mul_x18 is the product divided by 10^18 and truncated toward zero, if and only if neither input
    is the least value and the magnitude of the result is below 2^127.
  */
  lemma MulX18Exact(x: I128, y: I128)
    ensures Returns(MulX18(x, y), TruncDiv(x * y, ONE))
       <==> x != I128_MIN && y != I128_MIN && Abs(x) * Abs(y) / ONE < TWO_127
  {
    MulX18Characterised(x, y);
    ProductSign(x, y);
    TruncDivMagnitude(x * y, x, y, ONE);
    SignedExact(Abs(x) * Abs(y) / ONE, SignOf(x, y));
  }

  // ---- the wide variants ----

  const TWO_255: int := TWO_127 * TWO_128

  function CheckedI256(x: int): Option<int> {
    if -TWO_255 <= x < TWO_255 then Some(x) else None
  }

  /** try_mul_x18: a 256-bit product, a truncating division, and a narrowing that aborts when it does not fit. */
  function TryMulX18(x: I128, y: I128): Option<I128> {
    var p :- CheckedI256(x * y);
    CheckedI(TruncDiv(p, ONE))
  }

  /** try_div_x18; dividing by zero aborts. */
  function TryDivX18(x: I128, y: I128): Option<I128> {
    var p :- CheckedI256(x * ONE);
    if y == 0 then None else CheckedI(TruncDiv(p, y))
  }

  /** The 256-bit steps never overflow, so only the final narrowing decides. */
  lemma WideStepsFit(x: I128, y: I128)
    ensures TryMulX18(x, y) == CheckedI(TruncDiv(x * y, ONE))
    ensures TryDivX18(x, y) == if y == 0 then None else CheckedI(TruncDiv(x * ONE, y))
  {
    ProductSign(x, y);
    ProductBound(Abs(x), Abs(y), TWO_127, TWO_127);
    assert TWO_127 * TWO_127 < TWO_255;
  }

  /** When two results that differ only in how they narrow a magnitude `q` coincide. */
  lemma NarrowingsAgree(q: nat, sign: int)
    requires sign == 1 || sign == -1
    ensures Signed(q, sign) == CheckedI(q * sign) <==> q < TWO_127 || TWO_128 <= q
  {
  }

  /** The factors that carry the least value out of range. */
  predicate Amplifies(v: int) {
    v > ONE || v <= -ONE
  }

  lemma LeastTimes(v: I128)
    ensures CheckedI(TruncDiv(I128_MIN * v, ONE)) == None <==> Amplifies(v)
  {
    assert Abs(I128_MIN * v) == TWO_127 * Abs(v);
    assert Abs(v) > ONE ==> TWO_127 * Abs(v) / ONE > TWO_127;
    assert Abs(v) == ONE ==> TWO_127 * Abs(v) / ONE == TWO_127;
    assert Abs(v) < ONE ==> TWO_127 * Abs(v) / ONE < TWO_127;
  }

  /**
    mul_x18 agrees with its wide variant exactly outside the band where the narrow cast wraps; on the
    least value it always aborts, and the wide variant does so for amplifying factors only.
  */
  lemma MulX18AgreesWithWide(x: I128, y: I128)
    ensures MulX18(x, y) == TryMulX18(x, y)
       <==> if x == I128_MIN then Amplifies(y) else if y == I128_MIN then Amplifies(x)
            else (var q := Abs(x) * Abs(y) / ONE; q < TWO_127 || TWO_128 <= q)
  {
    MulX18Characterised(x, y);
    WideStepsFit(x, y);
    if x == I128_MIN {
      LeastTimes(y);
    } else if y == I128_MIN {
      MulCommutes(x, y);
      LeastTimes(x);
    } else {
      hide TruncDiv, MulX18, TryMulX18;
      ProductSign(x, y);
      TruncDivMagnitude(x * y, x, y, ONE);
      NarrowingsAgree(Abs(x) * Abs(y) / ONE, SignOf(x, y));
    }
  }

  /** Inside that band two positive factors give a negative product, while the wide variant aborts. */
  lemma MulX18CanWrap(x: I128)
    requires x == 15_000_000_000 * ONE
    ensures TryMulX18(x, x) == None
    ensures MulX18(x, x).Some? && MulX18(x, x).value < 0
  {
    MulX18Characterised(x, x);
    WideStepsFit(x, x);
    var q := 225_000_000_000_000_000_000 * ONE;
    assert x * x == q * ONE;
    assert q * ONE / ONE == q;
  }

  // ---- div_x18 ----

  function CheckedDiv(a: U128, b: U128): Option<U128> {
    if b == 0 then None else Some(a / b)
  }

  lemma SplitQuotientBounds(k: nat, m: nat, y: nat, q: nat)
    requires m < y && q * y <= m * ONE < q * y + y
    ensures (k * ONE + q) * y <= (k * y + m) * ONE < (k * ONE + q) * y + y
    ensures q < ONE
  {
    assert (k * ONE + q) * y == k * y * ONE + q * y;
    assert ONE <= q ==> ONE * y <= q * y;
  }

  lemma SplitQuotient(x: nat, y: nat)
    requires y > 0
    ensures x * ONE / y == x / y * ONE + x % y * ONE / y
    ensures x % y * ONE / y < ONE
  {
    var (k, m) := (x / y, x % y);
    var q := m * ONE / y;
    DivisionBounds(m * ONE, y);
    SplitQuotientBounds(k, m, y, q);
    QuotientUnique(x * ONE, y, k * ONE + q);
  }

  function DivMagnitude(x: int, y: int): nat
    requires y != 0
  {
    Abs(x) * ONE / Abs(y)
  }

  /** The signed image of |x| * 10^18 / |y|. */
  function DivResult(x: I128, y: I128): Option<I128> {
    if x == I128_MIN || y == I128_MIN || y == 0 then None
    else Signed(DivMagnitude(x, y), SignOf(x, y))
  }

  /**
    Quotient and remainder first, then a narrow or a 256-bit second stage whose low 128 bits are
    kept: the split is exact and the cut to 128 bits loses nothing.
  */
  method DivX18(x: I128, y: I128) returns (r: Option<I128>)
    ensures r == DivResult(x, y)
  {
    SignedToUnsignedMeaning(x, y);
    var magnitudes :- SignedToUnsigned(x, y);
    var (ux, uy, sign) := magnitudes;
    var ret: U128 := 0;
    if ux >= uy {
      var k :- CheckedDiv(ux, uy);
      DivOverflow(Abs(x), uy);
      ret :- CheckedU(k * ONE);
      ux := ux % uy;
    } else {
      SmallDividend(ux, uy);
    }
    DivOverflow(Abs(x), uy);
    ghost var low := ux * ONE / uy;
    if ux <= ONE {
      ProductBound(ux, ONE, ONE, ONE);
      var p :- CheckedU(ux * ONE);
      ret :- CheckedU(ret + p / uy);
    } else {
      ret :- CheckedU(ret + ux * ONE / uy % TWO_128);
    }
    r := CheckedI(WrapI(ret) * sign);
  }

  lemma SmallDividend(x: nat, y: nat)
    requires x < y
    ensures x / y == 0 && x % y == x
  {
    QuotientUnique(x, y, 0);
  }

  /** Aborting anywhere in div_x18 means that the whole quotient is too large. */
  lemma DivOverflow(x: nat, y: nat)
    requires y > 0
    ensures x * ONE / y == x / y * ONE + x % y * ONE / y
    ensures x % y * ONE / y % TWO_128 == x % y * ONE / y
    ensures CheckedU(x / y * ONE) == None ==> CheckedU(x * ONE / y) == None
  {
    SplitQuotient(x, y);
    SmallCut(x % y * ONE / y);
  }

  lemma SmallCut(q: nat)
    requires q < ONE
    ensures q % TWO_128 == q
  {
  }

  lemma QuotientSign(x: int, y: int)
    requires y != 0
    ensures TruncDiv(x * ONE, y) == DivMagnitude(x, y) * SignOf(x, y)
  {
    if x == 0 {
      assert 0 / Abs(y) == 0;
    }
  }

  /** div_x18 is x * 10^18 / y truncated toward zero, if and only if nothing aborts or wraps. */
  lemma DivX18Exact(x: I128, y: I128)
    requires y != 0
    ensures Returns(DivResult(x, y), TruncDiv(x * ONE, y))
       <==> x != I128_MIN && y != I128_MIN && DivMagnitude(x, y) < TWO_127
  {
    QuotientSign(x, y);
    SignedExact(DivMagnitude(x, y), SignOf(x, y));
  }

  lemma QuotientBounds(a: nat, b: nat, k: nat)
    requires b > 0
    ensures k * b <= a ==> k <= a / b
    ensures a < k * b ==> a / b < k
  {
    DivisionBounds(a, b);
    var q := a / b;
    assert q < k ==> (q + 1) * b <= k * b;
    assert k <= q ==> k * b <= q * b;
  }

  lemma LeastDividedBy(v: I128)
    requires v != 0 && v != I128_MIN
    ensures CheckedI(TruncDiv(I128_MIN * ONE, v)) == None <==> -ONE <= v < ONE
  {
    var (a, b) := (TWO_127 * ONE, Abs(v));
    QuotientBounds(a, b, TWO_127);
    QuotientBounds(a, b, TWO_127 + 1);
    assert TruncDiv(I128_MIN * ONE, v) == WithSign(a / b, v > 0);
  }

  lemma DividedByLeast(x: I128)
    ensures CheckedI(TruncDiv(x * ONE, I128_MIN)).Some?
  {
    QuotientBounds(Abs(x) * ONE, TWO_127, ONE + 1);
  }

  /**
    div_x18 agrees with try_div_x18 exactly outside the band where the narrow cast wraps; on the least
    value it always aborts, and the wide variant only where that is the dividend and the divisor is small.
  */
  lemma DivX18AgreesWithWide(x: I128, y: I128)
    ensures DivResult(x, y) == TryDivX18(x, y)
       <==> if y == 0 then true else if y == I128_MIN then false
            else if x == I128_MIN then -ONE <= y < ONE
            else DivMagnitude(x, y) < TWO_127 || TWO_128 <= DivMagnitude(x, y)
  {
    hide TruncDiv, TryDivX18, CheckedI, Signed, DivMagnitude;
    WideStepsFit(x, y);
    if y == I128_MIN {
      DividedByLeast(x);
    } else if y != 0 && x == I128_MIN {
      LeastDividedBy(y);
    } else if y != 0 {
      QuotientSign(x, y);
      NarrowingsAgree(DivMagnitude(x, y), SignOf(x, y));
    }
  }
}
