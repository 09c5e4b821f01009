/**
  The same arithmetic in a build without overflow checks, as `cargo build --release` makes it
  (nado-rust-sdk/src/nado_utils/math.rs): every machine operation keeps the low 128 bits.
*/
module Wrapping {
  import opened Base
  import opened X18
  import opened X18Sqrt
  import opened X18Exp
  import opened IntExp

  function WrapU(x: int): U128 {
    x % TWO_128
  }

  /** The 128-bit signed number with the same low bits. */
  function WrapS(x: int): I128 {
    WrapI(x % TWO_128)
  }

  // ---- congruence ----

  ghost predicate Congruent(a: int, b: int) {
    (a - b) % TWO_128 == 0
  }

  lemma WrapSCongruent(x: int)
    ensures Congruent(WrapS(x), x) && (WrapS(x) == x <==> Fits(x))
  {
  }

  lemma WrapUCongruent(x: int)
    ensures Congruent(WrapU(x), x)
  {
  }

  lemma CongruentWraps(a: int, b: int)
    requires Congruent(a, b)
    ensures WrapS(a) == WrapS(b) && WrapU(a) == WrapU(b)
  {
  }

  lemma CongruentTransitive(a: int, b: int, c: int)
    requires Congruent(a, b) && Congruent(b, c)
    ensures Congruent(a, c)
  {
  }

  lemma CongruentProduct(a: int, b: int, c: int, d: int)
    requires Congruent(a, b) && Congruent(c, d)
    ensures Congruent(a * c, b * d)
  {
    var (k, l) := ((a - b) / TWO_128, (c - d) / TWO_128);
    assert a == b + k * TWO_128 && c == d + l * TWO_128;
    MultipleOut(b, k, d, l);
  }

  lemma MultipleOut(b: int, k: int, d: int, l: int)
    ensures Congruent((b + k * TWO_128) * (d + l * TWO_128), b * d)
  {
    var m := b * l + k * d + k * l * TWO_128;
    assert (b + k * TWO_128) * (d + l * TWO_128) - b * d == m * TWO_128 by {
      assert b * (l * TWO_128) == b * l * TWO_128;
      assert k * TWO_128 * d == k * d * TWO_128;
      assert k * TWO_128 * (l * TWO_128) == k * l * TWO_128 * TWO_128;
    }
    assert m * TWO_128 % TWO_128 == 0;
  }

  // ---- mul_x18 and div_x18 ----

  /** `(-x) as u128` for a negative number, the least one included. */
  function NegatedCast(x: I128): U128 {
    WrapU(WrapS(-(x as int)))
  }

  function Magnitude(x: I128): U128 {
    if x >= 0 then x else NegatedCast(x)
  }

  lemma MagnitudeIsAbs(x: I128)
    ensures Magnitude(x) == Abs(x)
  {
  }

  function MulMagnitudesWrapping(lo: U128, hi: U128): U128 {
    if hi < ONE then WrapU(lo * hi) / ONE
    else if lo < ONE then
      var (c, d) := (hi / ONE, hi % ONE);
      WrapSumOfTwo(lo * c, lo * d)
    else
      var (a, b) := (lo / ONE, lo % ONE);
      var (c, d) := (hi / ONE, hi % ONE);
      WrapSumOfFour(a * c, a * d, b * c, b * d)
  }

  /** Every product and every partial sum wraps. */
  function WrapSumOfTwo(lc: nat, ld: nat): U128 {
    WrapU(WrapU(lc) + WrapU(ld) / ONE)
  }

  function WrapSumOfFour(ac: nat, ad: nat, bc: nat, bd: nat): U128 {
    WrapU(WrapU(WrapU(WrapU(WrapU(ac) * ONE) + WrapU(ad)) + WrapU(bc)) + WrapU(bd) / ONE)
  }

  lemma WrapOfWraps(x: int, y: int)
    ensures WrapU(WrapU(x) + y) == WrapU(x + y) == WrapU(WrapU(x) + WrapU(y))
  {
  }

  lemma WrapOfScaled(x: int)
    ensures WrapU(WrapU(x) * ONE) == WrapU(x * ONE)
  {
    WrapUCongruent(x);
    CongruentProduct(WrapU(x), x, ONE, ONE);
    CongruentWraps(WrapU(x) * ONE, x * ONE);
  }

  lemma WrapPair(lc: nat, ld: nat)
    requires ld < TWO_128
    ensures WrapSumOfTwo(lc, ld) == WrapU(lc + ld / ONE)
  {
    AlreadyWrapped(ld);
    hide WrapU;
    WrapOfWraps(lc, ld / ONE);
  }

  lemma WrapChain(ac: nat, ad: nat, bc: nat, bd: nat)
    requires bd < TWO_128
    ensures WrapSumOfFour(ac, ad, bc, bd) == WrapU(ac * ONE + ad + bc + bd / ONE)
  {
    assert WrapU(bd) == bd;
    WrapOfScaled(ac);
    hide WrapU;
    WrapOfWraps(ac * ONE, ad);
    WrapOfWraps(ac * ONE + ad, bc);
    WrapOfWraps(ac * ONE + ad + bc, bd / ONE);
  }

  /** Nothing wraps in a small quotient. */
  lemma SmallQuotient(p: nat, y: nat)
    requires p < TWO_128 && y > 0
    ensures WrapU(p) / y == p / y == WrapU(p / y)
  {
    hide WrapU;
    NotLarger(p, y);
    AlreadyWrapped(p);
    AlreadyWrapped(p / y);
  }

  lemma NotLarger(p: nat, y: nat)
    requires y > 0
    ensures 0 <= p / y <= p
  {
    DivisionBounds(p, y);
    Grows(p / y, y);
  }

  lemma Grows(q: nat, y: nat)
    requires y > 0
    ensures q <= q * y
  {
  }

  lemma AlreadyWrapped(v: nat)
    requires v < TWO_128
    ensures WrapU(v) == v
  {
  }

  lemma MulTinyWraps(lo: U128, hi: U128)
    requires lo <= hi < ONE
    ensures MulMagnitudesWrapping(lo, hi) == WrapU(lo * hi / ONE)
  {
    hide WrapU;
    ProductBound(lo, hi, ONE, ONE);
    SmallQuotient(lo * hi, ONE);
  }

  lemma MulSmallWraps(lo: U128, hi: U128)
    requires lo < ONE <= hi
    ensures MulMagnitudesWrapping(lo, hi) == WrapU(lo * hi / ONE)
  {
    hide WrapSumOfTwo, WrapU;
    var (c, d) := (hi / ONE, hi % ONE);
    ProductBound(lo, d, ONE, ONE);
    assert lo * hi / ONE == lo * c + lo * d / ONE by {
      SplitProduct(lo, hi);
      assert lo / ONE == 0 && lo % ONE == lo;
    }
    WrapPair(lo * c, lo * d);
  }

  lemma MulLargeWraps(lo: U128, hi: U128)
    requires ONE <= lo <= hi
    ensures MulMagnitudesWrapping(lo, hi) == WrapU(lo * hi / ONE)
  {
    hide WrapSumOfFour, WrapU;
    var (a, b) := (lo / ONE, lo % ONE);
    var (c, d) := (hi / ONE, hi % ONE);
    ProductBound(b, d, ONE, ONE);
    SplitProduct(lo, hi);
    WrapChain(a * c, a * d, b * c, b * d);
  }

  /** All three cases keep the low bits of the quotient. */
  lemma MulMagnitudesWrap(lo: U128, hi: U128)
    requires lo <= hi
    ensures MulMagnitudesWrapping(lo, hi) == WrapU(lo * hi / ONE)
  {
    hide MulMagnitudesWrapping;
    if hi < ONE {
      MulTinyWraps(lo, hi);
    } else if lo < ONE {
      MulSmallWraps(lo, hi);
    } else {
      MulLargeWraps(lo, hi);
    }
  }

  /** The tail of both operations: cast the magnitude, then multiply by the sign. */
  function SignedWrapping(q: U128, sign: int): I128 {
    WrapS(WrapI(q) * sign)
  }

  lemma SignedWrap(q: nat, sign: int)
    ensures SignedWrapping(WrapU(q), sign) == WrapS(q * sign)
  {
    WrapUCongruent(q);
    assert Congruent(WrapI(WrapU(q)), WrapU(q));
    CongruentTransitive(WrapI(WrapU(q)), WrapU(q), q);
    CongruentProduct(WrapI(WrapU(q)), q, sign, sign);
    CongruentWraps(WrapI(WrapU(q)) * sign, q * sign);
  }

  function MulX18Wrapping(x: I128, y: I128): I128 {
    var (ux, uy) := (Magnitude(x), Magnitude(y));
    var (lo, hi) := if ux > uy then (uy, ux) else (ux, uy);
    SignedWrapping(MulMagnitudesWrapping(lo, hi), SignOf(x, y))
  }

  lemma MulX18WrappingResult(x: I128, y: I128)
    ensures MulX18Wrapping(x, y) == SignedWrapping(WrapU(Abs(x) * Abs(y) / ONE), SignOf(x, y))
  {
    MagnitudeIsAbs(x);
    MagnitudeIsAbs(y);
    hide Magnitude, MulMagnitudesWrapping, SignedWrapping, WrapU;
    var (lo, hi) := if Abs(x) > Abs(y) then (Abs(y), Abs(x)) else (Abs(x), Abs(y));
    MulMagnitudesWrap(lo, hi);
    MulCommutes(Abs(x), Abs(y));
  }

  /** Without checks mul_x18 keeps the low bits of the truncated quotient, so it is exact iff that fits. */
  lemma MulX18WrappingExact(x: I128, y: I128)
    ensures MulX18Wrapping(x, y) == WrapS(TruncDiv(x * y, ONE))
    ensures MulX18Wrapping(x, y) == TruncDiv(x * y, ONE) <==> Fits(TruncDiv(x * y, ONE))
  {
    hide MulX18Wrapping, SignedWrapping, TruncDiv, WrapS, WrapU, SignOf;
    MulX18WrappingResult(x, y);
    SignedWrap(Abs(x) * Abs(y) / ONE, SignOf(x, y));
    ProductSign(x, y);
    TruncDivMagnitude(x * y, x, y, ONE);
    WrapSCongruent(TruncDiv(x * y, ONE));
  }

  lemma SignedBuildsAgree(q: nat, sign: int)
    requires Signed(q, sign).Some?
    ensures Signed(q, sign).value == SignedWrapping(WrapU(q), sign)
  {
    WrapSCongruent(WrapI(q) * sign);
  }

  /** Wherever the checked build returns, both builds return the same. */
  lemma MulX18BuildsAgree(x: I128, y: I128)
    requires MulX18(x, y).Some?
    ensures MulX18(x, y).value == MulX18Wrapping(x, y)
  {
    hide MulX18, MulX18Wrapping, SignedWrapping, Signed, WrapU;
    MulX18Characterised(x, y);
    MulX18WrappingResult(x, y);
    SignedBuildsAgree(Abs(x) * Abs(y) / ONE, SignOf(x, y));
  }

  method DivX18Wrapping(x: I128, y: I128) returns (r: Option<I128>)
    ensures r == if y == 0 then None else Some(SignedWrapping(WrapU(DivMagnitude(x, y)), SignOf(x, y)))
  {
    hide SignedWrapping, Magnitude, WrapU;
    var ux, uy, sign := Magnitude(x), Magnitude(y), SignOf(x, y);
    MagnitudeIsAbs(x);
    MagnitudeIsAbs(y);
    if uy == 0 {
      return None;
    }
    var ret: U128 := 0;
    if ux >= uy {
      ret := WrapU(ux / uy * ONE);
      ux := ux % uy;
    } else {
      SmallDividend(ux, uy);
    }
    assert ret == WrapU(Abs(x) / uy * ONE) && ux == Abs(x) % uy by {
      WrapOfZero();
    }
    var q: U128;
    NarrowStage(ux, uy);
    if ux <= ONE {
      q := WrapU(ux * ONE) / uy;
    } else {
      q := ux * ONE / uy % TWO_128;
    }
    StagesAdd(Abs(x), uy, ret, q);
    r := Some(SignedWrapping(WrapU(ret + q), sign));
  }

  lemma WrapOfZero()
    ensures WrapU(0) == 0
  {
  }

  lemma NarrowStage(x: nat, y: nat)
    requires x < y
    ensures x <= ONE ==> WrapU(x * ONE) / y == x * ONE / y % TWO_128
  {
    if x <= ONE {
      ProductBound(x, ONE, ONE, ONE);
      SmallQuotient(x * ONE, y);
    }
  }

  /** The two stages of the division together keep the low bits of the whole quotient. */
  lemma StagesAdd(x: nat, y: nat, ret: U128, q: U128)
    requires y > 0 && ret == WrapU(x / y * ONE) && q == x % y * ONE / y % TWO_128
    ensures WrapU(ret + q) == WrapU(x * ONE / y)
  {
    SplitQuotient(x, y);
    SmallCut(x % y * ONE / y);
    WrapOfWraps(x / y * ONE, q);
    hide WrapU;
  }

  /** So does div_x18 as a whole: it is exact without checks iff the truncated quotient fits. */
  lemma DivX18WrappingExact(x: I128, y: I128)
    requires y != 0
    ensures var r := SignedWrapping(WrapU(DivMagnitude(x, y)), SignOf(x, y));
            && r == WrapS(TruncDiv(x * ONE, y))
            && (r == TruncDiv(x * ONE, y) <==> Fits(TruncDiv(x * ONE, y)))
            && (DivResult(x, y).Some? ==> r == DivResult(x, y).value)
  {
    hide SignedWrapping, TruncDiv, WrapS, WrapU, SignOf, DivMagnitude, Signed;
    QuotientSign(x, y);
    SignedWrap(DivMagnitude(x, y), SignOf(x, y));
    WrapSCongruent(TruncDiv(x * ONE, y));
    if DivResult(x, y).Some? {
      SignedBuildsAgree(DivMagnitude(x, y), SignOf(x, y));
    }
  }

  // ---- fexp ----

  lemma {:induction false} CongruentPower(a: int, b: int, n: nat)
    requires Congruent(a, b)
    ensures Congruent(IPow(a, n), IPow(b, n))
  {
    if n == 0 {
    } else {
      CongruentPower(a, b, n - 1);
      CongruentProduct(a, b, IPow(a, n - 1), IPow(b, n - 1));
    }
  }

  /** One pass of the loop keeps the value of accumulator times remaining power, up to wrapping. */
  lemma PassKeepsPower(x: I128, y: nat, acc: I128)
    requires y > 0
    ensures var acc' := if y % 2 == 1 then WrapS(acc * x) else acc;
            Congruent(acc' * IPow(WrapS(x * x), y / 2), acc * IPow(x, y))
  {
    var exact := if y % 2 == 1 then acc * x else acc;
    var acc' := if y % 2 == 1 then WrapS(acc * x) else acc;
    PowerStep(x, y, acc);
    WrapSCongruent(acc * x);
    WrapSCongruent(x * x);
    CongruentPower(WrapS(x * x), x * x, y / 2);
    hide WrapS;
    CongruentProduct(acc', exact, IPow(WrapS(x * x), y / 2), IPow(x * x, y / 2));
  }

  /** Without checks fexp is the exact power modulo 2^128. */
  method FexpWrapping(base: I128, y: I128) returns (r: Option<I128>)
    requires y < TWO_126
    ensures r == if y < 0 then None else Some(WrapS(IPow(base, y)))
  {
    hide ShiftLeft, BitAnd, IPow, WrapS, Congruent;
    if y < 0 {
      return None;
    }
    var x := base;
    var i: I128 := 1;
    var ret: I128 := 1;
    ghost var n := 0;
    SelfCongruent(1 * IPow(base, y));
    while i <= y
      invariant 0 < i == Pow2(n)
      invariant Congruent(ret * IPow(x, y / i), IPow(base, y))
      decreases TWO_127 - i
    {
      NextBits(y, i, n);
      PassKeepsPower(x, y / i, ret);
      ghost var before := ret * IPow(x, y / i);
      if BitAnd(i, y) != 0 {
        ret := WrapS((ret as int) * x);
      }
      x := WrapS((x as int) * x);
      CongruentTransitive(ret * IPow(x, y / i / 2), before, IPow(base, y));
      ShiftDoubles(i);
      i, n := ShiftLeft(i), n + 1;
    }
    SmallDividend(y, i);
    PowerOfNone(ret, x);
    CongruentWraps(ret, IPow(base, y));
    WrapSCongruent(ret);
    r := Some(ret);
  }

  lemma SelfCongruent(a: int)
    ensures Congruent(a, a)
  {
  }

  lemma PowerOfNone(a: int, x: int)
    ensures a * IPow(x, 0) == a
  {
  }

  /** So without checks it is exact if and only if the power itself fits. */
  lemma FexpWrappingExact(x: I128, y: nat)
    ensures WrapS(IPow(x, y)) == IPow(x, y) <==> Fits(IPow(x, y))
    ensures FexpFrom(x, y, 1).Some? ==> FexpFrom(x, y, 1).value == WrapS(IPow(x, y))
  {
    hide FexpFrom, IPow, WrapS;
    FexpExact(x, y);
    WrapSCongruent(IPow(x, y));
  }

  /** The two inputs on which the builds differ most plainly. */
  lemma ChecksMatter(x: I128)
    requires x == 100 * ONE
    ensures FexpFrom(x, 1, 1) == None && WrapS(IPow(x, 1)) == x
    ensures MulX18(I128_MIN, 0) == None && MulX18Wrapping(I128_MIN, 0) == 0
  {
    FexpAbortsOnRepresentablePower(x);
    assert IPow(x, 1) == x * IPow(x, 0);
    WrapSCongruent(IPow(x, 1));
    MulX18Characterised(I128_MIN, 0);
    MulX18WrappingExact(I128_MIN, 0);
    assert TruncDiv(0, ONE) == 0;
  }
}
