/** The integer power fexp (nado-rust-sdk/src/nado_utils/math.rs). */
module IntExp {
  import opened Base
  import opened X18
  import opened X18Sqrt
  import opened X18Exp

  function CheckedMul(a: I128, b: I128): Option<I128> {
    CheckedI(a * b)
  }

  /** The work left when the base is x, the unread bits of the exponent are y and the accumulator is acc. */
  function FexpFrom(x: I128, y: nat, acc: I128): Option<I128>
    decreases y
  {
    if y == 0 then
      Some(acc)
    else
      var acc' :- if y % 2 == 1 then CheckedMul(acc, x) else Some(acc);
      var x' :- CheckedMul(x, x);
      FexpFrom(x', y / 2, acc')
  }

  method Fexp(base: I128, y: I128) returns (r: Option<I128>)
    requires y < TWO_126
    ensures r == if y < 0 then None else FexpFrom(base, y, 1)
  {
    hide CheckedMul, ShiftLeft, BitAnd;
    if y < 0 {
      return None;
    }
    var x := base;
    var i: I128 := 1;
    var ret: I128 := 1;
    ghost var n := 0;
    while i <= y
      invariant 0 < i == Pow2(n)
      invariant FexpFrom(x, y / i, ret) == FexpFrom(base, y, 1)
      decreases TWO_127 - i
    {
      NextBits(y, i, n);
      if BitAnd(i, y) != 0 {
        ret :- CheckedMul(ret, x);
      }
      x :- CheckedMul(x, x);
      ShiftDoubles(i);
      i, n := ShiftLeft(i), n + 1;
    }
    SmallDividend(y, i);
    r := Some(ret);
  }

  function IPow(b: int, n: nat): int {
    if n == 0 then 1 else b * IPow(b, n - 1)
  }

  function BitLength(y: nat): nat {
    if y == 0 then 0 else 1 + BitLength(y / 2)
  }

  lemma {:induction false} BelowItsBitLength(y: nat)
    ensures y < Pow2(BitLength(y))
  {
    if y == 0 {
    } else {
      BelowItsBitLength(y / 2);
    }
  }

  lemma {:induction false} IPowOfSquare(b: int, n: nat)
    ensures IPow(b * b, n) == IPow(b, 2 * n)
  {
    if n == 0 {
    } else {
      IPowOfSquare(b, n - 1);
      assert IPow(b, 2 * n) == b * (b * IPow(b, 2 * n - 2));
    }
  }

  predicate Fits(v: int) {
    -TWO_127 <= v < TWO_127
  }

  /** The largest square the loop forms, which it always forms on its way out. */
  function LastSquare(x: int, y: nat): int {
    IPow(x, Pow2(BitLength(y)))
  }

  lemma {:induction false} MagnitudeGrows(b: int, m: nat, n: nat)
    requires b != 0 && m <= n
    ensures 1 <= Abs(IPow(b, m)) <= Abs(IPow(b, n))
    decreases n
  {
    if m < n {
      MagnitudeGrows(b, m, n - 1);
      ProductMagnitude(b, IPow(b, n - 1));
    } else if n > 0 {
      MagnitudeGrows(b, m - 1, n - 1);
      ProductMagnitude(b, IPow(b, n - 1));
    }
  }

  lemma ProductMagnitude(a: int, b: int)
    requires a != 0
    ensures Abs(b) <= Abs(a * b)
  {
    AbsProduct(a, b);
    assert Abs(a) >= 1;
    hide Abs;
    ProductBound(1, Abs(b), Abs(a), Abs(b));
  }

  lemma {:induction false} SquareTooLarge(x: I128, y: nat, acc: I128)
    requires y > 0 && !Fits(LastSquare(x, y))
    ensures FexpFrom(x, y, acc) == None
    decreases y
  {
    LastSquareStep(x, y);
    if Fits(x * x) && y > 1 {
      var acc' := if y % 2 == 1 then CheckedMul(acc, x) else Some(acc);
      if acc'.Some? {
        SquareTooLarge(x * x, y / 2, acc'.value);
      }
    }
  }

  lemma LastSquareStep(x: int, y: nat)
    requires y > 0
    ensures LastSquare(x, y) == LastSquare(x * x, y / 2)
    ensures y == 1 ==> LastSquare(x, y) == x * x
  {
    IPowOfSquare(x, Pow2(BitLength(y / 2)));
    if y == 1 {
      assert Pow2(BitLength(0)) == 1;
      assert IPow(x * x, 1) == x * x * IPow(x * x, 0);
    }
  }

  lemma PowerStep(x: int, y: nat, acc: int)
    requires y > 0
    ensures acc * IPow(x, y) == (if y % 2 == 1 then acc * x else acc) * IPow(x * x, y / 2)
  {
    IPowOfSquare(x, y / 2);
    if y % 2 == 1 {
      assert IPow(x, y) == x * IPow(x, y - 1);
      assert y - 1 == 2 * (y / 2);
      assert acc * (x * IPow(x, y - 1)) == acc * x * IPow(x, y - 1);
    }
  }

  lemma {:induction false} PowerComputed(x: I128, y: nat, acc: I128)
    requires y == 0 || Fits(LastSquare(x, y))
    requires Abs(acc * IPow(x, y)) < TWO_127 && Abs(acc) < TWO_127
    ensures FexpFrom(x, y, acc) == Some(acc * IPow(x, y))
    decreases y
  {
    if y == 0 {
    } else {
      LastSquareStep(x, y);
      PowerStep(x, y, acc);
      var acc' := if y % 2 == 1 then acc * x else acc;
      assert x == 0 ==> acc * x == 0;
      assert x != 0 ==> x * x > 0;
      PartialFits(x * x, y / 2, acc');
      PowerComputed(x * x, y / 2, acc');
    }
  }

  /** A partial product and the next square q are no larger than what they are multiplied up to. */
  lemma PartialFits(q: nat, h: nat, acc': int)
    requires Fits(LastSquare(q, h)) && Abs(acc' * IPow(q, h)) < TWO_127
    requires q == 0 ==> Abs(acc') < TWO_127
    ensures Abs(acc') < TWO_127 && Fits(q)
  {
    if q != 0 {
      MagnitudeGrows(q, 0, h);
      MulCommutes(acc', IPow(q, h));
      ProductMagnitude(IPow(q, h), acc');
      MagnitudeGrows(q, 1, Pow2(BitLength(h)));
      assert IPow(q, 1) == q * IPow(q, 0);
      EvenPowerBelow(q, h);
    }
  }

  lemma EvenPowerBelow(q: nat, h: nat)
    requires Fits(LastSquare(q, h)) && Abs(IPow(q, 1)) <= Abs(LastSquare(q, h))
    ensures Fits(IPow(q, 1))
  {
    NonNegativePower(q, Pow2(BitLength(h)));
    NonNegativePower(q, 1);
  }

  /**
    fexp returns the exact power if and only if the last square of the loop fits 128 bits, and
    aborts otherwise, even where the power itself would fit.
  */
  lemma FexpExact(x: I128, y: nat)
    ensures FexpFrom(x, y, 1) == if y == 0 || Fits(LastSquare(x, y)) then Some(IPow(x, y)) else None
  {
    if y > 0 {
      if Fits(LastSquare(x, y)) {
        PowerBelowLastSquare(x, y);
        PowerComputed(x, y, 1);
      } else {
        SquareTooLarge(x, y, 1);
      }
    }
  }

  lemma {:induction false} IPowOfZero(n: nat)
    ensures IPow(0, n) == if n == 0 then 1 else 0
  {
  }

  lemma EvenPowerNonNegative(x: int, y: nat)
    requires y > 0
    ensures LastSquare(x, y) >= 0
  {
    var n := Pow2(BitLength(y) - 1);
    IPowOfSquare(x, n);
    NonNegativePower(x * x, n);
  }

  lemma {:induction false} NonNegativePower(b: nat, n: nat)
    ensures IPow(b, n) >= 0
  {
    if n == 0 {
    } else {
      NonNegativePower(b, n - 1);
    }
  }

  lemma PowerBelowLastSquare(x: int, y: nat)
    requires y > 0 && Fits(LastSquare(x, y))
    ensures Abs(IPow(x, y)) < TWO_127
  {
    EvenPowerNonNegative(x, y);
    BelowItsBitLength(y);
    if x == 0 {
      IPowOfZero(y);
    } else {
      MagnitudeGrows(x, y, Pow2(BitLength(y)));
    }
  }

  /** fexp(10^20, 1) aborts although the answer is its own input. */
  lemma FexpAbortsOnRepresentablePower(x: I128)
    requires x == 100 * ONE
    ensures FexpFrom(x, 1, 1) == None && Fits(IPow(x, 1))
  {
    LastSquareStep(x, 1);
    FexpExact(x, 1);
    assert IPow(x, 1) == x * IPow(x, 0);
  }

  // ---- fexp_x18 on whole bases ----

  lemma MulWhole(a: int, b: int)
    requires Abs(a) * ONE < TWO_127 && Abs(b) * ONE < TWO_127 && Abs(a * b) * ONE < TWO_127
    ensures MulX18(a * ONE, b * ONE) == Some(a * b * ONE)
  {
    hide MulX18;
    MulX18Exact(a * ONE, b * ONE);
    ProductSign(a * ONE, b * ONE);
    assert a * ONE * (b * ONE) == a * b * ONE * ONE;
    WholeQuotient(a * b);
    assert Abs(a * ONE) * Abs(b * ONE) == Abs(a * b * ONE) * ONE;
  }

  lemma WholeQuotient(p: int)
    ensures TruncDiv(p * ONE * ONE, ONE) == p * ONE
    ensures Abs(p * ONE) * ONE / ONE == Abs(p) * ONE
  {
  }

  /** On whole bases fexp_x18 is exact as long as its last square fits, as fexp is. */
  lemma {:induction false} FexpX18Whole(k: int, y: nat, a: int)
    requires Abs(k) * ONE < TWO_127 && Abs(a) * ONE < TWO_127
    requires y == 0 || (Abs(LastSquare(k, y)) * ONE < TWO_127 && Abs(a * IPow(k, y)) * ONE < TWO_127)
    ensures FexpX18From(k * ONE, y, a * ONE) == Some(a * IPow(k, y) * ONE)
    decreases y
  {
    hide MulX18;
    if y == 0 {
    } else {
      LastSquareStep(k, y);
      PowerStep(k, y, a);
      var a' := if y % 2 == 1 then a * k else a;
      WholePartsFit(k, y, a);
      MulWhole(k, k);
      if y % 2 == 1 {
        MulWhole(a, k);
      }
      FexpX18Whole(k * k, y / 2, a');
    }
  }

  lemma WholePartsFit(k: int, y: nat, a: int)
    requires y > 0 && Abs(LastSquare(k, y)) * ONE < TWO_127 && Abs(a * IPow(k, y)) * ONE < TWO_127
    requires Abs(a) * ONE < TWO_127
    ensures Abs(k * k) * ONE < TWO_127
    ensures y % 2 == 1 ==> Abs(a * k) * ONE < TWO_127
  {
    hide LastSquare, IPow;
    LastSquareStep(k, y);
    PowerStep(k, y, a);
    if k == 0 {
      assert a * k == 0;
    } else {
      Squared(k);
      var (q, h) := (k * k, y / 2);
      var p := if y % 2 == 1 then a * k else a;
      SquareBelowLast(q, h);
      FactorBelowProduct(q, h, p);
      Smaller(q, LastSquare(k, y));
      Smaller(p, a * IPow(k, y));
    }
  }

  lemma Smaller(p: int, r: int)
    requires Abs(p) <= Abs(r) && Abs(r) * ONE < TWO_127
    ensures Abs(p) * ONE < TWO_127
  {
  }

  lemma Squared(k: int)
    requires k != 0
    ensures k * k > 0
  {
  }

  lemma SquareBelowLast(q: int, h: nat)
    requires q > 0
    ensures Abs(q) <= Abs(LastSquare(q, h))
  {
    MagnitudeGrows(q, 1, Pow2(BitLength(h)));
    assert IPow(q, 1) == q * IPow(q, 0) == q;
  }

  lemma FactorBelowProduct(q: int, h: nat, p: int)
    requires q > 0
    ensures Abs(p) <= Abs(p * IPow(q, h))
  {
    MagnitudeGrows(q, 0, h);
    MulCommutes(p, IPow(q, h));
    ProductMagnitude(IPow(q, h), p);
  }
}
