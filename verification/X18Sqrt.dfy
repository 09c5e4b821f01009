/** try_sqrt_x18 (nado-rust-sdk/src/nado_utils/math.rs): doubling, then binary search. */
module X18Sqrt {
  import opened Base
  import opened X18

  const TWO_93: int := 0x2000_0000_0000_0000_0000_0000
  const TWO_186: int := TWO_93 * TWO_93

  function Pow2(n: nat): (p: nat)
    ensures p > 0
  {
    if n == 0 then 1 else 2 * Pow2(n - 1)
  }

  lemma {:induction false} Pow2Increases(m: nat, n: nat)
    requires m <= n
    ensures Pow2(m) <= Pow2(n)
  {
    if m < n {
      Pow2Increases(m, n - 1);
    }
  }

  lemma {:induction false} Pow2Sum(m: nat, n: nat)
    ensures Pow2(m + n) == Pow2(m) * Pow2(n)
  {
    if m == 0 {
    } else {
      Pow2Sum(m - 1, n);
    }
  }

  lemma Pow2Of93()
    ensures Pow2(93) == TWO_93
  {
    Pow2Of31();
    Pow2Sum(31, 31);
    Pow2Sum(62, 31);
  }

  lemma Pow2Of31()
    ensures Pow2(31) == 0x8000_0000
  {
    assert Pow2(8) == 256;
    assert Pow2(7) == 128;
    Pow2Sum(8, 8);
    Pow2Sum(8, 7);
    Pow2Sum(16, 15);
  }

  /** Squares up to 2^186 fit the narrowing. */
  lemma SquareFits(m: nat)
    requires m <= TWO_93
    ensures TryMulX18(m, m) == Some(m * m / ONE)
  {
    WideStepsFit(m, m);
    ProductBound(m, m, TWO_93, TWO_93);
    NarrowsWhenSmall(m * m);
  }

  lemma NarrowsWhenSmall(p: nat)
    requires p <= TWO_186
    ensures p / ONE < TWO_127 && TruncDiv(p, ONE) == p / ONE
  {
  }

  /** The square of 2^94 does not. */
  lemma SquareOfTwo94()
    ensures TryMulX18(2 * TWO_93, 2 * TWO_93) == None
  {
    WideStepsFit(2 * TWO_93, 2 * TWO_93);
    var p := 4 * TWO_186;
    assert TruncDiv(p, ONE) == p / ONE;
    assert p / ONE >= TWO_127;
  }

  /** The least non-negative r whose square, scaled down, reaches s. */
  ghost predicate IsLeastRoot(r: int, s: int) {
    && 0 <= r
    && s * ONE <= r * r
    && (forall k: nat :: k < r ==> k * k < s * ONE)
  }

  lemma SquareIncreases(a: nat, b: nat)
    requires a <= b
    ensures a * a <= b * b
  {
    assert a * a <= a * b <= b * b;
  }

  /** First phase: double hi until its scaled square reaches s. */
  method DoublingPhase(s: I128) returns (r: Option<I128>)
    ensures r.Some? <==> s * ONE <= TWO_186
    ensures r.Some? ==> 1 <= r.value <= TWO_93 && s * ONE <= r.value * r.value
    ensures r.Some? && r.value > 1 ==> r.value / 2 * (r.value / 2) < s * ONE
  {
    var hi: I128 := 1;
    ghost var n := 0;
    SquareFits(1);
    var square :- TryMulX18(hi, hi);
    while square < s
      invariant 0 <= n <= 93 && hi == Pow2(n) && hi <= TWO_93
      invariant square == hi * hi / ONE
      invariant n > 0 ==> hi / 2 * (hi / 2) < s * ONE
      decreases 93 - n
    {
      assert hi * hi < s * ONE;
      hi :- CheckedI(hi * 2);
      n := n + 1;
      Pow2Of93();
      if n <= 93 {
        Pow2Increases(n, 93);
        SquareFits(hi);
      } else {
        SquareOfTwo94();
      }
      square :- TryMulX18(hi, hi);
    }
    ProductBound(hi, hi, TWO_93, TWO_93);
    r := Some(hi);
  }

  /** Second phase: halve the interval [hi / 2, hi] down to the least root. */
  method SearchPhase(s: I128, top: I128) returns (r: Option<I128>)
    requires 1 <= top <= TWO_93 && s * ONE <= top * top
    requires top > 1 ==> top / 2 * (top / 2) < s * ONE
    ensures r.Some? && IsLeastRoot(r.value, s)
  {
    var hi := top;
    var lo: I128 := hi / 2;
    forall k: nat | k < lo ensures k * k < s * ONE {
      SquareIncreases(k, lo);
    }
    while lo < hi
      invariant 0 <= lo <= hi <= TWO_93
      invariant s * ONE <= hi * hi
      invariant forall k: nat :: k < lo ==> k * k < s * ONE
    {
      var sum :- CheckedI(lo + hi);
      var mid: I128 := sum / 2;
      SquareFits(mid);
      var square :- TryMulX18(mid, mid);
      if square < s {
        forall k: nat | k <= mid ensures k * k < s * ONE {
          SquareIncreases(k, mid);
        }
        lo :- CheckedI(mid + 1);
      } else {
        hi := mid;
      }
    }
    r := Some(lo);
  }

  /**
    Succeeds exactly when s * 10^18 is at most 2^186, and then returns the least root; for
    s <= 0 that is 0. Above the bound the doubling phase squares 2^94 and the narrowing aborts.
  */
  method TrySqrtX18(s: I128) returns (r: Option<I128>)
    ensures r.Some? <==> s * ONE <= TWO_186
    ensures r.Some? ==> IsLeastRoot(r.value, s)
  {
    var top :- DoublingPhase(s);
    r := SearchPhase(s, top);
  }
}
