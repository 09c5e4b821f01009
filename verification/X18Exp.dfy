/** Square-and-multiply powers (nado-rust-sdk/src/nado_utils/math.rs): fexp_x18 and fexp. */
module X18Exp {
  import opened Base
  import opened X18
  import opened X18Sqrt

  const TWO_126: int := 0x4000_0000_0000_0000_0000_0000_0000_0000

  // ---- the loop counter ----

  /** `i <<= 1` on a 128-bit signed integer: the top bit falls off silently. */
  function ShiftLeft(i: I128): I128 {
    WrapI(2 * i % TWO_128)
  }

  lemma ShiftDoubles(i: I128)
    requires 0 <= i < TWO_126
    ensures ShiftLeft(i) == 2 * i
  {
  }

  /** The counter after n iterations, if the loop were never left. */
  function Counter(n: nat): I128 {
    if n == 0 then 1 else ShiftLeft(Counter(n - 1))
  }

  lemma Pow2Of126()
    ensures Pow2(126) == TWO_126
  {
    Pow2Of31();
    Pow2Sum(31, 31);
    Pow2Sum(62, 62);
    Pow2Sum(124, 2);
    assert Pow2(2) == 4;
  }

  lemma {:induction false} CounterIsPower(n: nat)
    requires n <= 126
    ensures Counter(n) == Pow2(n) <= TWO_126
  {
    Pow2Of126();
    assert 2 * Pow2(125) == Pow2(126);
    assert n > 0 ==> Pow2(n) == 2 * Pow2(n - 1);
    Pow2Increases(n, 126);
    if n == 0 {
    } else {
      hide Pow2, ShiftLeft;
      CounterIsPower(n - 1);
      Pow2Increases(n - 1, 125);
      ShiftDoubles(Pow2(n - 1));
    }
  }

  lemma ShiftOut()
    ensures ShiftLeft(TWO_126) == I128_MIN && ShiftLeft(I128_MIN) == 0 && ShiftLeft(0) == 0
  {
  }

  lemma {:induction false} CounterVanishes(n: nat)
    requires n >= 127
    ensures Counter(n) == if n == 127 then I128_MIN else 0
  {
    hide ShiftLeft, Pow2;
    if n == 127 {
      CounterIsPower(126);
      Pow2Of126();
      ShiftOut();
    } else {
      CounterVanishes(n - 1);
      ShiftOut();
    }
  }

  lemma CounterBounded(n: nat)
    ensures Counter(n) <= TWO_126
  {
    hide Counter;
    if n <= 126 {
      CounterIsPower(n);
    } else {
      CounterVanishes(n);
    }
  }

  /** The guard `i <= y` ever fails if and only if y is below 2^126; from there on the loop cannot end. */
  lemma LoopLeftIffBelowTwo126(y: I128)
    requires y >= 0
    ensures (exists n: nat :: Counter(n) > y) <==> y < TWO_126
  {
    if y < TWO_126 {
      CounterIsPower(126);
      Pow2Of126();
      assert Counter(126) > y;
    } else {
      forall n: nat ensures Counter(n) <= y {
        CounterBounded(n);
      }
    }
  }

  // ---- fexp_x18 ----

  /** The work left when the base is x, the unread bits of the exponent are y and the accumulator is acc. */
  function FexpX18From(x: I128, y: nat, acc: I128): Option<I128>
    decreases y
  {
    hide MulX18;
    if y == 0 then
      Some(acc)
    else
      var acc' :- if y % 2 == 1 then MulX18(acc, x) else Some(acc);
      var x' :- MulX18(x, x);
      FexpX18From(x', y / 2, acc')
  }

  lemma BitOf(y: nat, i: nat)
    requires i > 0
    ensures y / i / 2 == y / (2 * i)
  {
    var (q, r) := (y / i, y % i);
    assert y == q * i + r;
    assert q == q / 2 * 2 + q % 2;
    assert y == q / 2 * (2 * i) + (q % 2 * i + r);
    assert q % 2 == 0 || q % 2 == 1;
    QuotientUnique(y, 2 * i, q / 2);
  }

  /** Bitwise and. */
  function BitAnd(a: nat, b: nat): nat {
    if a == 0 || b == 0 then 0 else a % 2 * (b % 2) + 2 * BitAnd(a / 2, b / 2)
  }

  /** Testing a power of two against y reads one bit of y. */
  lemma {:induction false} BitAndReadsBit(n: nat, y: nat)
    ensures BitAnd(Pow2(n), y) != 0 <==> y / Pow2(n) % 2 == 1
  {
    if n == 0 {
      assert BitAnd(1, y) == if y == 0 then 0 else y % 2 + 2 * BitAnd(0, y / 2);
    } else {
      BitAndReadsBit(n - 1, y / 2);
      HalfFirst(y, Pow2(n - 1));
      assert Pow2(n) % 2 == 0 && Pow2(n) / 2 == Pow2(n - 1);
    }
  }

  lemma HalfFirst(y: nat, p: nat)
    requires p > 0
    ensures y / 2 / p == y / (2 * p)
  {
    var (h, k) := (y / 2, y / 2 / p);
    DivisionBounds(h, p);
    assert k * (2 * p) == 2 * (k * p);
    QuotientUnique(y, 2 * p, k);
  }

  /** What one pass consumes of the work left. */
  lemma NextBits(y: nat, i: nat, n: nat)
    requires i == Pow2(n) && i <= y < TWO_126
    ensures y / i > 0 && y / i / 2 == y / (2 * i)
    ensures BitAnd(i, y) != 0 <==> y / i % 2 == 1
    ensures i < TWO_126 && 2 * i == Pow2(n + 1)
  {
    DivisionBounds(y, i);
    BitOf(y, i);
    BitAndReadsBit(n, y);
  }

  method FexpX18(base: I128, y: I128) returns (r: Option<I128>)
    requires y < TWO_126
    ensures r == if y < 0 then None else FexpX18From(base, y, ONE)
  {
    hide MulX18, ShiftLeft, BitAnd;
    if y < 0 {
      return None;
    }
    var x := base;
    var i: I128 := 1;
    var ret: I128 := ONE;
    ghost var n := 0;
    while i <= y
      invariant 0 < i == Pow2(n)
      invariant FexpX18From(x, y / i, ret) == FexpX18From(base, y, ONE)
      decreases TWO_127 - i
    {
      NextBits(y, i, n);
      if BitAnd(i, y) != 0 {
        ret :- MulX18(ret, x);
      }
      x :- MulX18(x, x);
      ShiftDoubles(i);
      i, n := ShiftLeft(i), n + 1;
    }
    SmallDividend(y, i);
    r := Some(ret);
  }

  function RPow(b: real, n: nat): real {
    if n == 0 then 1.0 else b * RPow(b, n - 1)
  }

  lemma {:induction false} RPowUnit(b: real, n: nat)
    requires 0.0 <= b <= 1.0
    ensures 0.0 <= RPow(b, n) <= 1.0
  {
    hide RPow;
    if n == 0 {
      RPowZero(b);
    } else {
      RPowUnit(b, n - 1);
      RPowNext(b, n);
      UnitTimesUnit(b, RPow(b, n - 1));
    }
  }

  lemma UnitTimesUnit(a: real, b: real)
    requires 0.0 <= a && 0.0 <= b <= 1.0
    ensures 0.0 <= a * b <= a
  {
  }

  lemma {:induction false} RPowOfSquare(b: real, n: nat)
    ensures RPow(b * b, n) == RPow(b, 2 * n)
  {
    if n == 0 {
    } else {
      RPowOfSquare(b, n - 1);
      assert RPow(b, 2 * n) == b * (b * RPow(b, 2 * n - 2));
    }
  }

  /** Lowering the base by d lowers the n-th power by at most n * d. */
  lemma {:induction false} RPowPerturbed(a: real, b: real, n: nat)
    requires 0.0 <= a <= b <= 1.0
    ensures 0.0 <= RPow(b, n) - RPow(a, n) <= n as real * (b - a)
  {
    hide RPow;
    if n == 0 {
      RPowZero(a);
      RPowZero(b);
    } else {
      RPowPerturbed(a, b, n - 1);
      RPowUnit(a, n - 1);
      RPowUnit(b, n - 1);
      RPowNext(a, n);
      RPowNext(b, n);
      OneMore(n, b - a);
      PerturbStep(a, b, RPow(a, n - 1), RPow(b, n - 1), (n - 1) as real * (b - a), n as real * (b - a));
    }
  }

  lemma RPowNext(b: real, n: nat)
    requires n > 0
    ensures RPow(b, n) == b * RPow(b, n - 1)
  {
  }

  lemma PerturbStep(a: real, b: real, pa: real, pb: real, gap: real, total: real)
    requires 0.0 <= a <= b <= 1.0 && 0.0 <= pa <= pb <= 1.0 && pb - pa <= gap && gap + (b - a) == total
    ensures 0.0 <= b * pb - a * pa <= total
  {
    GapParts(a, b, pa, pb, gap, pb - pa, b - a);
  }

  lemma GapParts(a: real, b: real, pa: real, pb: real, gap: real, d: real, e: real)
    requires 0.0 <= a <= b <= 1.0 && 0.0 <= pa <= pb <= 1.0
    requires d == pb - pa <= gap && e == b - a
    ensures b * pb - a * pa == d * b + e * pa
    ensures 0.0 <= d * b + e * pa <= gap + e
  {
    UnitTimesUnit(d, b);
    UnitTimesUnit(e, pa);
    AddBounds(d * b, e * pa, d, e, gap);
  }

  lemma AddBounds(u: real, v: real, d: real, e: real, gap: real)
    requires 0.0 <= u <= d <= gap && 0.0 <= v <= e
    ensures 0.0 <= u + v <= gap + e
  {
  }

  lemma OneMore(n: nat, d: real)
    requires n > 0
    ensures (n - 1) as real * d + d == n as real * d
  {
    assert n as real == (n - 1) as real + 1.0;
  }

  function Scaled(x: int): real {
    x as real / ONE as real
  }

  /** Multiplying two factors in [0, 1] loses less than one unit. */
  lemma UnitProduct(a: I128, b: I128)
    requires 0 <= a <= ONE && 0 <= b <= ONE
    ensures MulX18(a, b).Some? && 0 <= MulX18(a, b).value <= ONE
    ensures MulX18(a, b).value as real <= a as real * Scaled(b) < MulX18(a, b).value as real + 1.0
  {
    hide MulX18;
    MulX18Characterised(a, b);
    ProductBound(a, b, ONE, ONE);
    var p := a * b;
    var q := p / ONE;
    assert MulX18(a, b) == Some(q);
    assert q * ONE <= p < q * ONE + ONE;
    assert a as real * Scaled(b) == p as real / ONE as real by {
      assert a as real * b as real == p as real;
    }
  }

  /** One pass of the loop, on reals: b is the exact square of the base, a the truncated one. */
  lemma HalfStep(acc: real, acc': real, b: real, a: real, h: nat, odd: bool, x: real)
    requires 0.0 <= acc <= ONE as real && 0.0 <= acc'
    requires 0.0 <= a <= b <= 1.0 && b - a <= 1.0 / ONE as real && b == x * x && 0.0 <= x <= 1.0
    requires if odd then acc' <= acc * x < acc' + 1.0 else acc' == acc
    ensures acc' * RPow(a, h) <= acc * RPow(x, 2 * h + if odd then 1 else 0)
    ensures acc * RPow(x, 2 * h + if odd then 1 else 0)
         <= acc' * RPow(a, h) + h as real + if odd then 1.0 else 0.0
  {
    hide RPow;
    PowerOfTop(acc, x, h, odd);
    RPowUnit(a, h);
    UnitTimesUnit(acc, x);
    var gap := PowerGap(a, b, h);
    StepBounds(acc, acc', acc * x, odd, RPow(a, h), RPow(b, h), h as real, gap);
  }

  lemma PowerGap(a: real, b: real, h: nat) returns (gap: real)
    requires 0.0 <= a <= b <= 1.0 && b - a <= 1.0 / ONE as real
    ensures 0.0 <= RPow(b, h) - RPow(a, h) <= gap <= h as real * (1.0 / ONE as real)
  {
    hide RPow;
    gap := h as real * (b - a);
    RPowPerturbed(a, b, h);
    ScaleLeft(h as real, b - a, 1.0 / ONE as real);
  }

  lemma StepBounds(acc: real, acc': real, p: real, odd: bool, pa: real, pb: real, n: real, gap: real)
    requires 0.0 <= acc <= ONE as real && 0.0 <= acc' && 0.0 <= p <= acc
    requires if odd then acc' <= p < acc' + 1.0 else acc' == acc
    requires 0.0 <= pa <= pb && pa <= 1.0 && pb - pa <= gap <= n * (1.0 / ONE as real)
    ensures var top := if odd then p else acc;
            acc' * pa <= top * pb <= acc' * pa + n + if odd then 1.0 else 0.0
  {
    TruncatedGap(if odd then p else acc, acc', pa, pb, n, gap);
  }

  lemma PowerOfTop(acc: real, x: real, h: nat, odd: bool)
    ensures acc * RPow(x, 2 * h + if odd then 1 else 0)
         == (if odd then acc * x else acc) * RPow(x * x, h)
  {
    RPowOfSquare(x, h);
  }

  lemma TruncatedGap(top: real, low: real, pa: real, pb: real, n: real, gap: real)
    requires 0.0 <= low <= top <= ONE as real && 0.0 <= pa <= pb && pa <= 1.0
    requires pb - pa <= gap <= n * (1.0 / ONE as real)
    ensures low * pa <= top * pb <= low * pa + n + (top - low)
  {
    UnitGap(top, pa, pb, n, gap, ONE as real);
    RoundedGap(top, low, pa, pb, top - low);
  }

  lemma UnitGap(top: real, pa: real, pb: real, n: real, gap: real, one: real)
    requires 0.0 <= top <= one && 0.0 < one && 0.0 <= pb - pa <= gap <= n * (1.0 / one)
    ensures top * pb <= top * pa + n
  {
    assert top * pb == top * pa + top * (pb - pa);
    assert top * (pb - pa) <= one * (pb - pa) <= one * gap <= one * (n * (1.0 / one)) == n;
  }

  lemma RoundedGap(top: real, low: real, pa: real, pb: real, d: real)
    requires 0.0 <= low <= top && 0.0 <= pa <= pb && pa <= 1.0 && d == top - low
    ensures low * pa <= top * pb && top * pa <= low * pa + d
  {
    ScaleBy(low, top, pa);
    ScaleBy(pa, pb, top);
    ScaleBy(pa, 1.0, d);
    Distribute(top, low, d, pa);
  }

  lemma ScaleBy(a: real, b: real, k: real)
    requires a <= b && 0.0 <= k
    ensures a * k <= b * k
  {
  }

  lemma ScaleLeft(k: real, a: real, b: real)
    requires a <= b && 0.0 <= k
    ensures k * a <= k * b
  {
  }

  lemma Distribute(top: real, low: real, d: real, pa: real)
    requires d == top - low
    ensures top * pa == low * pa + d * pa
  {
  }

  lemma {:induction false} FexpX18Bounds(x: I128, y: nat, acc: I128)
    requires 0 <= x <= ONE && 0 <= acc <= ONE
    ensures FexpX18From(x, y, acc).Some? && 0 <= FexpX18From(x, y, acc).value <= ONE
    ensures FexpX18From(x, y, acc).value as real <= acc as real * RPow(Scaled(x), y)
    ensures acc as real * RPow(Scaled(x), y) <= FexpX18From(x, y, acc).value as real + y as real
    decreases y
  {
    hide MulX18, RPow, Scaled;
    if y == 0 {
      assert RPow(Scaled(x), 0) == 1.0 by {
        RPowZero(Scaled(x));
      }
    } else {
      UnitProduct(acc, x);
      SquaredBase(x);
      var (h, odd) := (y / 2, y % 2 == 1);
      assert y == 2 * h + if odd then 1 else 0;
      var acc' := if odd then MulX18(acc, x).value else acc;
      var x' := MulX18(x, x).value;
      FexpX18Bounds(x', h, acc');
      var b := Scaled(x) * Scaled(x);
      HalfStep(acc as real, acc' as real, b, Scaled(x'), h, odd, Scaled(x));
      assert FexpX18From(x, y, acc) == FexpX18From(x', h, acc');
    }
  }

  lemma RPowZero(b: real)
    ensures RPow(b, 0) == 1.0
  {
  }

  lemma SquaredBase(x: I128)
    requires 0 <= x <= ONE
    ensures MulX18(x, x).Some? && 0 <= MulX18(x, x).value <= ONE
    ensures 0.0 <= Scaled(x) <= 1.0
    ensures 0.0 <= Scaled(MulX18(x, x).value) <= Scaled(x) * Scaled(x) <= 1.0
    ensures Scaled(x) * Scaled(x) - Scaled(MulX18(x, x).value) <= 1.0 / ONE as real
  {
    hide MulX18;
    UnitProduct(x, x);
    UnitTimesUnit(Scaled(x), Scaled(x));
    assert x as real * Scaled(x) == Scaled(x) * Scaled(x) * ONE as real;
  }

  /**
    For a base in [0, 1] fexp_x18 never aborts, never exceeds the exact power, and falls short of it
    by at most y units in the last place, counting the truncations of the squaring chain and of the
    accumulator.
  */
  lemma FexpX18Error(x: I128, y: nat)
    requires 0 <= x <= ONE
    ensures var exact := ONE as real * RPow(Scaled(x), y);
            var r := FexpX18From(x, y, ONE);
            r.Some? && r.value as real <= exact <= r.value as real + y as real
  {
    hide FexpX18From, MulX18;
    FexpX18Bounds(x, y, ONE);
  }

  // ---- negative bases ----

  lemma SignedSmall(q: nat, sign: int)
    requires q <= ONE && (sign == 1 || sign == -1)
    ensures Signed(q, sign) == Some(q * sign) && -ONE <= q * sign <= ONE
  {
  }

  /** On factors in [-1, 1] the product is the truncated magnitude with the sign of the product. */
  lemma MulSmall(a: I128, b: I128)
    requires -ONE <= a <= ONE && -ONE <= b <= ONE
    ensures 0 <= Abs(a) * Abs(b) / ONE <= ONE
    ensures MulX18(a, b) == Some(Abs(a) * Abs(b) / ONE * SignOf(a, b))
  {
    MulX18Characterised(a, b);
    hide MulX18, Signed;
    ProductBound(Abs(a), Abs(b), ONE, ONE);
    SignedSmall(Abs(a) * Abs(b) / ONE, SignOf(a, b));
  }

  lemma MulNegated(a: I128, b: I128)
    requires -ONE <= a <= ONE && -ONE <= b <= ONE
    ensures MulX18(a, b).Some? && -ONE <= MulX18(a, b).value <= ONE
    ensures MulX18(-a, b) == MulX18(a, -b) == Some(-MulX18(a, b).value)
    ensures MulX18(-a, -b) == MulX18(a, b)
  {
    assert Abs(-a) == Abs(a) && Abs(-b) == Abs(b);
    var (q, sign) := (Abs(a) * Abs(b) / ONE, SignOf(a, b));
    SignFlips(a, b);
    hide MulX18, SignOf, Abs;
    MulSmall(a, b);
    MulSmall(-a, b);
    MulSmall(a, -b);
    MulSmall(-a, -b);
    if a == 0 || b == 0 {
      NothingTimes(a, b);
    } else {
      Opposite(q, sign);
    }
  }

  lemma SignFlips(a: int, b: int)
    ensures a != 0 && b != 0 ==> SignOf(-a, b) == SignOf(a, -b) == -SignOf(a, b)
    ensures a != 0 && b != 0 ==> SignOf(-a, -b) == SignOf(a, b)
  {
  }

  lemma NothingTimes(a: int, b: int)
    requires a == 0 || b == 0
    ensures Abs(a) * Abs(b) / ONE == 0
  {
  }

  lemma Opposite(q: int, sign: int)
    ensures q * -sign == -(q * sign)
  {
  }

  lemma {:induction false} FexpX18NegatedStart(x: I128, y: nat, acc: I128)
    requires -ONE <= x <= ONE && -ONE <= acc <= ONE
    ensures FexpX18From(x, y, acc).Some? && -ONE <= FexpX18From(x, y, acc).value <= ONE
    ensures FexpX18From(x, y, -acc) == Some(-FexpX18From(x, y, acc).value)
    decreases y
  {
    hide MulX18;
    if y == 0 {
    } else {
      MulNegated(acc, x);
      MulNegated(x, x);
      var (x', acc') := (MulX18(x, x).value, if y % 2 == 1 then MulX18(acc, x).value else acc);
      FexpX18NegatedStart(x', y / 2, acc');
      OnePass(x, y, acc, x', acc');
      OnePass(x, y, -acc, x', -acc');
      hide FexpX18From;
    }
  }

  lemma OnePass(x: I128, y: nat, acc: I128, x': I128, acc': I128)
    requires y > 0 && MulX18(x, x) == Some(x')
    requires if y % 2 == 1 then MulX18(acc, x) == Some(acc') else acc' == acc
    ensures FexpX18From(x, y, acc) == FexpX18From(x', y / 2, acc')
  {
    hide MulX18;
  }

  /** A negative base gives the power of its magnitude, negated for odd exponents; so its error bound holds too. */
  lemma FexpX18NegativeBase(x: I128, y: nat)
    requires 0 <= x <= ONE
    ensures FexpX18From(x, y, ONE).Some? && -ONE <= FexpX18From(x, y, ONE).value <= ONE
    ensures FexpX18From(-x, y, ONE)
         == Some(if y % 2 == 1 then -FexpX18From(x, y, ONE).value else FexpX18From(x, y, ONE).value)
  {
    hide MulX18;
    FexpX18NegatedStart(x, y, ONE);
    if y > 0 {
      MulNegated(ONE, x);
      MulNegated(x, x);
      var (x', acc') := (MulX18(x, x).value, if y % 2 == 1 then MulX18(ONE, x).value else ONE);
      FexpX18NegatedStart(x', y / 2, acc');
      OnePass(x, y, ONE, x', acc');
      OnePass(-x, y, ONE, x', if y % 2 == 1 then -acc' else acc');
      hide FexpX18From;
    }
  }
}
