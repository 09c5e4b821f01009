/**
  Printing a fixed-point value (x18_to_decimal_string, gateway/portfolio/src/main.rs) and reading
  one back (str_to_x18, nado-rust-sdk/src/nado_utils/math.rs). A character stands for one byte.
*/
module Decimal {
  import opened Base
  import opened X18

  // ---- digits and their value ----

  predicate IsDigit(c: char) {
    '0' <= c <= '9'
  }

  predicate AllDigits(s: string) {
    forall i :: 0 <= i < |s| ==> IsDigit(s[i])
  }

  function DigitChar(d: nat): (c: char)
    requires d < 10
    ensures IsDigit(c) && DigitValue(c) == d
  {
    '0' + d as char
  }

  function DigitValue(c: char): (d: nat)
    requires IsDigit(c)
    ensures d < 10
  {
    (c - '0') as int
  }

  /** The value of a string of decimal digits; leading zeros are allowed. */
  function Value(s: string): nat
    requires AllDigits(s)
  {
    if s == "" then 0 else 10 * Value(s[..|s| - 1]) + DigitValue(s[|s| - 1])
  }

  /** The shortest decimal representation, as integers are displayed. */
  function Digits(n: nat): (s: string)
    ensures s != "" && AllDigits(s) && Value(s) == n
  {
    if n < 10 then
      PushDigit("", n);
      "" + [DigitChar(n)]
    else
      var init := Digits(n / 10);
      PushDigit(init, n % 10);
      init + [DigitChar(n % 10)]
  }

  lemma PushDigit(s: string, d: nat)
    requires AllDigits(s) && d < 10
    ensures AllDigits(s + [DigitChar(d)]) && Value(s + [DigitChar(d)]) == 10 * Value(s) + d
  {
    assert (s + [DigitChar(d)])[..|s|] == s;
  }

  function Zeros(n: nat): (s: string)
    ensures |s| == n && AllDigits(s)
    ensures forall i :: 0 <= i < n ==> s[i] == '0'
  {
    seq(n, i => '0')
  }

  function Pow10(n: nat): (p: nat)
    ensures p > 0
  {
    if n == 0 then 1 else 10 * Pow10(n - 1)
  }

  lemma {:induction false} ValueBound(s: string)
    requires AllDigits(s)
    ensures Value(s) < Pow10(|s|)
  {
    if s == "" {
    } else {
      ValueBound(s[..|s| - 1]);
    }
  }

  lemma {:induction false} ValueConcat(a: string, b: string)
    requires AllDigits(a) && AllDigits(b)
    ensures AllDigits(a + b) && Value(a + b) == Value(a) * Pow10(|b|) + Value(b)
  {
    if b == "" {
      assert a + b == a;
    } else {
      var init := b[..|b| - 1];
      ValueConcat(a, init);
      assert (a + b)[..|a + b| - 1] == a + init;
      ShiftDigit(Value(a), Pow10(|init|), Value(init), DigitValue(b[|b| - 1]));
    }
  }

  lemma ShiftDigit(a: nat, p: nat, v: nat, d: nat)
    ensures 10 * (a * p + v) + d == a * (10 * p) + (10 * v + d)
  {
  }

  lemma {:induction false} ValueOfZeros(n: nat)
    ensures Value(Zeros(n)) == 0
  {
    if n == 0 {
    } else {
      assert Zeros(n)[..n - 1] == Zeros(n - 1);
      ValueOfZeros(n - 1);
    }
  }

  lemma {:induction false} DigitsShort(n: nat, width: nat)
    requires n < Pow10(width) && width > 0
    ensures |Digits(n)| <= width
  {
    if n >= 10 {
      assert width > 1;
      DigitsShort(n / 10, width - 1);
    }
  }

  // ---- x18_to_decimal_string ----

  const FRACTION_DIGITS: nat := 18

  lemma Pow10Of18()
    ensures Pow10(18) == ONE
  {
    assert Pow10(6) == 1_000_000;
    assert Pow10(12) == 1_000_000_000_000;
  }

  /** Right-justified in a field of the given width, filled with zeros. */
  function PadLeft(s: string, width: nat): string {
    Zeros(if |s| < width then width - |s| else 0) + s
  }

  /** Left-justified in a field of the given width, filled with zeros. */
  function PadRight(s: string, width: nat): string {
    s + Zeros(if |s| < width then width - |s| else 0)
  }

  function StripZeros(s: string): string {
    if s != "" && s[|s| - 1] == '0' then StripZeros(s[..|s| - 1]) else s
  }

  function DecimalString(value: I128): string {
    var sign := if value < 0 then "-" else "";
    var whole := Abs(value) / ONE;
    var frac := Abs(value) % ONE;
    if frac == 0 then sign + Digits(whole)
    else sign + Digits(whole) + "." + StripZeros(PadLeft(Digits(frac), FRACTION_DIGITS))
  }

  method X18ToDecimalString(value: I128) returns (s: string)
    ensures s == DecimalString(value)
  {
    var sign := if value < 0 then "-" else "";
    var abs := Abs(value);
    var intPart := abs / ONE;
    var fracPart := abs % ONE;
    if fracPart == 0 {
      return sign + Digits(intPart);
    }
    var frac := PadLeft(Digits(fracPart), FRACTION_DIGITS);
    while frac != "" && frac[|frac| - 1] == '0'
      invariant StripZeros(frac) == StripZeros(PadLeft(Digits(fracPart), FRACTION_DIGITS))
      decreases |frac|
    {
      frac := frac[..|frac| - 1];
    }
    s := sign + Digits(intPart) + "." + frac;
  }

  // ---- str_to_x18 ----

  function Split(s: string, c: char): (parts: seq<string>)
    ensures |parts| >= 1
  {
    if s == "" then [""]
    else
      var rest := Split(s[1..], c);
      if s[0] == c then [""] + rest else [[s[0]] + rest[0]] + rest[1..]
  }

  /** Parsing a 128-bit integer: an optional sign, then at least one digit, and the value must fit. */
  function ParseI128(s: string): Option<I128> {
    var signed := s != "" && (s[0] == '+' || s[0] == '-');
    var body := if signed then s[1..] else s;
    if body == "" || !AllDigits(body) then None
    else CheckedI(WithSign(Value(body), signed && s[0] == '-'))
  }

  /** The 18 characters that are parsed as the fraction. */
  function FractionField(f: string): string {
    if |f| <= FRACTION_DIGITS then PadRight(f, FRACTION_DIGITS) else f[..FRACTION_DIGITS]
  }

  function StrToX18(s: string): Option<I128> {
    var parts := Split(s, '.');
    var whole := ParseI128(parts[0]).GetOr(0);
    var frac :=
      if |parts| > 1 then
        ParseI128(FractionField(parts[1])).GetOr(0)
      else 0;
    var scaled :- CheckedI(whole * ONE);
    CheckedI(scaled + frac)
  }

  // ---- lemmas ----

  lemma {:induction false} SplitWithout(s: string, c: char)
    requires c !in s
    ensures Split(s, c) == [s]
  {
    if s == "" {
    } else {
      SplitWithout(s[1..], c);
      assert [s[0]] + s[1..] == s;
    }
  }

  lemma {:induction false} SplitOnce(a: string, b: string, c: char)
    requires c !in a && c !in b
    ensures Split(a + [c] + b, c) == [a, b]
  {
    var s := a + [c] + b;
    if a == "" {
      assert s[1..] == b;
      SplitWithout(b, c);
    } else {
      assert s[1..] == a[1..] + [c] + b;
      SplitOnce(a[1..], b, c);
      assert [a[0]] + a[1..] == a;
    }
  }

  /** Stripping zeros on the right is undone by padding with zeros on the right. */
  lemma {:induction false} StripThenPad(s: string)
    ensures var t := StripZeros(s); |t| <= |s| && t + Zeros(|s| - |t|) == s && t == s[..|t|]
  {
    if s != "" && s[|s| - 1] == '0' {
      var init := s[..|s| - 1];
      StripThenPad(init);
      var t := StripZeros(init);
      assert t + Zeros(|s| - |t|) == t + Zeros(|init| - |t|) + "0";
      assert init + "0" == s;
    }
  }

  lemma PadLeftValue(n: nat)
    requires n < ONE
    ensures var p := PadLeft(Digits(n), FRACTION_DIGITS);
            |p| == FRACTION_DIGITS && AllDigits(p) && Value(p) == n
  {
    Pow10Of18();
    DigitsShort(n, FRACTION_DIGITS);
    var k := FRACTION_DIGITS - |Digits(n)|;
    ValueConcat(Zeros(k), Digits(n));
    ValueOfZeros(k);
  }

  lemma ParseDigits(s: string)
    requires s != "" && AllDigits(s)
    ensures ParseI128(s) == CheckedI(Value(s))
    ensures ParseI128("-" + s) == CheckedI(WithSign(Value(s), true))
  {
    assert ("-" + s)[1..] == s;
  }

  /** The fraction read back is the fraction printed. */
  lemma FractionReadBack(n: nat)
    requires n < ONE
    ensures var f := StripZeros(PadLeft(Digits(n), FRACTION_DIGITS));
            '.' !in f && ParseI128(FractionField(f)) == Some(n)
  {
    hide StripZeros, Value, PadLeft, ParseI128, Digits;
    var p := PadLeft(Digits(n), FRACTION_DIGITS);
    PadLeftValue(n);
    StripThenPad(p);
    assert PadRight(StripZeros(p), FRACTION_DIGITS) == p;
    ParseDigits(p);
  }

  lemma WholeReadBack(value: I128)
    ensures var sign := if value < 0 then "-" else "";
            var k := Abs(value) / ONE;
            && ParseI128(sign + Digits(k)) == Some(WithSign(k, value < 0))
            && '.' !in sign + Digits(k)
  {
    var k := Abs(value) / ONE;
    hide Value, ParseI128;
    ParseDigits(Digits(k));
    assert "" + Digits(k) == Digits(k);
  }

  /** How the two parts of a split combine. */
  lemma ParseParts(a: string, f: string, whole: I128, frac: I128)
    requires '.' !in a && '.' !in f
    requires ParseI128(a).GetOr(0) == whole && ParseI128(FractionField(f)).GetOr(0) == frac
    ensures StrToX18(a + "." + f) == CheckedSum(whole, frac)
    ensures StrToX18(a) == CheckedSum(whole, 0)
  {
    hide Value, ParseI128, FractionField;
    SplitOnce(a, f, '.');
    SplitWithout(a, '.');
  }

  function ReadBackValue(value: int): int {
    if value < 0 then value + 2 * (Abs(value) % ONE) else value
  }

  /**
    What parsing makes of a printed value: the sign is applied to the whole part only, so a negative
    value comes back with its fraction added instead of subtracted.
  */
  lemma ReadBack(value: I128)
    ensures StrToX18(DecimalString(value)) == CheckedI(ReadBackValue(value))
    ensures StrToX18(DecimalString(value)).Some?
  {
    var (k, n) := (Abs(value) / ONE, Abs(value) % ONE);
    var a := (if value < 0 then "-" else "") + Digits(k);
    var f := StripZeros(PadLeft(Digits(n), FRACTION_DIGITS));
    assert DecimalString(value) == if n == 0 then a else a + "." + f;
    PartsOfValue(value);
    assert ParseI128(a) == Some(WithSign(k, value < 0)) && '.' !in a by {
      WholeReadBack(value);
    }
    assert ParseI128(FractionField(f)) == Some(n) && '.' !in f by {
      FractionReadBack(n);
    }
    hide StrToX18, DecimalString, ParseI128, StripZeros, PadLeft, Value, FractionField, CheckedSum;
    ParseParts(a, f, WithSign(k, value < 0), n);
  }

  lemma PartsOfValue(value: I128)
    ensures var (k, n) := (Abs(value) / ONE, Abs(value) % ONE);
            && CheckedSum(WithSign(k, value < 0), n) == CheckedI(ReadBackValue(value))
            && CheckedI(ReadBackValue(value)).Some?
  {
  }

  /** Parsing undoes printing exactly for non-negative values and whole negative ones. */
  lemma RoundTrip(value: I128)
    ensures StrToX18(DecimalString(value)) == Some(value) <==> value >= 0 || Abs(value) % ONE == 0
  {
    hide DecimalString, StrToX18;
    ReadBack(value);
  }

  /** No two values print alike, even where parsing does not recover them. */
  lemma PrintInjective(v: I128, w: I128)
    requires DecimalString(v) == DecimalString(w)
    ensures v == w
  {
    assert (v < 0) == (w < 0) by {
      assert v < 0 <==> DecimalString(v)[0] == '-';
      assert w < 0 <==> DecimalString(w)[0] == '-';
    }
    hide DecimalString, StrToX18;
    ReadBack(v);
    ReadBack(w);
    SamePartsSameValue(v, w);
  }

  lemma SamePartsSameValue(v: I128, w: I128)
    requires (v < 0) == (w < 0)
    requires ReadBackValue(v) == ReadBackValue(w)
    ensures v == w
  {
  }

  /**
    Reading "w.f" for digit strings w and f: the fraction is f scaled to 18 digits, further digits are
    truncated, and a whole part too large for 128 bits is read as zero.
  */
  lemma ParseTruncatesFraction(w: string, f: string)
    requires AllDigits(w) && AllDigits(f) && w != ""
    ensures StrToX18(w + "." + f)
         == CheckedSum((if Value(w) < TWO_127 then Value(w) else 0), Value(f) * ONE / Pow10(|f|))
  {
    FractionValue(f);
    ParseDigits(w);
    var whole := if Value(w) < TWO_127 then Value(w) else 0;
    assert ParseI128(w).GetOr(0) == whole;
    hide Value, ParseI128, Pow10, StrToX18, FractionField;
    ParseParts(w, f, whole, Value(f) * ONE / Pow10(|f|));
  }

  lemma FractionValue(f: string)
    requires AllDigits(f)
    ensures ParseI128(FractionField(f)) == Some(Value(f) * ONE / Pow10(|f|))
  {
    Pow10Of18();
    assert AllDigits(FractionField(f)) && |FractionField(f)| == FRACTION_DIGITS;
    ParseDigits(FractionField(f));
    ValueBound(FractionField(f));
    hide Value, ParseI128, Pow10, AllDigits;
    if |f| <= FRACTION_DIGITS {
      PaddedFraction(f);
    } else {
      CutFraction(f);
    }
  }

  lemma PaddedFraction(f: string)
    requires AllDigits(f) && |f| <= FRACTION_DIGITS
    ensures Value(PadRight(f, FRACTION_DIGITS)) == Value(f) * ONE / Pow10(|f|)
  {
    hide Value, Pow10;
    var k := FRACTION_DIGITS - |f|;
    PaddedValue(f, k);
    Pow10Product(|f|, k);
    ScaleUp(Value(f), Pow10(k), Pow10(|f|));
  }

  lemma PaddedValue(f: string, k: nat)
    requires AllDigits(f)
    ensures AllDigits(f + Zeros(k)) && Value(f + Zeros(k)) == Value(f) * Pow10(k)
  {
    hide Value, Pow10;
    ValueConcat(f, Zeros(k));
    ValueOfZeros(k);
  }

  lemma Pow10Product(m: nat, n: nat)
    requires m + n == 18
    ensures Pow10(n) * Pow10(m) == ONE
  {
    Pow10Of18();
    Pow10Sum(m, n);
    MulCommutes(Pow10(m), Pow10(n));
  }

  lemma ScaleUp(v: nat, a: nat, b: nat)
    requires a * b == ONE && b > 0
    ensures v * ONE / b == v * a
  {
    assert v * (a * b) == v * a * b;
    ExactQuotient(v * a, b);
  }

  lemma CutFraction(f: string)
    requires AllDigits(f) && |f| > FRACTION_DIGITS
    ensures Value(f[..FRACTION_DIGITS]) == Value(f) * ONE / Pow10(|f|)
  {
    var (a, b) := (f[..FRACTION_DIGITS], f[FRACTION_DIGITS..]);
    assert a + b == f;
    ValueConcat(a, b);
    ValueBound(b);
    Pow10Of18();
    Pow10Sum(FRACTION_DIGITS, |b|);
    hide Value, Pow10;
    ScaledQuotient(Value(a), Value(b), Pow10(|b|));
  }

  function CheckedSum(whole: int, frac: int): Option<I128> {
    var scaled :- CheckedI(whole * ONE);
    CheckedI(scaled + frac)
  }

  lemma {:induction false} Pow10Sum(m: nat, n: nat)
    ensures Pow10(m + n) == Pow10(m) * Pow10(n)
  {
    if m == 0 {
    } else {
      Pow10Sum(m - 1, n);
    }
  }

  lemma ExactQuotient(q: nat, d: nat)
    requires d > 0
    ensures q * d / d == q
  {
    QuotientUnique(q * d, d, q);
  }

  lemma ScaledQuotient(a: nat, b: nat, d: nat)
    requires b < d
    ensures (a * d + b) * ONE / (ONE * d) == a
  {
    assert a * (ONE * d) == a * d * ONE;
    assert b * ONE < d * ONE;
    QuotientUnique((a * d + b) * ONE, ONE * d, a);
  }

  // ---- the printed form ----

  lemma {:induction false} StrippedEnd(s: string)
    ensures StripZeros(s) == "" || StripZeros(s)[|StripZeros(s)| - 1] != '0'
  {
    if s == "" {
    } else if s[|s| - 1] == '0' {
      StrippedEnd(s[..|s| - 1]);
    }
  }

  lemma {:induction false} NoLeadingZero(n: nat)
    ensures if n == 0 then Digits(n) == "0" else Digits(n)[0] != '0'
  {
    if n < 10 {
    } else {
      NoLeadingZero(n / 10);
      assert Digits(n) == Digits(n / 10) + [DigitChar(n % 10)];
    }
  }

  /** Up to 18 digits, of which the last is not a zero. */
  predicate ShortFraction(f: string) {
    1 <= |f| <= FRACTION_DIGITS && AllDigits(f) && f[|f| - 1] != '0'
  }

  /**
    The printed form is the shortest: a whole value has no point; any other has up to 18 digits behind it,
    of which the last is not a zero; and no zero leads the whole part unless it is the whole part.
  */
  lemma PrintedForm(value: I128)
    ensures var (k, n) := (Abs(value) / ONE, Abs(value) % ONE);
            var sign := if value < 0 then "-" else "";
            && (n == 0 ==> DecimalString(value) == sign + Digits(k))
            && (n != 0 ==> exists f :: ShortFraction(f) && DecimalString(value) == sign + Digits(k) + "." + f)
            && (if k == 0 then Digits(k) == "0" else Digits(k)[0] != '0')
  {
    var (k, n) := (Abs(value) / ONE, Abs(value) % ONE);
    hide StripZeros, PadLeft, Digits, AllDigits;
    NoLeadingZero(k);
    if n != 0 {
      FractionForm(n);
      var f := StripZeros(PadLeft(Digits(n), FRACTION_DIGITS));
      assert DecimalString(value) == (if value < 0 then "-" else "") + Digits(k) + "." + f;
    }
    hide ShortFraction, DecimalString;
  }

  lemma FractionForm(n: nat)
    requires 0 < n < ONE
    ensures var f := StripZeros(PadLeft(Digits(n), FRACTION_DIGITS));
            ShortFraction(f)
  {
    var p := PadLeft(Digits(n), FRACTION_DIGITS);
    PadLeftValue(n);
    StripThenPad(p);
    StrippedEnd(p);
    ValueOfZeros(FRACTION_DIGITS);
    assert StripZeros(p) == "" ==> p == Zeros(FRACTION_DIGITS);
  }

  // ---- what is read as a number ----

  /** The text is the digits, perhaps behind a sign, and the value is theirs with that sign. */
  ghost predicate Reads(s: string, d: string, v: int) {
    && d != "" && AllDigits(d)
    && if s == "-" + d then v + Value(d) == 0 else (s == d || s == "+" + d) && v == Value(d)
  }

  /** A number is an optional sign and at least one digit, and must fit; nothing else is one. */
  lemma ParseI128Iff(s: string, v: I128)
    ensures ParseI128(s) == Some(v) <==> exists d :: Reads(s, d, v)
  {
    if ParseI128(s) == Some(v) {
      var signed := s[0] == '+' || s[0] == '-';
      var d := if signed then s[1..] else s;
      assert s == (if signed then [s[0]] else "") + d;
      assert Reads(s, d, v);
    }
    if exists d :: Reads(s, d, v) {
      var d :| Reads(s, d, v);
      assert ("+" + d)[1..] == d && ("-" + d)[1..] == d;
      assert IsDigit(d[0]);
    }
  }

  lemma {:induction false} SplitFirst(a: string, t: string, c: char)
    requires c !in a
    ensures Split(a + [c] + t, c) == [a] + Split(t, c)
  {
    var s := a + [c] + t;
    if a == "" {
      assert s[1..] == t;
    } else {
      assert s[1..] == a[1..] + [c] + t;
      SplitFirst(a[1..], t, c);
      assert [a[0]] + a[1..] == a;
    }
  }

  /** What follows a second point is not looked at. */
  lemma SecondPointEnds(a: string, f: string, rest: string)
    requires '.' !in a && '.' !in f
    ensures StrToX18(a + "." + f + "." + rest) == StrToX18(a + "." + f)
  {
    hide ParseI128, FractionField;
    assert a + "." + f + "." + rest == a + "." + (f + "." + rest);
    SplitFirst(a, f + "." + rest, '.');
    SplitFirst(f, rest, '.');
    SplitOnce(a, f, '.');
  }
}
