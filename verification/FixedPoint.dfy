/** Decimal text, scaled integers and half-up money rounding, as the cost ledger and the
    operations console do them. */
module FixedPoint {

  import opened Wrappers

  function Pow10(n: nat): (p: nat)
    ensures p > 0
  {
    if n == 0 then 1 else 10 * Pow10(n - 1)
  }

  lemma {:induction false} Pow10Sum(a: nat, b: nat)
    ensures Pow10(a + b) == Pow10(a) * Pow10(b)
  {
    if a == 0 {
      assert Pow10(0) == 1;
    } else {
      Pow10Sum(a - 1, b);
      MulAssoc(10, Pow10(a - 1), Pow10(b));
    }
  }

  lemma {:induction false} Pow10Monotone(a: nat, b: nat)
    requires a <= b
    ensures Pow10(a) <= Pow10(b)
  {
    if a < b {
      Pow10Monotone(a, b - 1);
    }
  }

  lemma MulAssoc(x: int, y: int, z: int)
    ensures (x * y) * z == x * (y * z)
  {
  }

  lemma MulMonotone(x: nat, y: nat, z: nat)
    requires x <= y
    ensures x * z <= y * z
  {
  }

  // ---------------------------------------------------------------- digits

  predicate IsDigit(c: char) {
    '0' <= c <= '9'
  }

  predicate AllDigits(s: string) {
    forall i :: 0 <= i < |s| ==> IsDigit(s[i])
  }

  function DigitValue(c: char): (d: nat)
    requires IsDigit(c)
    ensures d <= 9
  {
    c as int - '0' as int
  }

  function DigitChar(d: nat): (c: char)
    requires d <= 9
    ensures IsDigit(c) && DigitValue(c) == d
  {
    ('0' as int + d) as char
  }

  /** The number a run of digits writes; the empty run writes zero. */
  function ValueOf(s: string): nat
    requires AllDigits(s)
  {
    if s == "" then 0 else 10 * ValueOf(s[..|s| - 1]) + DigitValue(s[|s| - 1])
  }

  function Zeros(n: nat): (s: string)
    ensures |s| == n && AllDigits(s)
  {
    seq(n, _ => '0')
  }

  lemma {:induction false} ValueOfConcat(a: string, b: string)
    requires AllDigits(a) && AllDigits(b)
    ensures AllDigits(a + b)
    ensures ValueOf(a + b) == ValueOf(a) * Pow10(|b|) + ValueOf(b)
  {
    if b == "" {
      assert a + b == a;
    } else {
      var b' := b[..|b| - 1];
      ValueOfConcat(a, b');
      assert (a + b)[..|a + b| - 1] == a + b';
      var unit := Pow10(|b'|);
      assert Pow10(|b|) == 10 * unit;
      hide Pow10, AllDigits;
      assert ValueOf(a) * (10 * unit) == 10 * (ValueOf(a) * unit) by {
        MulAssoc(10, ValueOf(a), unit);
      }
    }
  }

  lemma {:induction false} ValueOfZeros(n: nat)
    ensures ValueOf(Zeros(n)) == 0
  {
    if n > 0 {
      ValueOfZeros(n - 1);
      assert Zeros(n)[..n - 1] == Zeros(n - 1);
    }
  }

  lemma {:induction false} ValueOfBelow(s: string)
    requires AllDigits(s)
    ensures ValueOf(s) < Pow10(|s|)
  {
    if s != "" {
      ValueOfBelow(s[..|s| - 1]);
    }
  }

  lemma {:induction false} ValueOfLeadingDigit(s: string)
    requires s != "" && AllDigits(s) && s[0] != '0'
    ensures ValueOf(s) >= Pow10(|s| - 1)
  {
    if |s| > 1 {
      ValueOfLeadingDigit(s[..|s| - 1]);
    }
  }

  /** Drops leading zeros but always leaves one digit. */
  function StripLeadingZeros(s: string): (r: string)
    requires s != "" && AllDigits(s)
    ensures r != "" && AllDigits(r) && ValueOf(r) == ValueOf(s)
    ensures |r| == 1 || r[0] != '0'
  {
    if |s| > 1 && s[0] == '0' then
      LeadingZeroIsWorthless(s);
      StripLeadingZeros(s[1..])
    else s
  }

  lemma LeadingZeroIsWorthless(s: string)
    requires s != "" && AllDigits(s) && s[0] == '0'
    ensures ValueOf(s[1..]) == ValueOf(s)
  {
    assert s == "0" + s[1..];
    ValueOfConcat("0", s[1..]);
    assert ValueOf("0") == 0;
  }

  /** A stripped run is at most `n` digits long exactly when its value is below 10^n. */
  lemma StrippedLength(s: string, n: nat)
    requires s != "" && AllDigits(s) && (|s| == 1 || s[0] != '0') && n >= 1
    ensures |s| <= n <==> ValueOf(s) < Pow10(n)
  {
    ValueOfBelow(s);
    if |s| <= n {
      Pow10Monotone(|s|, n);
    } else {
      ValueOfLeadingDigit(s);
      Pow10Monotone(n, |s| - 1);
    }
  }

  // ---------------------------------------------------------------- reading decimal text

  /** The three groups of the decimal pattern: digits, optional fraction digits, optional exponent. */
  datatype Decimal = Decimal(integral: string, fractional: string, exponent: int)

  predicate ValidDecimal(d: Decimal) {
    d.integral != "" && AllDigits(d.integral) && AllDigits(d.fractional)
  }

  /** The end of the run of digits starting at `i`. */
  function DigitRun(s: string, i: nat): (j: nat)
    requires i <= |s|
    ensures i <= j <= |s| && AllDigits(s[i..j])
    ensures j < |s| ==> !IsDigit(s[j])
    decreases |s| - i
  {
    if i < |s| && IsDigit(s[i]) then
      var j := DigitRun(s, i + 1);
      assert s[i..j] == [s[i]] + s[i + 1..j];
      j
    else i
  }

  /** The meaning of whatever follows the digits: nothing, or a signed exponent. */
  function ExponentOf(suffix: string): Option<int> {
    if suffix == "" then Some(0)
    else if suffix[0] != 'e' && suffix[0] != 'E' then None
    else
      var signed := |suffix| > 1 && (suffix[1] == '+' || suffix[1] == '-');
      var digits := if signed then suffix[2..] else suffix[1..];
      if digits == "" || !AllDigits(digits) then None
      else
        var magnitude: int := ValueOf(digits);
        Some(if signed && suffix[1] == '-' then -magnitude else magnitude)
  }

  function Lex(s: string): (r: Option<Decimal>)
    ensures r.Some? ==> ValidDecimal(r.value)
  {
    var i := DigitRun(s, 0);
    if i == 0 then None
    else
      var j := if i + 1 < |s| && s[i] == '.' && DigitRun(s, i + 1) > i + 1 then DigitRun(s, i + 1) else i;
      var fractional := if j > i then s[i + 1..j] else "";
      var exponent := ExponentOf(s[j..]);
      if exponent.None? then None else Some(Decimal(s[..i], fractional, exponent.value))
  }

  /** The digits of a decimal as they are written before any exponent. */
  function Body(d: Decimal): string {
    if d.fractional == "" then d.integral else d.integral + "." + d.fractional
  }

  /** `s` writes `d`: its digits, then an exponent (or nothing) that means `d.exponent`. */
  ghost predicate Spells(s: string, d: Decimal) {
    ValidDecimal(d) && exists suffix :: SpelledWith(s, d, suffix)
  }

  ghost predicate SpelledWith(s: string, d: Decimal, suffix: string) {
    s == Body(d) + suffix && ExponentOf(suffix) == Some(d.exponent)
  }

  /** Lexing accepts exactly the texts of the decimal pattern and returns the decimal they spell. */
  lemma LexIsSpelling(s: string, d: Decimal)
    ensures Lex(s) == Some(d) <==> Spells(s, d)
  {
    if Lex(s) == Some(d) {
      LexIsSound(s);
    }
    if Spells(s, d) {
      var suffix :| SpelledWith(s, d, suffix);
      LexIsComplete(d, suffix);
    }
  }

  lemma LexIsSound(s: string)
    requires Lex(s).Some?
    ensures Spells(s, Lex(s).value)
  {
    var i := DigitRun(s, 0);
    var j := if i + 1 < |s| && s[i] == '.' && DigitRun(s, i + 1) > i + 1 then DigitRun(s, i + 1) else i;
    var d := Lex(s).value;
    BodyThenSuffix(s, i, j, d);
    hide ValueOf, DigitRun, ExponentOf, Body;
    assert SpelledWith(s, d, s[j..]);
  }

  lemma BodyThenSuffix(s: string, i: nat, j: nat, d: Decimal)
    requires i <= j <= |s| && d.integral == s[..i]
    requires if j == i then d.fractional == "" else j > i + 1 && s[i] == '.' && d.fractional == s[i + 1..j]
    ensures s == Body(d) + s[j..]
  {
  }

  lemma LexIsComplete(d: Decimal, suffix: string)
    requires ValidDecimal(d) && ExponentOf(suffix) == Some(d.exponent)
    ensures Lex(Body(d) + suffix) == Some(d)
  {
    hide ValueOf;
    var s := Body(d) + suffix;
    var i := |d.integral|;
    assert s[0..i] == d.integral;
    DigitRunEnds(s, 0, i);
    if d.fractional == "" {
      assert s[i..] == suffix;
    } else {
      var j := i + 1 + |d.fractional|;
      assert s[i + 1..j] == d.fractional && s[j..] == suffix;
      DigitRunEnds(s, i + 1, j);
    }
  }

  const MAX_EXPONENT := 30

  /** Splits the digits at the decimal point the exponent asks for. */
  function Place(d: Decimal): (r: (string, string))
    requires ValidDecimal(d)
    ensures r.0 != "" && AllDigits(r.0) && AllDigits(r.1)
  {
    var digits := d.integral + d.fractional;
    var point := |d.integral| + d.exponent;
    if point <= 0 then ("0", Zeros(-point) + digits)
    else if point >= |digits| then (digits + Zeros(point - |digits|), "")
    else (digits[..point], digits[point..])
  }

  function Combine(whole: nat, unit: nat, rest: nat): (r: nat)
    ensures r == whole * unit + rest
  {
    whole * unit + rest
  }

  function PadEnd(s: string, width: nat): (r: string)
    requires AllDigits(s) && |s| <= width
    ensures AllDigits(r) && |r| == width && r == s + Zeros(width - |s|)
  {
    s + Zeros(width - |s|)
  }

  function ScaleDecimal(d: Decimal, scale: nat, maximumIntegerDigits: nat): Option<nat>
    requires ValidDecimal(d)
  {
    if d.exponent < -MAX_EXPONENT || d.exponent > MAX_EXPONENT then None
    else
      var (placed, fractional) := Place(d);
      var integral := StripLeadingZeros(placed);
      if |integral| > maximumIntegerDigits || |fractional| > scale then None
      else
        var scaled := Combine(ValueOf(integral), Pow10(scale), ValueOf(PadEnd(fractional, scale)));
        if scaled >= Pow10(maximumIntegerDigits + scale) then None else Some(scaled)
  }

  /** Reads decimal text, exponent forms included, as an integer count of 10^-scale units. */
  function ParseScaledText(s: string, scale: nat, maximumIntegerDigits: nat): Option<nat> {
    var d := Lex(s);
    if d.None? then None else ScaleDecimal(d.value, scale, maximumIntegerDigits)
  }

  /** The fraction digits left once the exponent has moved the point. */
  function FractionDigits(d: Decimal): int {
    |d.fractional| - d.exponent
  }

  function Digits(d: Decimal): nat
    requires ValidDecimal(d)
  {
    ValueOf(d.integral + d.fractional)
  }

  lemma TrailingZeros(digits: string, n: nat)
    requires AllDigits(digits)
    ensures AllDigits(digits + Zeros(n)) && ValueOf(digits + Zeros(n)) == ValueOf(digits) * Pow10(n)
  {
    ValueOfConcat(digits, Zeros(n));
    ValueOfZeros(n);
  }

  lemma LeadingZeros(n: nat, digits: string)
    requires AllDigits(digits)
    ensures AllDigits(Zeros(n) + digits) && ValueOf(Zeros(n) + digits) == ValueOf(digits)
  {
    ValueOfConcat(Zeros(n), digits);
    ValueOfZeros(n);
  }

  lemma SplitDigits(digits: string, point: nat)
    requires AllDigits(digits) && point <= |digits|
    ensures ValueOf(digits[..point]) * Pow10(|digits| - point) + ValueOf(digits[point..]) == ValueOf(digits)
  {
    assert digits == digits[..point] + digits[point..];
    ValueOfConcat(digits[..point], digits[point..]);
  }

  /** Moving the point neither loses nor invents digits. */
  lemma PlaceIsExact(d: Decimal)
    requires ValidDecimal(d)
    ensures |Place(d).1| == if FractionDigits(d) > 0 then FractionDigits(d) else 0
    ensures ValueOf(Place(d).0) * Pow10(|Place(d).1|) + ValueOf(Place(d).1)
            == Digits(d) * Pow10(if FractionDigits(d) > 0 then 0 else -FractionDigits(d))
  {
    hide Pow10, ValueOf, Zeros;
    var digits := d.integral + d.fractional;
    var point := |d.integral| + d.exponent;
    assert Pow10(0) == 1 && ValueOf("") == 0 && ValueOf("0") == 0 by { SmallValues(); }
    if point <= 0 {
      LeadingZeros(-point, digits);
    } else if point >= |digits| {
      TrailingZeros(digits, point - |digits|);
    } else {
      SplitDigits(digits, point);
    }
  }

  lemma SmallValues()
    ensures Pow10(0) == 1 && ValueOf("") == 0 && ValueOf("0") == 0
  {
  }

  lemma QuotientBound(x: nat, remainder: nat, unit: nat, limit: nat)
    requires remainder < unit
    ensures x * unit + remainder < limit * unit <==> x < limit
  {
    if x < limit {
      MulMonotone(x + 1, limit, unit);
    } else {
      MulMonotone(limit, x, unit);
    }
  }

  /** What padding the fraction out to the full scale is worth. */
  lemma ScaledValue(whole: nat, fractional: string, scale: nat)
    requires AllDigits(fractional) && |fractional| <= scale
    ensures var rest := scale - |fractional|;
            && AllDigits(fractional + Zeros(rest))
            && ValueOf(fractional + Zeros(rest)) < Pow10(scale)
            && whole * Pow10(scale) + ValueOf(fractional + Zeros(rest))
               == (whole * Pow10(|fractional|) + ValueOf(fractional)) * Pow10(rest)
  {
    hide Pow10, ValueOf, Zeros;
    var rest := scale - |fractional|;
    TrailingZeros(fractional, rest);
    ValueOfBelow(fractional + Zeros(rest));
    assert |fractional + Zeros(rest)| == scale;
    Pow10Sum(|fractional|, rest);
    MulAssoc(whole, Pow10(|fractional|), Pow10(rest));
  }

  /** Exactly which decimals are accepted, and that an accepted one is read without rounding:
      the result is the written value times 10^scale. */
  lemma ScaleDecimalIsExact(d: Decimal, scale: nat, maximumIntegerDigits: nat)
    requires ValidDecimal(d) && maximumIntegerDigits >= 1
    ensures var r := ScaleDecimal(d, scale, maximumIntegerDigits);
            && (r.Some? <==>
                  && -MAX_EXPONENT <= d.exponent <= MAX_EXPONENT
                  && FractionDigits(d) <= scale
                  && Digits(d) * Pow10(scale - FractionDigits(d)) < Pow10(maximumIntegerDigits + scale))
            && (r.Some? ==> r.value == Digits(d) * Pow10(scale - FractionDigits(d)))
  {
    hide Pow10, ValueOf, Zeros, Place, Digits;
    var (placed, fractional) := Place(d);
    var integral := StripLeadingZeros(placed);
    PlaceIsExact(d);
    if FractionDigits(d) <= scale {
      var rest := scale - |fractional|;
      var shift := if FractionDigits(d) > 0 then 0 else -FractionDigits(d);
      ScaledValue(ValueOf(integral), fractional, scale);
      Pow10Sum(shift, rest);
      MulAssoc(Digits(d), Pow10(shift), Pow10(rest));
      assert shift + rest == scale - FractionDigits(d);
      StrippedLength(integral, maximumIntegerDigits);
      Pow10Sum(maximumIntegerDigits, scale);
      QuotientBound(ValueOf(integral), ValueOf(fractional + Zeros(rest)), Pow10(scale), Pow10(maximumIntegerDigits));
    }
  }

  /** Text level: what spells a decimal is read as exactly that decimal times 10^scale, or refused. */
  lemma ParseIsExact(s: string, d: Decimal, scale: nat, maximumIntegerDigits: nat)
    requires Spells(s, d) && maximumIntegerDigits >= 1
    ensures var r := ParseScaledText(s, scale, maximumIntegerDigits);
            && (r.Some? <==>
                  && -MAX_EXPONENT <= d.exponent <= MAX_EXPONENT
                  && FractionDigits(d) <= scale
                  && Digits(d) * Pow10(scale - FractionDigits(d)) < Pow10(maximumIntegerDigits + scale))
            && (r.Some? ==> r.value == Digits(d) * Pow10(scale - FractionDigits(d)))
  {
    hide Pow10, ValueOf, ScaleDecimal, Lex, Digits;
    LexIsSpelling(s, d);
    ScaleDecimalIsExact(d, scale, maximumIntegerDigits);
  }

  // ---------------------------------------------------------------- writing decimal text

  function ToDecimal(n: nat): (s: string)
    ensures s != "" && AllDigits(s) && ValueOf(s) == n
    ensures |s| == 1 || s[0] != '0'
  {
    if n < 10 then [DigitChar(n)]
    else
      var init := ToDecimal(n / 10);
      assert (init + [DigitChar(n % 10)])[..|init|] == init;
      init + [DigitChar(n % 10)]
  }

  function PadStart(s: string, width: nat): (r: string)
    requires AllDigits(s)
    ensures AllDigits(r) && ValueOf(r) == ValueOf(s)
    ensures |r| == if |s| < width then width else |s|
  {
    if |s| < width then
      LeadingZeros(width - |s|, s);
      Zeros(width - |s|) + s
    else s
  }

  function StripTrailingZeros(s: string): (r: string)
    requires AllDigits(s)
    ensures AllDigits(r) && |r| <= |s| && ValueOf(r) * Pow10(|s| - |r|) == ValueOf(s)
    ensures ValueOf(s) == 0 ==> r == ""
  {
    if s != "" && s[|s| - 1] == '0' then
      var r := StripTrailingZeros(s[..|s| - 1]);
      MulByTen(ValueOf(r), |s| - 1 - |r|);
      r
    else
      s
  }

  lemma MulByTen(x: nat, n: nat)
    ensures x * Pow10(n + 1) == 10 * (x * Pow10(n))
  {
    assert Pow10(n + 1) == 10 * Pow10(n);
  }

  function Quotient(value: nat, unit: nat): (q: nat)
    requires unit > 0
    ensures q == value / unit
  {
    assert value / unit >= 0;
    value / unit
  }

  /** The two digit runs that the ledger prints around the decimal point. */
  function WholePart(value: nat, scale: nat): (s: string)
    ensures s != "" && AllDigits(s) && ValueOf(s) == value / Pow10(scale)
    ensures |s| == 1 || s[0] != '0'
  {
    var quotient: nat := Quotient(value, Pow10(scale));
    ToDecimal(quotient)
  }

  function FractionPart(value: nat, scale: nat): (s: string)
    ensures AllDigits(s) && |s| <= scale
    ensures ValueOf(s) * Pow10(scale - |s|) == value % Pow10(scale)
  {
    var remainder := value % Pow10(scale);
    ShortEnough(remainder, scale);
    var padded := PadStart(ToDecimal(remainder), scale);
    assert scale == 0 ==> remainder == 0;
    StripTrailingZeros(padded)
  }

  lemma ShortEnough(n: nat, width: nat)
    requires n < Pow10(width)
    ensures width > 0 ==> |ToDecimal(n)| <= width
  {
    if width > 0 {
      StrippedLength(ToDecimal(n), width);
    }
  }

  function FormatScaled(value: nat, scale: nat): string {
    var fraction := FractionPart(value, scale);
    if fraction == "" then WholePart(value, scale) else WholePart(value, scale) + "." + fraction
  }

  lemma {:induction false} DigitRunEnds(s: string, i: nat, j: nat)
    requires i <= j <= |s| && AllDigits(s[i..j])
    requires j < |s| ==> !IsDigit(s[j])
    ensures DigitRun(s, i) == j
    decreases j - i
  {
    if i < j {
      assert s[i] == s[i..j][0];
      assert s[i + 1..j] == s[i..j][1..];
      DigitRunEnds(s, i + 1, j);
    }
  }

  lemma DivMod(value: nat, unit: nat)
    requires unit > 0
    ensures value / unit * unit + value % unit == value
  {
  }

  /** The digits of formatted text, rescaled, are the formatted value. */
  lemma FormattedDigits(value: nat, scale: nat)
    ensures var d := Decimal(WholePart(value, scale), FractionPart(value, scale), 0);
            ValidDecimal(d) && FractionDigits(d) <= scale && Digits(d) * Pow10(scale - FractionDigits(d)) == value
  {
    hide Pow10, ValueOf, ToDecimal, WholePart, FractionPart;
    var whole, fraction := WholePart(value, scale), FractionPart(value, scale);
    var rest := scale - |fraction|;
    ValueOfConcat(whole, fraction);
    Pow10Sum(|fraction|, rest);
    MulAssoc(ValueOf(whole), Pow10(|fraction|), Pow10(rest));
    DivMod(value, Pow10(scale));
    calc {
      ValueOf(whole + fraction) * Pow10(rest);
      (ValueOf(whole) * Pow10(|fraction|) + ValueOf(fraction)) * Pow10(rest);
      ValueOf(whole) * Pow10(scale) + ValueOf(fraction) * Pow10(rest);
      value;
    }
  }

  /** Reading inverts writing on every value that fits the column. */
  lemma ParseInvertsFormat(value: nat, scale: nat, maximumIntegerDigits: nat)
    requires maximumIntegerDigits >= 1 && value < Pow10(maximumIntegerDigits + scale)
    ensures ParseScaledText(FormatScaled(value, scale), scale, maximumIntegerDigits) == Some(value)
  {
    hide Pow10, ValueOf, WholePart, FractionPart, ScaleDecimal, Lex, Digits;
    var whole, fraction := WholePart(value, scale), FractionPart(value, scale);
    var d := Decimal(whole, fraction, 0);
    assert Body(d) + "" == Body(d);
    LexIsComplete(d, "");
    FormattedDigits(value, scale);
    ScaleDecimalIsExact(d, scale, maximumIntegerDigits);
  }

  // ---------------------------------------------------------------- the operations console

  const CONSOLE_SCALE := 8
  const CONSOLE_INTEGER_DIGITS := 12

  /** Whole and fraction digits of text matching the console's ledger pattern. */
  function LedgerDecimal(s: string): (r: Option<(string, string)>)
    ensures r.Some? ==> AllDigits(r.value.0) && AllDigits(r.value.1) && |r.value.1| <= CONSOLE_SCALE
  {
    var i := DigitRun(s, 0);
    if i == 0 || i > CONSOLE_INTEGER_DIGITS || (i > 1 && s[0] == '0') then None
    else if i == |s| then Some((s[..i], ""))
    else if s[i] != '.' || DigitRun(s, i + 1) != |s| then None
    else if |s| == i + 1 || |s| - i - 1 > CONSOLE_SCALE then None
    else Some((s[..i], s[i + 1..]))
  }

  function NormalizeFixedEight(s: string): Option<string> {
    var r := LedgerDecimal(s);
    if r.None? then None
    else Some(r.value.0 + "." + PadEnd(r.value.1, CONSOLE_SCALE))
  }

  function DecimalToScaled(s: string): Option<nat> {
    var r := LedgerDecimal(s);
    if r.None? || |r.value.1| != CONSOLE_SCALE then None else Some(ValueOf(r.value.0 + r.value.1))
  }

  /** The console's own formatter: always eight fraction digits, at most twelve whole ones. */
  function FormatFixedEight(value: nat): Option<string> {
    var digits := PadStart(ToDecimal(value), CONSOLE_SCALE + 1);
    var point := |digits| - CONSOLE_SCALE;
    if point > CONSOLE_INTEGER_DIGITS then None
    else Some(digits[..point] + "." + digits[point..])
  }

  lemma LedgerDecimalPlain(whole: string, fraction: string)
    requires whole != "" && AllDigits(whole) && AllDigits(fraction)
    requires |whole| <= CONSOLE_INTEGER_DIGITS && (|whole| == 1 || whole[0] != '0') && |fraction| <= CONSOLE_SCALE
    ensures LedgerDecimal(if fraction == "" then whole else whole + "." + fraction) == Some((whole, fraction))
  {
    if fraction == "" {
      assert whole[0..|whole|] == whole;
      DigitRunEnds(whole, 0, |whole|);
    } else {
      var s := whole + "." + fraction;
      var i := |whole|;
      assert s[0..i] == whole && s[i] == '.' && s[i + 1..|s|] == fraction;
      DigitRunEnds(s, 0, i);
      DigitRunEnds(s, i + 1, |s|);
    }
  }

  /** The console recovers the ledger's integer from the ledger's text, for every value that has at
      most twelve whole digits, and refuses the text of every larger value. */
  lemma ConsoleReadsTheLedger(value: nat)
    ensures value < Pow10(CONSOLE_INTEGER_DIGITS + CONSOLE_SCALE) ==>
              var fixed := NormalizeFixedEight(FormatScaled(value, CONSOLE_SCALE));
              fixed.Some? && DecimalToScaled(fixed.value) == Some(value)
    ensures value >= Pow10(CONSOLE_INTEGER_DIGITS + CONSOLE_SCALE) ==>
              NormalizeFixedEight(FormatScaled(value, CONSOLE_SCALE)).None?
  {
    hide Pow10, ValueOf, WholePart, FractionPart, LedgerDecimal;
    var whole, fraction := WholePart(value, CONSOLE_SCALE), FractionPart(value, CONSOLE_SCALE);
    FormattedDigits(value, CONSOLE_SCALE);
    DivMod(value, Pow10(CONSOLE_SCALE));
    Pow10Sum(CONSOLE_INTEGER_DIGITS, CONSOLE_SCALE);
    QuotientBound(ValueOf(whole), value % Pow10(CONSOLE_SCALE), Pow10(CONSOLE_SCALE), Pow10(CONSOLE_INTEGER_DIGITS));
    StrippedLength(whole, CONSOLE_INTEGER_DIGITS);
    if |whole| <= CONSOLE_INTEGER_DIGITS {
      var rest := CONSOLE_SCALE - |fraction|;
      LedgerDecimalPlain(whole, fraction);
      LedgerDecimalPlain(whole, fraction + Zeros(rest));
      TrailingZeros(whole + fraction, rest);
      assert whole + (fraction + Zeros(rest)) == whole + fraction + Zeros(rest);
    } else {
      LongWholeRefused(whole, fraction);
    }
  }

  lemma LongWholeRefused(whole: string, fraction: string)
    requires AllDigits(whole) && AllDigits(fraction) && |whole| > CONSOLE_INTEGER_DIGITS
    ensures LedgerDecimal(if fraction == "" then whole else whole + "." + fraction).None?
  {
    var s := if fraction == "" then whole else whole + "." + fraction;
    assert s[0..|whole|] == whole;
    DigitRunEnds(s, 0, |whole|);
  }

  /** What the console prints, the console reads back; it prints every value of at most twelve whole digits. */
  lemma ConsoleFormatRoundTrip(value: nat)
    ensures FormatFixedEight(value).Some? <==> value < Pow10(CONSOLE_INTEGER_DIGITS + CONSOLE_SCALE)
    ensures FormatFixedEight(value).Some? ==> DecimalToScaled(FormatFixedEight(value).value) == Some(value)
  {
    hide Pow10, ValueOf, ToDecimal, LedgerDecimal, DigitRun;
    var text := ToDecimal(value);
    var digits := PadStart(text, CONSOLE_SCALE + 1);
    var point := |digits| - CONSOLE_SCALE;
    StrippedLength(text, CONSOLE_INTEGER_DIGITS + CONSOLE_SCALE);
    if point <= CONSOLE_INTEGER_DIGITS {
      assert digits == digits[..point] + digits[point..];
      assert |text| > CONSOLE_SCALE ==> digits == text;
      LedgerDecimalPlain(digits[..point], digits[point..]);
    }
  }

  // ---------------------------------------------------------------- money rounding

  const UNIT_COST_SCALE := 10
  const USD_SCALE := 8
  const MAX_USD_INTEGER_DIGITS := 12

  /** Quantity times unit cost in 10^-8 USD, half a unit or more rounded up. */
  function RoundedAmount(quantity: nat, unitCost: nat): nat {
    (quantity * unitCost + Pow10(UNIT_COST_SCALE) / 2) / Pow10(UNIT_COST_SCALE)
  }

  function UsdAmount(quantity: nat, unitCost: nat): Option<nat> {
    var amount := RoundedAmount(quantity, unitCost);
    if amount > Pow10(MAX_USD_INTEGER_DIGITS + USD_SCALE) - 1 then None else Some(amount)
  }

  lemma HalfUp(product: nat, unit: int)
    requires unit > 0 && unit % 2 == 0
    ensures -unit <= 2 * (product - (product + unit / 2) / unit * unit) < unit
  {
    DivMod(product + unit / 2, unit);
  }

  lemma {:induction false} Pow10Even(n: nat)
    requires n > 0
    ensures Pow10(n) % 2 == 0
  {
    assert Pow10(n) == 2 * (5 * Pow10(n - 1));
  }

  lemma NearestIsUnique(product: int, a: int, b: int, unit: int)
    requires unit > 0
    requires -unit <= 2 * (product - a * unit) < unit
    requires -unit <= 2 * (product - b * unit) < unit
    ensures a == b
  {
    if a < b {
      MulMonotoneInt(a + 1, b, unit);
    } else if b < a {
      MulMonotoneInt(b + 1, a, unit);
    }
  }

  lemma MulMonotoneInt(x: int, y: int, z: int)
    requires x <= y && z >= 0
    ensures x * z <= y * z
  {
  }

  /** The amount is the one integer within half a unit of the exact product, ties going up. */
  lemma AmountIsNearest(quantity: nat, unitCost: nat, amount: int)
    ensures amount == RoundedAmount(quantity, unitCost) <==>
            var unit := Pow10(UNIT_COST_SCALE);
            0 <= 2 * (quantity * unitCost - amount * unit) + unit < 2 * unit
  {
    hide Pow10;
    var unit: int := Pow10(UNIT_COST_SCALE);
    Pow10Even(UNIT_COST_SCALE);
    HalfUp(quantity * unitCost, unit);
    if 0 <= 2 * (quantity * unitCost - amount * unit) + unit < 2 * unit {
      NearestIsUnique(quantity * unitCost, amount, RoundedAmount(quantity, unitCost), unit);
    }
  }

  datatype Usage = Usage(quantity: nat, unitCost: nat)

  function TotalAmount(uses: seq<Usage>): nat {
    if uses == [] then 0
    else TotalAmount(uses[..|uses| - 1]) + RoundedAmount(uses[|uses| - 1].quantity, uses[|uses| - 1].unitCost)
  }

  function ExactTotal(uses: seq<Usage>): nat {
    if uses == [] then 0
    else ExactTotal(uses[..|uses| - 1]) + uses[|uses| - 1].quantity * uses[|uses| - 1].unitCost
  }

  /** Rounding `n` events separately is off by at most `n` half units in total. */
  lemma {:induction false} TotalRoundingError(uses: seq<Usage>)
    ensures var error := 2 * (ExactTotal(uses) - TotalAmount(uses) * Pow10(UNIT_COST_SCALE));
            -error <= |uses| * Pow10(UNIT_COST_SCALE) && error <= |uses| * Pow10(UNIT_COST_SCALE)
  {
    hide Pow10, RoundedAmount;
    if uses != [] {
      var init, last := uses[..|uses| - 1], uses[|uses| - 1];
      var unit := Pow10(UNIT_COST_SCALE);
      TotalRoundingError(init);
      AmountIsNearest(last.quantity, last.unitCost, RoundedAmount(last.quantity, last.unitCost));
      Distribute(TotalAmount(init), RoundedAmount(last.quantity, last.unitCost), unit);
      Distribute(|init|, 1, unit);
    }
  }

  lemma Distribute(x: int, y: int, z: int)
    ensures (x + y) * z == x * z + y * z
  {
  }
}
