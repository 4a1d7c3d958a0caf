/** Exact six-place decimal strings (src/analytics/analytics.service.ts:750-776). */
module DecimalStrings {
  import opened Wrappers
  import opened Text
  import opened Numbers

  const PAD := "000000"

  /** `raw.replace(/^[+-]/, '')`. */
  function DropSign(raw: string): string {
    if raw != "" && raw[0] in "+-" then raw[1..] else raw
  }

  function NormalizeDecimal(value: string): string {
    var trimmed := Trim(value);
    var sign := if trimmed != "" && trimmed[0] == '-' then "-" else "";
    var parts := Split(DropSign(trimmed), '.');
    var whole := if parts[0] == "" then "0" else parts[0];
    var fractional := if |parts| > 1 then parts[1] else "";
    sign + whole + "." + (fractional + PAD)[..6]
  }

  /** `s.replace('-', '')`: only the first dash goes. */
  function DropFirstDash(s: string): string {
    if s == "" then "" else if s[0] == '-' then s[1..] else [s[0]] + DropFirstDash(s[1..])
  }

  /** The base that the second character of a text like `0x1f` stands for. */
  function BaseOf(c: char): Option<nat> {
    if c == 'x' || c == 'X' then Some(16)
    else if c == 'o' || c == 'O' then Some(8)
    else if c == 'b' || c == 'B' then Some(2)
    else None
  }

  function ValueInBase(s: string, base: nat): Option<nat> {
    if s == "" then Some(0)
    else
      var last := s[|s| - 1];
      match ValueInBase(s[..|s| - 1], base)
      case Some(front) =>
        if IsHexDigit(last) && HexDigitOf(last) < base then Some(front * base + HexDigitOf(last)) else None
      case None => None
  }

  /** `BigInt(s)`; None where it throws. */
  function BigIntOf(s: string): Option<int> {
    var text := Trim(s);
    if AllDigits(text) then Some(NatOf(text))
    else if |text| > 1 && text[0] in "+-" && AllDigits(text[1..]) then
      var n: int := NatOf(text[1..]);
      Some(if text[0] == '-' then -n else n)
    else if |text| > 2 && text[0] == '0' && BaseOf(text[1]).Some? then
      match ValueInBase(text[2..], BaseOf(text[1]).value)
      case Some(n) => Some(n)
      case None => None
    else None
  }

  function DecimalToUnits(value: string): Option<int> {
    UnitsOfNormalized(NormalizeDecimal(value))
  }

  function UnitsOfNormalized(normalized: string): Option<int> {
    var sign := if normalized != "" && normalized[0] == '-' then -1 else 1;
    var parts := Split(DropFirstDash(normalized), '.');
    if |parts| < 2 then None
    else
      match (BigIntOf(parts[0]), BigIntOf(parts[1]))
      case (Some(whole), Some(fractional)) => Some(sign * (whole * 1_000_000 + fractional))
      case _ => None
  }

  function UnitsToDecimal(value: int): string {
    var sign := if value < 0 then "-" else "";
    var absolute: nat := if value < 0 then -value else value;
    sign + Digits(absolute / 1_000_000) + "." + PadStart(Digits(absolute % 1_000_000), 6)
  }

  function SubtractDecimalStrings(left: string, right: string): Option<string> {
    match (DecimalToUnits(left), DecimalToUnits(right))
    case (Some(l), Some(r)) => Some(UnitsToDecimal(l - r))
    case _ => None
  }

  /** A decimal as people write one: a sign, digits, a point and more digits, each of which may be missing. */
  datatype Decimal = Decimal(sign: string, whole: string, point: bool, fraction: string) {
    predicate Valid() {
      && (sign == "" || sign == "-" || sign == "+")
      && AllDigits(whole) && AllDigits(fraction)
      && (!point ==> fraction == "")
    }

    function Unsigned(): string {
      whole + if point then "." + fraction else ""
    }

    function Text(): string {
      sign + Unsigned()
    }

    function Signed(magnitude: int): int {
      if sign == "-" then -magnitude else magnitude
    }

    predicate Canonical() {
      Valid() && sign != "+" && NoLeadingZero(whole) && point && |fraction| == 6
    }
  }

  function FirstSix(fraction: string): string {
    (fraction + PAD)[..6]
  }

  lemma SixDigits(fraction: string)
    requires AllDigits(fraction)
    ensures |FirstSix(fraction)| == 6 && AllDigits(FirstSix(fraction))
    ensures |fraction| == 6 ==> FirstSix(fraction) == fraction
    ensures |fraction| <= 6 ==> FirstSix(fraction) == fraction + Zeros(6 - |fraction|)
    ensures |fraction| > 6 ==> fraction == FirstSix(fraction) + fraction[6..]
  {
    var six := FirstSix(fraction);
    forall i | 0 <= i < 6 ensures IsDigit(six[i]) {
      if i < |fraction| {
        assert six[i] == fraction[i];
      } else {
        assert six[i] == '0';
      }
    }
    if |fraction| <= 6 {
      var zeros := Zeros(6 - |fraction|);
      assert forall j | 0 <= j < |zeros| :: zeros[j] in zeros;
      assert six == fraction + zeros;
    }
  }

  predicate Inked(c: char) {
    IsDigit(c) || c == '.' || c == '-' || c == '+'
  }

  lemma TextIsInked(d: Decimal)
    requires d.Valid()
    ensures forall i | 0 <= i < |d.Text()| :: Inked(d.Text()[i])
  {
    var dot := if d.point then "." else "";
    assert d.Text() == d.sign + d.whole + dot + d.fraction;
  }

  lemma TextIsTrimmed(d: Decimal)
    requires d.Valid()
    ensures Trim(d.Text()) == d.Text()
  {
    TextIsInked(d);
    var text := d.Text();
    assert text != "" ==> Inked(text[0]) && Inked(text[|text| - 1]);
    NothingToTrim(text);
  }

  lemma SplitDecimal(whole: string, fraction: string)
    requires AllDigits(whole) && AllDigits(fraction)
    ensures Split(whole + "." + fraction, '.') == [whole, fraction]
    ensures Split(whole, '.') == [whole]
  {
    assert forall i | 0 <= i < |whole| :: whole[i] != '.';
    assert forall i | 0 <= i < |fraction| :: fraction[i] != '.';
    hide Split, AllDigits;
    SplitField(whole, fraction, '.');
    SplitField(fraction, "", '.');
  }

  lemma DropSignOfWritten(d: Decimal)
    requires d.Valid()
    ensures DropSign(d.Text()) == d.Unsigned()
    ensures d.Text() != "" && d.Text()[0] == '-' <==> d.sign == "-"
  {
    var unsigned := d.Unsigned();
    assert unsigned != "" ==> unsigned[0] == (if d.whole != "" then d.whole[0] else '.');
    assert d.whole != "" ==> IsDigit(d.whole[0]);
  }

  /** A missing whole part reads as zero. */
  function WholePart(d: Decimal): string {
    if d.whole == "" then "0" else d.whole
  }

  lemma WholePartIs(d: Decimal)
    requires d.Valid()
    ensures WholePart(d) != "" && AllDigits(WholePart(d)) && NatOf(WholePart(d)) == NatOf(d.whole)
  {
    assert "0"[..0] == "" && "0" == "" + "0";
    assert NatOf("0") == 0;
  }

  lemma NormalizeWritten(d: Decimal)
    requires d.Valid()
    ensures NormalizeDecimal(d.Text()) ==
      (if d.sign == "-" then "-" else "") + WholePart(d) + "." + FirstSix(d.fraction)
  {
    hide Split, Trim, DropSign, AllDigits;
    TextIsTrimmed(d);
    DropSignOfWritten(d);
    SplitDecimal(d.whole, d.fraction);
    if d.point {
      assert d.Unsigned() == d.whole + "." + d.fraction;
    } else {
      assert d.Unsigned() == d.whole;
    }
  }

  lemma {:induction false} NoDashToDrop(s: string)
    requires forall i | 0 <= i < |s| :: s[i] != '-'
    ensures DropFirstDash(s) == s
  {
    if s != "" {
      NoDashToDrop(s[1..]);
    }
  }

  lemma DigitsAreBigInt(s: string)
    requires AllDigits(s)
    ensures BigIntOf(s) == Some(NatOf(s))
  {
    assert s != "" ==> IsDigit(s[0]) && IsDigit(s[|s| - 1]);
    hide AllDigits, NatOf;
    NothingToTrim(s);
  }

  lemma DashOfNormal(sign: string, whole: string, six: string)
    requires (sign == "" || sign == "-") && whole != "" && AllDigits(whole) && AllDigits(six)
    ensures var normalized := sign + whole + "." + six;
      && normalized != "" && (normalized[0] == '-' <==> sign == "-")
      && DropFirstDash(normalized) == whole + "." + six
  {
    var body := whole + "." + six;
    NoDashToDrop(body);
    if sign == "-" {
      assert (sign + whole + "." + six)[1..] == body;
    } else {
      assert sign + whole + "." + six == body && body[0] == whole[0] && IsDigit(whole[0]);
    }
  }

  lemma UnitsOfNormal(sign: string, whole: string, six: string)
    requires (sign == "" || sign == "-") && whole != "" && AllDigits(whole) && AllDigits(six)
    ensures UnitsOfNormalized(sign + whole + "." + six) ==
      Some((if sign == "-" then -1 else 1) * (NatOf(whole) * 1_000_000 + NatOf(six)))
  {
    hide BigIntOf, DropFirstDash, Split, NatOf, AllDigits;
    DashOfNormal(sign, whole, six);
    SplitDecimal(whole, six);
    DigitsAreBigInt(whole);
    DigitsAreBigInt(six);
  }

  /** Units are read off the written digits; only the first six decimals matter. */
  lemma UnitsOfWritten(d: Decimal)
    requires d.Valid()
    ensures AllDigits(FirstSix(d.fraction))
    ensures DecimalToUnits(d.Text()) == Some(d.Signed(NatOf(d.whole) * 1_000_000 + NatOf(FirstSix(d.fraction))))
  {
    hide NormalizeDecimal, UnitsOfNormalized, FirstSix, NatOf, AllDigits;
    SixDigits(d.fraction);
    NormalizeWritten(d);
    WholePartIs(d);
    hide WholePart;
    UnitsOfNormal(if d.sign == "-" then "-" else "", WholePart(d), FirstSix(d.fraction));
  }

  /** Further decimals are cut off, never rounded: the magnitude is the floor of the written value times 10^6. */
  lemma UnitsTruncate(d: Decimal)
    requires d.Valid()
    ensures AllDigits(d.whole + d.fraction)
    ensures DecimalToUnits(d.Text()) == Some(d.Signed(NatOf(d.whole + d.fraction) * 1_000_000 / Pow10(|d.fraction|)))
  {
    hide DecimalToUnits, FirstSix, NatOf, Pow10;
    UnitsOfWritten(d);
    NatOfConcat(d.whole, d.fraction);
    FirstSixIsFloor(d.fraction);
    ShiftedFloor(NatOf(d.whole), NatOf(d.fraction), Pow10(|d.fraction|));
  }

  lemma ShiftedFloor(w: nat, f: nat, p: nat)
    requires p >= 1
    ensures (w * p + f) * 1_000_000 / p == w * 1_000_000 + f * 1_000_000 / p
  {
    var q, r := f * 1_000_000 / p, f * 1_000_000 % p;
    assert p * (w * 1_000_000 + q) == p * (w * 1_000_000) + p * q;
    QuotientIs((w * p + f) * 1_000_000, p, w * 1_000_000 + q, r);
  }

  lemma PowersToSix()
    ensures Pow10(0) == 1 && Pow10(6) == 1_000_000
  {
    assert Pow10(2) == 10 * Pow10(1);
    assert Pow10(4) == 10 * Pow10(3);
    assert Pow10(6) == 10 * Pow10(5);
  }

  lemma {:induction false} PowSum(a: nat, b: nat)
    ensures Pow10(a + b) == Pow10(a) * Pow10(b)
  {
    if a > 0 {
      PowSum(a - 1, b);
      assert Pow10(a + b) == 10 * Pow10(a - 1 + b);
      assert 10 * (Pow10(a - 1) * Pow10(b)) == (10 * Pow10(a - 1)) * Pow10(b);
    }
  }

  lemma FirstSixIsFloor(fraction: string)
    requires AllDigits(fraction)
    ensures AllDigits(FirstSix(fraction))
    ensures NatOf(FirstSix(fraction)) == NatOf(fraction) * 1_000_000 / Pow10(|fraction|)
  {
    hide NatOf, Pow10, FirstSix, AllDigits, Zeros;
    SixDigits(fraction);
    PowersToSix();
    var k := |fraction|;
    if k <= 6 {
      var zeros := Zeros(6 - k);
      NatOfZeros(6 - k);
      NatOfConcat(fraction, zeros);
      PowSum(6 - k, k);
      ExactQuotient(NatOf(fraction), Pow10(6 - k), Pow10(k));
    } else {
      var six, rest := FirstSix(fraction), fraction[6..];
      DigitsAppend(six, rest);
      NatOfConcat(six, rest);
      PowSum(6, k - 6);
      CutQuotient(NatOf(six), NatOf(rest), Pow10(k - 6));
    }
  }

  lemma ExactQuotient(n: nat, a: nat, b: nat)
    requires a * b == 1_000_000 && b >= 1
    ensures n * 1_000_000 / b == n * a
  {
    assert n * (a * b) == b * (n * a);
    QuotientIs(n * 1_000_000, b, n * a, 0);
  }

  lemma CutQuotient(n: nat, rest: nat, q: nat)
    requires rest < q
    ensures (n * q + rest) * 1_000_000 / (1_000_000 * q) == n
  {
    assert (n * q + rest) * 1_000_000 == (1_000_000 * q) * n + rest * 1_000_000;
    QuotientIs((n * q + rest) * 1_000_000, 1_000_000 * q, n, rest * 1_000_000);
  }

  /** How a count of units is written. */
  function Written(n: int): (d: Decimal) {
    var absolute: nat := if n < 0 then -n else n;
    Decimal(if n < 0 then "-" else "", Digits(absolute / 1_000_000), true, PadStart(Digits(absolute % 1_000_000), 6))
  }

  lemma WrittenDenotes(n: int)
    ensures var d := Written(n);
      && d.Canonical() && d.Text() == UnitsToDecimal(n)
      && d.Signed(NatOf(d.whole) * 1_000_000 + NatOf(d.fraction)) == n
  {
    hide NatOf, PadStart, AllDigits, Digits;
    var absolute: nat := if n < 0 then -n else n;
    PowersToSix();
    DigitsWidth(absolute % 1_000_000, 6);
    PadStartDenotes(absolute % 1_000_000, 6);
    SmallDigits(absolute / 1_000_000);
    hide Digits;
    var d := Written(n);
    assert |d.fraction| == 6;
    assert d.Text() == d.sign + d.whole + ("." + d.fraction);
    assert d.Text() == UnitsToDecimal(n);
  }

  lemma SmallDigits(n: nat)
    ensures NoLeadingZero(Digits(n))
  {
  }

  lemma CanonicalUnits(d: Decimal)
    requires d.Canonical()
    ensures DecimalToUnits(d.Text()) == Some(d.Signed(NatOf(d.whole) * 1_000_000 + NatOf(d.fraction)))
  {
    hide DecimalToUnits, NatOf, FirstSix, AllDigits;
    UnitsOfWritten(d);
    SixDigits(d.fraction);
  }

  /** Every integer number of units survives printing and reading. */
  lemma UnitsRoundTrip(n: int)
    ensures DecimalToUnits(UnitsToDecimal(n)) == Some(n)
  {
    hide DecimalToUnits, UnitsToDecimal, Written;
    WrittenDenotes(n);
    CanonicalUnits(Written(n));
  }

  /** Every canonical six-place string survives reading and printing, except negative zero. */
  lemma TextRoundTrip(d: Decimal)
    requires d.Canonical()
    ensures DecimalToUnits(d.Text()).Some?
    ensures UnitsToDecimal(DecimalToUnits(d.Text()).value) == d.Text() <==> d.Text() != "-0.000000"
  {
    hide DecimalToUnits, UnitsToDecimal, NatOf;
    CanonicalUnits(d);
    NegativeZero(d);
    var n := DecimalToUnits(d.Text()).value;
    WrittenDenotes(n);
    var w := Written(n);
    SixDigitsBelowUnit(d.fraction);
    SixDigitsBelowUnit(w.fraction);
    assert NatOf(d.whole) == NatOf(w.whole) && NatOf(d.fraction) == NatOf(w.fraction);
    hide Written;
    DigitsOfNat(d.whole);
    DigitsOfNat(w.whole);
    SameWidthSameText(d.fraction, w.fraction);
    assert d.Text() == w.Text() <==> d.sign == w.sign by {
      if d.Text() == w.Text() {
        DropSignOfWritten(d);
        DropSignOfWritten(w);
      }
    }
    assert w.sign == "-" <==> n < 0;
  }

  lemma SixDigitsBelowUnit(six: string)
    requires AllDigits(six) && |six| == 6
    ensures NatOf(six) < 1_000_000
  {
    PowersToSix();
    NatOfConcat("", six);
  }

  lemma NegativeZeroText()
    ensures "-" + "0" + ("." + PAD) == "-0.000000"
  {
    var text := "-" + "0" + ("." + PAD);
    assert text[0] == '-' && text[1] == '0' && text[2] == '.';
    assert forall i | 3 <= i < 9 :: text[i] == PAD[i - 3] == '0';
  }

  lemma NegativeZero(d: Decimal)
    requires d.Canonical()
    ensures d.Text() == "-0.000000" <==>
      d.sign == "-" && NatOf(d.whole) == 0 && NatOf(d.fraction) == 0
  {
    NatOfZeros(6);
    assert Zeros(6) == PAD;
    hide Zeros, AllDigits, Split;
    if d.Text() == "-0.000000" {
      DropSignOfWritten(d);
      SplitDecimal(d.whole, d.fraction);
      SplitDecimal("0", PAD);
      NegativeZeroText();
      Assoc(d.whole, ".", d.fraction);
      assert d.Text()[1..] == "0" + "." + PAD;
    } else if d.sign == "-" && NatOf(d.whole) == 0 && NatOf(d.fraction) == 0 {
      hide NatOf;
      DigitsOfNat(d.whole);
      SameWidthSameText(d.fraction, PAD);
      NegativeZeroText();
    }
  }

  /** Subtraction is exact on every pair of strings the service can read. */
  lemma SubtractIsExact(left: string, right: string)
    ensures SubtractDecimalStrings(left, right).Some? <==>
      DecimalToUnits(left).Some? && DecimalToUnits(right).Some?
    ensures SubtractDecimalStrings(left, right).Some? ==>
      DecimalToUnits(SubtractDecimalStrings(left, right).value) ==
        Some(DecimalToUnits(left).value - DecimalToUnits(right).value)
  {
    hide DecimalToUnits, UnitsToDecimal;
    if DecimalToUnits(left).Some? && DecimalToUnits(right).Some? {
      UnitsRoundTrip(DecimalToUnits(left).value - DecimalToUnits(right).value);
    }
  }
}
