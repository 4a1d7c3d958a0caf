/** The string primitives of the source's language that several components lean on. */
module Text {

  /** `s.split(sep)` for a separator of one character. */
  function Split(s: string, sep: char): (parts: seq<string>)
    ensures |parts| >= 1
  {
    if s == "" then [""]
    else
      var rest := Split(s[1..], sep);
      if s[0] == sep then [""] + rest else [[s[0]] + rest[0]] + rest[1..]
  }

  lemma Assoc<T>(a: seq<T>, b: seq<T>, c: seq<T>)
    ensures (a + b) + c == a + (b + c)
  {
  }

  /** `parts.join(sep)`. */
  function Join(parts: seq<string>, sep: string): string {
    if |parts| == 0 then ""
    else if |parts| == 1 then parts[0]
    else parts[0] + sep + Join(parts[1..], sep)
  }

  lemma {:induction false} SplitField(field: string, rest: string, sep: char)
    requires sep !in field
    ensures Split(field + [sep] + rest, sep) == [field] + Split(rest, sep)
    ensures Split(field, sep) == [field]
  {
    if field == "" {
      assert ([sep] + rest)[1..] == rest;
      assert field + [sep] + rest == [sep] + rest;
    } else {
      SplitField(field[1..], rest, sep);
      assert (field + [sep] + rest)[1..] == field[1..] + [sep] + rest;
      assert field[0] in field;
      assert [field[0]] + field[1..] == field;
    }
  }

  /** Splitting undoes joining when no part contains the separator. */
  lemma {:induction false} SplitJoin(parts: seq<string>, sep: char)
    requires |parts| >= 1
    requires forall p <- parts :: sep !in p
    ensures Split(Join(parts, [sep]), sep) == parts
  {
    if |parts| == 1 {
      SplitField(parts[0], "", sep);
    } else {
      SplitJoin(parts[1..], sep);
      SplitField(parts[0], Join(parts[1..], [sep]), sep);
    }
  }

  predicate IsDigit(c: char) {
    '0' <= c <= '9'
  }

  predicate AllDigits(s: string) {
    forall i | 0 <= i < |s| :: IsDigit(s[i])
  }

  function DigitOf(c: char): (d: nat)
    requires IsDigit(c)
    ensures d < 10 && DigitChar(d) == c
  {
    c as int - '0' as int
  }

  predicate IsHexDigit(c: char) {
    IsDigit(c) || 'a' <= c <= 'f' || 'A' <= c <= 'F'
  }

  function HexDigitOf(c: char): (d: nat)
    requires IsHexDigit(c)
    ensures d < 16 && (c == "0123456789abcdef"[d] || c == "0123456789ABCDEF"[d])
  {
    if IsDigit(c) then DigitOf(c)
    else if 'a' <= c <= 'f' then c as int - 'a' as int + 10
    else c as int - 'A' as int + 10
  }

  /** The number a string of decimal digits denotes; the empty string denotes 0. */
  function NatOf(s: string): nat
    requires AllDigits(s)
  {
    if s == "" then 0
    else NatOf(s[..|s| - 1]) * 10 + DigitOf(s[|s| - 1])
  }

  function DigitChar(d: nat): (c: char)
    requires d < 10
    ensures IsDigit(c) && c as int == '0' as int + d
  {
    "0123456789"[d]
  }

  /** The decimal digits of `n`, without leading zeros. */
  function Digits(n: nat): (s: string)
    ensures AllDigits(s) && |s| >= 1
    ensures NatOf(s) == n
    ensures n != 0 ==> s[0] != '0'
    ensures n < 10 ==> |s| == 1
  {
    if n < 10 then
      assert NatOf("") == 0;
      [DigitChar(n)]
    else
      var front := Digits(n / 10);
      var s := front + [DigitChar(n % 10)];
      assert s[..|s| - 1] == front;
      s
  }

  predicate NoLeadingZero(s: string) {
    s == "0" || (s != "" && s[0] != '0')
  }

  lemma {:induction false} LeadingDigitCounts(s: string)
    requires AllDigits(s) && s != "" && s[0] != '0'
    ensures NatOf(s) >= 1
  {
    if |s| > 1 {
      LeadingDigitCounts(s[..|s| - 1]);
    } else {
      assert DigitOf(s[0]) != 0;
    }
  }

  /** A canonical digit string is the only one that denotes its number. */
  lemma {:induction false} DigitsOfNat(s: string)
    requires AllDigits(s) && NoLeadingZero(s)
    ensures Digits(NatOf(s)) == s
  {
    var front, d := s[..|s| - 1], DigitOf(s[|s| - 1]);
    assert NatOf(s) == NatOf(front) * 10 + d;
    if front == "" {
      assert NatOf(front) == 0;
      assert s == [DigitChar(d)];
    } else {
      LeadingDigitCounts(front);
      DigitsOfNat(front);
      hide NatOf;
      assert NatOf(s) / 10 == NatOf(front) && NatOf(s) % 10 == d;
      assert s == front + [DigitChar(d)];
    }
  }

  function Zeros(n: nat): (s: string)
    ensures |s| == n && forall c <- s :: c == '0'
  {
    if n == 0 then "" else Zeros(n - 1) + "0"
  }

  function Pow10(n: nat): (p: nat)
    ensures p >= 1
  {
    if n == 0 then 1 else 10 * Pow10(n - 1)
  }

  lemma {:induction false} NatOfConcat(a: string, b: string)
    requires AllDigits(a) && AllDigits(b)
    ensures AllDigits(a + b)
    ensures NatOf(a + b) == NatOf(a) * Pow10(|b|) + NatOf(b)
    ensures NatOf(b) < Pow10(|b|)
  {
    if b == "" {
      assert a + b == a;
    } else {
      var front, d := b[..|b| - 1], DigitOf(b[|b| - 1]);
      NatOfConcat(a, front);
      assert (a + b)[..|a + b| - 1] == a + front;
      assert (a + b)[|a + b| - 1] == b[|b| - 1];
      assert NatOf(a + b) == NatOf(a + front) * 10 + d;
      assert NatOf(b) == NatOf(front) * 10 + d;
      ShiftSum(NatOf(a), Pow10(|front|), NatOf(front), d);
    }
  }

  lemma ShiftSum(x: nat, p: nat, y: nat, d: nat)
    ensures (x * p + y) * 10 + d == x * (10 * p) + (y * 10 + d)
  {
  }

  lemma {:induction false} NatOfZeros(n: nat)
    ensures AllDigits(Zeros(n)) && NatOf(Zeros(n)) == 0
  {
    if n > 0 {
      NatOfZeros(n - 1);
      assert Zeros(n)[..n - 1] == Zeros(n - 1);
    }
  }

  /** `s.padStart(width, '0')`. */
  function PadStart(s: string, width: nat): (r: string)
    ensures |r| == if |s| < width then width else |s|
  {
    if |s| < width then Zeros(width - |s|) + s else s
  }

  /** Digit strings of one width that denote one number are equal. */
  lemma {:induction false} SameWidthSameText(a: string, b: string)
    requires AllDigits(a) && AllDigits(b) && |a| == |b| && NatOf(a) == NatOf(b)
    ensures a == b
  {
    if a != "" {
      var k := |a| - 1;
      var x, y := NatOf(a[..k]), NatOf(b[..k]);
      assert x * 10 + DigitOf(a[k]) == y * 10 + DigitOf(b[k]);
      assert x == y && DigitOf(a[k]) == DigitOf(b[k]);
      hide NatOf;
      SameWidthSameText(a[..k], b[..k]);
      assert a == a[..k] + [DigitChar(DigitOf(a[k]))] && b == b[..k] + [DigitChar(DigitOf(b[k]))];
    }
  }

  /** A number below 10^w has at most w digits. */
  lemma {:induction false} DigitsWidth(n: nat, w: nat)
    requires w >= 1 && n < Pow10(w)
    ensures |Digits(n)| <= w
  {
    if n >= 10 {
      assert Pow10(w) == 10 * Pow10(w - 1);
      DigitsWidth(n / 10, w - 1);
    }
  }

  /** A padded number still denotes the number. */
  lemma PadStartDenotes(n: nat, width: nat)
    ensures AllDigits(PadStart(Digits(n), width)) && NatOf(PadStart(Digits(n), width)) == n
  {
    hide NatOf, Pow10;
    var text := Digits(n);
    if |text| < width {
      NatOfZeros(width - |text|);
      NatOfConcat(Zeros(width - |text|), text);
      assert 0 * Pow10(|text|) == 0;
    }
  }

  /** The characters `trim()` removes. */
  predicate IsSpace(c: char) {
    || '\t' <= c <= '\r'
    || '\U{2000}' <= c <= '\U{200A}'
    || c == ' ' || c == '\U{A0}' || c == '\U{1680}' || c == '\U{2028}' || c == '\U{2029}'
    || c == '\U{202F}' || c == '\U{205F}' || c == '\U{3000}' || c == '\U{FEFF}'
  }

  function TrimStart(s: string): string {
    if s != "" && IsSpace(s[0]) then TrimStart(s[1..]) else s
  }

  function TrimEnd(s: string): string {
    if s != "" && IsSpace(s[|s| - 1]) then TrimEnd(s[..|s| - 1]) else s
  }

  function Trim(s: string): string {
    TrimEnd(TrimStart(s))
  }

  predicate Blank(s: string) {
    forall i | 0 <= i < |s| :: IsSpace(s[i])
  }

  lemma {:induction false} TrimStartBlanks(blanks: string, s: string)
    requires Blank(blanks)
    ensures TrimStart(blanks + s) == TrimStart(s)
  {
    if blanks == "" {
      assert blanks + s == s;
    } else {
      assert (blanks + s)[1..] == blanks[1..] + s;
      TrimStartBlanks(blanks[1..], s);
    }
  }

  lemma {:induction false} TrimEndBlanks(s: string, blanks: string)
    requires Blank(blanks)
    ensures TrimEnd(s + blanks) == TrimEnd(s)
  {
    if blanks == "" {
      assert s + blanks == s;
    } else {
      assert (s + blanks)[..|s + blanks| - 1] == s + blanks[..|blanks| - 1];
      TrimEndBlanks(s, blanks[..|blanks| - 1]);
    }
  }

  lemma {:induction false} TrimStartKeeps(s: string, blanks: string)
    requires Blank(blanks)
    ensures TrimStart(s + blanks) == if Blank(s) then "" else TrimStart(s) + blanks
  {
    if s == "" {
      assert s + blanks == blanks && blanks + "" == blanks;
      TrimStartBlanks(blanks, "");
    } else if IsSpace(s[0]) {
      assert (s + blanks)[1..] == s[1..] + blanks;
      TrimStartKeeps(s[1..], blanks);
      assert Blank(s) <==> Blank(s[1..]);
    }
  }

  /** Blanks around a text go with its own. */
  lemma TrimBlanks(before: string, s: string, after: string)
    requires Blank(before) && Blank(after)
    ensures Trim(before + s + after) == Trim(s)
  {
    assert before + s + after == before + (s + after);
    TrimStartBlanks(before, s + after);
    TrimStartKeeps(s, after);
    if Blank(s) {
      assert s + "" == s;
      TrimStartBlanks(s, "");
    } else {
      TrimEndBlanks(TrimStart(s), after);
    }
  }

  /** Text that neither starts nor ends with a space is left alone. */
  lemma NothingToTrim(s: string)
    requires s != "" ==> !IsSpace(s[0]) && !IsSpace(s[|s| - 1])
    ensures Trim(s) == s
  {
  }

  lemma DigitsAppend(a: string, b: string)
    ensures AllDigits(a + b) <==> AllDigits(a) && AllDigits(b)
  {
    if AllDigits(a + b) {
      assert forall i | 0 <= i < |a| :: a[i] == (a + b)[i];
      assert forall i | 0 <= i < |b| :: b[i] == (a + b)[|a| + i];
    }
  }
}
