/**
 * Text in the PDF export (src/analytics/analytics-export.service.ts:417-426),
 * read back as a literal string of section 7.3.4.2 of ISO 32000-1.
 */
module PdfText {
  import opened Text

  /** Each `replace` is one pass over the text. */
  function Pass(text: string, f: char -> string): string {
    if text == "" then "" else f(text[0]) + Pass(text[1..], f)
  }

  function OctalDigit(n: int): char {
    DigitChar(if 0 <= n < 8 then n else 0)
  }

  /** `\\ooo` for the characters U+0080 to U+00FF. */
  function Octal(c: char): string {
    var code := c as int;
    if 0x80 <= code <= 0xFF then ['\\', OctalDigit(code / 64), OctalDigit(code / 8 % 8), OctalDigit(code % 8)] else [c]
  }

  predicate Plain(c: char) {
    0x20 <= c as int <= 0x7E
  }

  /** A character above U+FFFF is two units of UTF-16, and each becomes a question mark. */
  function Printable(c: char): string {
    if Plain(c) then [c] else if c > '\U{FFFF}' then "??" else "?"
  }

  function Backslash(c: char): string {
    if c == '\\' then "\\\\" else [c]
  }

  function OpenParen(c: char): string {
    if c == '(' then "\\(" else [c]
  }

  function CloseParen(c: char): string {
    if c == ')' then "\\)" else [c]
  }

  function EscapePdfText(value: string): string {
    Pass(Pass(Pass(Pass(Pass(value, Octal), Printable), Backslash), OpenParen), CloseParen)
  }

  // ── how a PDF reader takes it ──

  predicate IsOctal(c: char) {
    '0' <= c <= '7'
  }

  /** The octal digits at the start, three at most. */
  function OctalRun(s: string): nat {
    if s == "" || !IsOctal(s[0]) then 0
    else if |s| == 1 || !IsOctal(s[1]) then 1
    else if |s| == 2 || !IsOctal(s[2]) then 2
    else 3
  }

  function OctalValue(digits: string): int {
    if digits == "" then 0 else OctalValue(digits[..|digits| - 1]) * 8 + (digits[|digits| - 1] as int - '0' as int)
  }

  function Control(c: char): string {
    if c == 'n' then "\n" else if c == 'r' then "\r" else if c == 't' then "\t"
    else if c == 'b' then [8 as char] else if c == 'f' then [12 as char]
    else [c]
  }

  /** The text that the inside of a literal string stands for. */
  function ReadLiteral(s: string): string
    decreases |s|
  {
    if s == "" then ""
    else if s[0] != '\\' then [s[0]] + ReadLiteral(s[1..])
    else if |s| == 1 then ""
    else if IsOctal(s[1]) then
      var n := OctalRun(s[1..]);
      var code := OctalValue(s[1..1 + n]) % 256;
      [if 0 <= code < 256 then code as char else '?'] + ReadLiteral(s[1 + n..])
    else Control(s[1]) + ReadLiteral(s[2..])
  }

  /** Where a literal string that is already open ends: the first parenthesis that closes it. */
  function LiteralEnd(s: string, depth: nat): int
    decreases |s|
  {
    if s == "" then -1
    else if s[0] == '\\' then
      if |s| == 1 then -1 else (var rest := LiteralEnd(s[2..], depth); if rest < 0 then -1 else rest + 2)
    else if s[0] == ')' && depth == 0 then 0
    else
      var rest := LiteralEnd(s[1..], if s[0] == '(' then depth + 1 else if s[0] == ')' then depth - 1 else depth);
      if rest < 0 then -1 else rest + 1
  }

  /** The three passes that escape, taken as one. */
  function Escape(c: char): string {
    if c == '\\' || c == '(' || c == ')' then ['\\', c] else [c]
  }

  /** What is left after the first two passes. */
  function Shown(value: string): string {
    Pass(Pass(value, Octal), Printable)
  }

  lemma {:induction false} PassConcat(a: string, b: string, f: char -> string)
    ensures Pass(a + b, f) == Pass(a, f) + Pass(b, f)
  {
    if a == "" {
      assert a + b == b;
    } else {
      PassConcat(a[1..], b, f);
      assert (a + b)[1..] == a[1..] + b;
      Assoc(f(a[0]), Pass(a[1..], f), Pass(b, f));
    }
  }

  lemma PassOne(c: char, f: char -> string)
    ensures Pass([c], f) == f(c)
  {
    assert [c][1..] == "";
    assert f(c) + "" == f(c);
  }

  lemma PassTwo(c: char, d: char, f: char -> string)
    ensures Pass([c, d], f) == f(c) + f(d)
  {
    PassConcat([c], [d], f);
    PassOne(c, f);
    PassOne(d, f);
    assert [c] + [d] == [c, d];
  }

  /** One character through the three escaping passes. */
  lemma EscapeOne(c: char)
    ensures Pass(Pass(Backslash(c), OpenParen), CloseParen) == Escape(c)
  {
    PassOne(c, OpenParen);
    PassOne(c, CloseParen);
    PassTwo('\\', '\\', OpenParen);
    PassTwo('\\', '\\', CloseParen);
    PassTwo('\\', '(', CloseParen);
  }

  lemma {:induction false} PassesAreEscape(text: string)
    ensures Pass(Pass(Pass(text, Backslash), OpenParen), CloseParen) == Pass(text, Escape)
  {
    if text != "" {
      var c, rest := text[0], text[1..];
      PassesAreEscape(rest);
      PassConcat(Backslash(c), Pass(rest, Backslash), OpenParen);
      PassConcat(Pass(Backslash(c), OpenParen), Pass(Pass(rest, Backslash), OpenParen), CloseParen);
      EscapeOne(c);
      hide Backslash, Escape;
    }
  }

  /** Escaping loses nothing: the reader sees the text after the first two passes. */
  lemma {:induction false} ReadUndoesEscape(text: string)
    requires forall i | 0 <= i < |text| :: Plain(text[i])
    ensures ReadLiteral(Pass(text, Escape)) == text
  {
    if text != "" {
      var c, rest := text[0], text[1..];
      ReadUndoesEscape(rest);
      var tail := Pass(rest, Escape);
      var all := Escape(c) + tail;
      assert Pass(text, Escape) == all;
      hide Pass;
      assert all[0] == Escape(c)[0];
      if |Escape(c)| == 2 {
        assert all[1] == c && all[2..] == tail;
      } else {
        assert all[1..] == tail;
      }
      assert text == [c] + rest;
    }
  }

  function AstralCount(value: string): nat {
    if value == "" then 0 else (if value[0] > '\U{FFFF}' then 1 else 0) + AstralCount(value[1..])
  }

  lemma {:induction false} ShownIsPlain(text: string)
    ensures forall i | 0 <= i < |Pass(text, Printable)| :: Plain(Pass(text, Printable)[i])
    ensures |Pass(text, Printable)| == |text| + AstralCount(text)
  {
    if text != "" {
      ShownIsPlain(text[1..]);
    }
  }

  lemma {:induction false} AstralConcat(a: string, b: string)
    ensures AstralCount(a + b) == AstralCount(a) + AstralCount(b)
  {
    if a == "" {
      assert a + b == b;
    } else {
      AstralConcat(a[1..], b);
      assert (a + b)[1..] == a[1..] + b;
    }
  }

  lemma OctalHasNoAstral(c: char)
    ensures AstralCount(Octal(c)) == if c > '\U{FFFF}' then 1 else 0
  {
    if |Octal(c)| == 1 {
      assert Octal(c)[1..] == "";
    } else {
      NoAstral(Octal(c));
    }
  }

  lemma {:induction false} NoAstral(text: string)
    requires forall i | 0 <= i < |text| :: text[i] <= '\U{FFFF}'
    ensures AstralCount(text) == 0
  {
    if text != "" {
      NoAstral(text[1..]);
    }
  }

  lemma {:induction false} OctalKeepsAstral(text: string)
    ensures AstralCount(Pass(text, Octal)) == AstralCount(text)
  {
    if text != "" {
      OctalKeepsAstral(text[1..]);
      AstralConcat(Octal(text[0]), Pass(text[1..], Octal));
      OctalHasNoAstral(text[0]);
      hide Octal;
    }
  }

  lemma {:induction false} PlainStays(text: string)
    requires forall i | 0 <= i < |text| :: Plain(text[i])
    ensures Pass(text, Octal) == text && Pass(text, Printable) == text
  {
    if text != "" {
      PlainStays(text[1..]);
      assert text == [text[0]] + text[1..];
    }
  }

  /** What a reader shows for an escaped text. */
  lemma ReaderShows(value: string)
    ensures ReadLiteral(EscapePdfText(value)) == Shown(value)
  {
    ShownIsPlain(Pass(value, Octal));
    PassesAreEscape(Shown(value));
    ReadUndoesEscape(Shown(value));
    hide Pass, ReadLiteral;
  }

  /**
   * The text survives exactly when every character is printable ASCII: the octal
   * escapes of the first pass are themselves escaped by the third, so the
   * accented letters they are made for never come back.
   */
  lemma TextSurvivesExactlyWhenPlain(value: string)
    ensures ReadLiteral(EscapePdfText(value)) == value <==> forall i | 0 <= i < |value| :: Plain(value[i])
  {
    ReaderShows(value);
    ShownIsPlain(Pass(value, Octal));
    hide ReadLiteral, EscapePdfText;
    if forall i | 0 <= i < |value| :: Plain(value[i]) {
      PlainStays(value);
    }
  }

  /** Alone, the first pass is right: what it makes of a letter reads back as the letter. */
  lemma OctalAlone(c: char)
    requires 0x80 <= c as int <= 0xFF
    ensures ReadLiteral(Octal(c)) == [c]
  {
    var code := c as int;
    var a, b, d := code / 64, code / 8 % 8, code % 8;
    assert 0 <= a < 8 && a * 64 + b * 8 + d == code;
    OctalThree(OctalDigit(a), OctalDigit(b), OctalDigit(d));
  }

  lemma OctalThree(a: char, b: char, c: char)
    requires IsOctal(a) && IsOctal(b) && IsOctal(c)
    ensures var code := (a as int - 48) * 64 + (b as int - 48) * 8 + (c as int - 48);
      code < 256 ==> ReadLiteral(['\\', a, b, c]) == [code as char]
  {
    var s, digits := ['\\', a, b, c], [a, b, c];
    assert s[1..] == digits && s[1..4] == digits && s[4..] == "";
    assert OctalRun(digits) == 3;
    ThreeDigits(digits);
    hide OctalRun, OctalValue;
    assert ReadLiteral("") == "";
  }

  lemma ThreeDigits(s: string)
    requires |s| == 3
    ensures OctalValue(s) == (s[0] as int - 48) * 64 + (s[1] as int - 48) * 8 + (s[2] as int - 48)
  {
    assert s[..2][..1] == [s[0]] && s[..2][1] == s[1];
    OneDigit(s[0]);
    hide OctalValue;
    LastDigit(s);
    LastDigit(s[..2]);
  }

  lemma OneDigit(c: char)
    ensures OctalValue([c]) == c as int - 48
  {
    assert [c][..0] == "";
  }

  lemma LastDigit(s: string)
    requires s != ""
    ensures OctalValue(s) == OctalValue(s[..|s| - 1]) * 8 + (s[|s| - 1] as int - 48)
  {
  }

  function HighCount(value: string): nat {
    if value == "" then 0 else (if 0x80 <= value[0] as int <= 0xFF then 1 else 0) + HighCount(value[1..])
  }

  /** Each such letter is shown as four characters, and each character above U+FFFF as two. */
  lemma AccentsBecomeFour(value: string)
    ensures |Shown(value)| == |value| + 3 * HighCount(value) + AstralCount(value)
  {
    ShownIsPlain(Pass(value, Octal));
    OctalLength(value);
    OctalKeepsAstral(value);
  }

  lemma {:induction false} OctalLength(value: string)
    ensures |Pass(value, Octal)| == |value| + 3 * HighCount(value)
  {
    if value != "" {
      OctalLength(value[1..]);
    }
  }

  /** No text can end its literal string early, or keep it from ending. */
  lemma ClosesWhereMeant(value: string, after: string)
    ensures LiteralEnd(EscapePdfText(value) + ")" + after, 0) == |EscapePdfText(value)|
  {
    PassesAreEscape(Shown(value));
    EscapedIsSkipped(Shown(value), ")" + after);
    Assoc(EscapePdfText(value), ")", after);
    hide Pass;
  }

  lemma {:induction false} EscapedIsSkipped(text: string, rest: string)
    requires LiteralEnd(rest, 0) >= 0
    ensures LiteralEnd(Pass(text, Escape) + rest, 0) == |Pass(text, Escape)| + LiteralEnd(rest, 0)
  {
    if text == "" {
      assert Pass(text, Escape) + rest == rest;
    } else {
      var c, tail := text[0], Pass(text[1..], Escape);
      EscapedIsSkipped(text[1..], rest);
      var all := Escape(c) + tail + rest;
      assert Pass(text, Escape) == Escape(c) + tail;
      hide Pass;
      assert all[0] == Escape(c)[0];
      if |Escape(c)| == 2 {
        assert all[2..] == tail + rest;
      } else {
        assert all[1..] == tail + rest;
      }
    }
  }
}

/** The file around it: objects and their cross-reference table (src/analytics/analytics-export.service.ts:399-414). */
module PdfFile {
  import opened Text

  function ObjectText(n: nat, dictionary: string): string {
    Digits(n) + " 0 obj\n" + dictionary + "\nendobj\n"
  }

  const HEADER := "%PDF-1.4\n"

  /** The file up to object `n`. */
  function Body(objects: seq<string>, n: nat): string
    requires n <= |objects|
  {
    if n == 0 then HEADER else Body(objects, n - 1) + ObjectText(n, objects[n - 1])
  }

  function Entry(offset: nat): string {
    PadStart(Digits(offset), 10) + " 00000 n \n"
  }

  function Entries(offsets: seq<nat>): string {
    if offsets == [] then "" else Entries(offsets[..|offsets| - 1]) + Entry(offsets[|offsets| - 1])
  }

  function XrefHead(count: nat): string {
    "xref\n0 " + Digits(count + 1) + "\n" + "0000000000 65535 f \n"
  }

  function Trailer(count: nat, xrefOffset: nat): string {
    "trailer\n<< /Size " + Digits(count + 1) + " /Root 1 0 R >>\nstartxref\n" + Digits(xrefOffset) + "\n%%EOF"
  }

  /** `text` is `number` in decimal digits between two other texts. */
  ghost predicate HoldsNumber(text: string, before: string, number: nat, after: string) {
    exists digits: string | HasDigits(digits, number) :: text == before + digits + after
  }

  predicate HasDigits(digits: string, number: nat) {
    digits != "" && AllDigits(digits) && NatOf(digits) == number
  }

  lemma DigitsHold(before: string, number: nat, after: string)
    ensures HoldsNumber(before + Digits(number) + after, before, number, after)
  {
    assert HasDigits(Digits(number), number);
  }

  /** Objects are numbered from 1; table and trailer announce one entry more than there are objects. */
  lemma NumbersAreWritten(count: nat, xrefOffset: nat, n: nat, dictionary: string)
    ensures HoldsNumber(ObjectText(n, dictionary), "", n, " 0 obj\n" + dictionary + "\nendobj\n")
    ensures HoldsNumber(XrefHead(count), "xref\n0 ", count + 1, "\n0000000000 65535 f \n")
    ensures exists front: string ::
      && HoldsNumber(front, "trailer\n<< /Size ", count + 1, " /Root 1 0 R >>\nstartxref\n")
      && HoldsNumber(Trailer(count, xrefOffset), front, xrefOffset, "\n%%EOF")
  {
    hide Digits, HoldsNumber;
    DigitsHold("", n, " 0 obj\n" + dictionary + "\nendobj\n");
    assert ObjectText(n, dictionary) == "" + Digits(n) + (" 0 obj\n" + dictionary + "\nendobj\n");
    DigitsHold("xref\n0 ", count + 1, "\n0000000000 65535 f \n");
    assert XrefHead(count) == "xref\n0 " + Digits(count + 1) + "\n0000000000 65535 f \n";
    var front := "trailer\n<< /Size " + Digits(count + 1) + " /Root 1 0 R >>\nstartxref\n";
    DigitsHold("trailer\n<< /Size ", count + 1, " /Root 1 0 R >>\nstartxref\n");
    DigitsHold(front, xrefOffset, "\n%%EOF");
    assert Trailer(count, xrefOffset) == front + Digits(xrefOffset) + "\n%%EOF";
  }

  lemma EntriesAppend(front: seq<nat>, offset: nat)
    ensures Entries(front + [offset]) == Entries(front) + Entry(offset)
  {
    assert (front + [offset])[..|front|] == front;
  }

  lemma EntriesStep(head: string, offsets: seq<nat>, i: nat)
    requires i < |offsets|
    ensures head + Entries(offsets[..i]) + Entry(offsets[i]) == head + Entries(offsets[..i + 1])
  {
    hide *;
    assert offsets[..i + 1] == offsets[..i] + [offsets[i]];
    EntriesAppend(offsets[..i], offsets[i]);
    Assoc(head, Entries(offsets[..i]), Entry(offsets[i]));
  }

  method AppendEntries(head: string, offsets: seq<nat>) returns (pdf: string)
    ensures pdf == head + Entries(offsets)
  {
    pdf := head;
    assert head == head + Entries(offsets[..0]);
    hide *;
    for i := 0 to |offsets|
      invariant pdf == head + Entries(offsets[..i])
    {
      EntriesStep(head, offsets, i);
      pdf := pdf + Entry(offsets[i]);
    }
    assert offsets[..|offsets|] == offsets;
  }

  method AppendObjects(objects: seq<string>) returns (pdf: string, offsets: seq<nat>)
    ensures |offsets| == |objects| && forall i | 0 <= i < |objects| :: offsets[i] == |Body(objects, i)|
    ensures pdf == Body(objects, |objects|)
  {
    hide Digits, ObjectText;
    pdf, offsets := HEADER, [];
    for i := 0 to |objects|
      invariant pdf == Body(objects, i)
      invariant |offsets| == i && forall j | 0 <= j < i :: offsets[j] == |Body(objects, j)|
    {
      offsets := offsets + [|pdf|];
      pdf := pdf + ObjectText(i + 1, objects[i]);
    }
  }

  /** Every character is one byte in Latin-1, so byte lengths are lengths. */
  method BuildPdf(objects: seq<string>) returns (pdf: string, offsets: seq<nat>, xrefOffset: nat)
    ensures |offsets| == |objects| && forall i | 0 <= i < |objects| :: offsets[i] == |Body(objects, i)|
    ensures xrefOffset == |Body(objects, |objects|)|
    ensures pdf == Body(objects, |objects|)
      + (XrefHead(|objects|) + (Entries(offsets) + Trailer(|objects|, xrefOffset)))
  {
    hide *;
    pdf, offsets := AppendObjects(objects);
    xrefOffset := |pdf|;
    ghost var body := pdf;
    pdf := pdf + XrefHead(|objects|);
    ghost var head := pdf;
    pdf := AppendEntries(pdf, offsets);
    pdf := pdf + Trailer(|objects|, xrefOffset);
    Assoc(head, Entries(offsets), Trailer(|objects|, xrefOffset));
    Assoc(body, XrefHead(|objects|), Entries(offsets) + Trailer(|objects|, xrefOffset));
  }

  /** `part` stands in `text` at position `at`. */
  predicate StandsAt(text: string, at: nat, part: string) {
    at + |part| <= |text| && text[at..at + |part|] == part
  }

  lemma StandsInFront(a: string, part: string, rest: string)
    ensures StandsAt(a + part + rest, |a|, part)
  {
  }

  lemma {:induction false} ObjectInBody(objects: seq<string>, n: nat, i: nat)
    requires i < n <= |objects|
    ensures StandsAt(Body(objects, n), |Body(objects, i)|, ObjectText(i + 1, objects[i]))
    decreases n
  {
    hide ObjectText;
    if i == n - 1 {
      StandsInFront(Body(objects, i), ObjectText(n, objects[i]), "");
      assert Body(objects, n) + "" == Body(objects, n);
    } else {
      ObjectInBody(objects, n - 1, i);
      StaysAt(Body(objects, n - 1), ObjectText(n, objects[n - 1]), |Body(objects, i)|, ObjectText(i + 1, objects[i]));
    }
  }

  lemma StaysAt(text: string, more: string, at: nat, part: string)
    requires StandsAt(text, at, part)
    ensures StandsAt(text + more, at, part)
  {
    assert (text + more)[at..at + |part|] == text[at..at + |part|];
  }

  /** Every offset in the table is where its object starts, and `startxref` is where the table starts. */
  lemma OffsetsPointAtObjects(objects: seq<string>, pdf: string, offsets: seq<nat>, rest: string, i: nat)
    requires pdf == Body(objects, |objects|) + (XrefHead(|objects|) + rest)
    requires |offsets| == |objects| && i < |objects| && offsets[i] == |Body(objects, i)|
    ensures StandsAt(pdf, offsets[i], ObjectText(i + 1, objects[i]))
    ensures StandsAt(pdf, |Body(objects, |objects|)|, XrefHead(|objects|))
  {
    ObjectInBody(objects, |objects|, i);
    hide Body, ObjectText, XrefHead;
    StaysAt(Body(objects, |objects|), XrefHead(|objects|) + rest, offsets[i], ObjectText(i + 1, objects[i]));
    Assoc(Body(objects, |objects|), XrefHead(|objects|), rest);
    StandsInFront(Body(objects, |objects|), XrefHead(|objects|), rest);
  }

  lemma TenDigits()
    ensures Pow10(10) == 10_000_000_000
  {
    assert Pow10(2) == 100;
    assert Pow10(4) == 10_000;
    assert Pow10(6) == 1_000_000;
    assert Pow10(8) == 100_000_000;
  }

  /** An entry is twenty bytes and starts with its offset in ten digits, as section 7.5.4 of ISO 32000-1 demands. */
  lemma EntryIsTwentyBytes(offset: nat)
    requires offset < 10_000_000_000
    ensures |Entry(offset)| == 20
    ensures AllDigits(Entry(offset)[..10]) && NatOf(Entry(offset)[..10]) == offset
  {
    TenDigits();
    DigitsWidth(offset, 10);
    PadStartDenotes(offset, 10);
    hide Digits, PadStart, NatOf;
    assert Entry(offset)[..10] == PadStart(Digits(offset), 10);
  }

  lemma {:induction false} EntriesLength(offsets: seq<nat>)
    requires forall j | 0 <= j < |offsets| :: offsets[j] < 10_000_000_000
    ensures |Entries(offsets)| == 20 * |offsets|
  {
    hide Entry;
    if offsets != [] {
      EntriesLength(offsets[..|offsets| - 1]);
      EntryIsTwentyBytes(offsets[|offsets| - 1]);
    }
  }

  lemma AlignedAppend(front: seq<nat>, last: nat, i: nat)
    requires i <= |front| && |Entries(front)| == 20 * |front|
    requires i < |front| ==> StandsAt(Entries(front), 20 * i, Entry(front[i]))
    ensures StandsAt(Entries(front + [last]), 20 * i, Entry((front + [last])[i]))
  {
    hide *;
    EntriesAppend(front, last);
    if i < |front| {
      StaysAt(Entries(front), Entry(last), 20 * i, Entry(front[i]));
    } else {
      StandsInFront(Entries(front), Entry(last), "");
      assert Entries(front) + Entry(last) + "" == Entries(front) + Entry(last);
    }
  }

  /** So entry `i` of the table can be found by its number alone. */
  lemma {:induction false} EntriesAreAligned(offsets: seq<nat>, i: nat)
    requires i < |offsets| && forall j | 0 <= j < |offsets| :: offsets[j] < 10_000_000_000
    ensures StandsAt(Entries(offsets), 20 * i, Entry(offsets[i]))
  {
    hide *;
    var n := |offsets| - 1;
    var front, last := offsets[..n], offsets[n];
    EntriesLength(front);
    if i < n {
      EntriesAreAligned(front, i);
    }
    AlignedAppend(front, last, i);
    assert offsets == front + [last];
  }
}
