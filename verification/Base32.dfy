/** Base32 over a 32-bit register that is never masked (src/admin/admin.service.ts:524-559). */
module Base32 {
  import opened Wrappers
  import Text
  import opened Numbers

  /**
   * The register is read as an unsigned 32-bit word. Bits shifted past bit 31
   * are lost; `| x` adds `x`, because the shift has just cleared those bits.
   */
  function ShiftIn(word: nat, places: nat, x: nat): nat {
    word * Pow2(places) % 0x1_0000_0000 + x
  }

  /** `(word >>> places) & (Pow2(width) - 1)`. */
  function Extract(word: nat, places: nat, width: nat): nat {
    word / Pow2(places) % Pow2(width)
  }

  // What the standard asks for (section 6 of RFC 4648): the bits of the input,
  // cut into fives, with zeros appended to fill the last five.

  ghost predicate Encodes(bytes: seq<nat>, quintets: seq<nat>) {
    && |quintets| == (8 * |bytes| + 4) / 5
    && Below(32, quintets)
    && Value(32, quintets) == Value(256, bytes) * Pow2(5 * |quintets| - 8 * |bytes|)
  }

  ghost predicate Decodes(quintets: seq<nat>, bytes: seq<nat>) {
    && |bytes| == 5 * |quintets| / 8
    && Below(256, bytes)
    && Value(256, bytes) == Value(32, quintets) / Pow2(5 * |quintets| - 8 * |bytes|)
  }

  /** Decoding inverts encoding. */
  lemma DecodeUndoesEncode(bytes: seq<nat>, quintets: seq<nat>, back: seq<nat>)
    requires Below(256, bytes) && Encodes(bytes, quintets) && Decodes(quintets, back)
    ensures back == bytes
  {
    assert |back| == |bytes|;
    var pad := Pow2(5 * |quintets| - 8 * |bytes|);
    DigitOf(Value(256, bytes), pad, 0);
    ValueIsInjective(256, back, bytes);
  }

  // ── arithmetic of the register ──

  lemma SmallPowers()
    ensures Pow2(0) == 1 && Pow2(5) == 32 && Pow2(8) == 256 && Pow2(32) == 0x1_0000_0000
  {
    assert Pow2(2) == 2 * Pow2(1);
    assert Pow2(4) == 2 * Pow2(3);
    assert Pow2(6) == 2 * Pow2(5);
    assert Pow2(8) == 2 * Pow2(7);
    PowSum(8, 8);
    PowSum(16, 16);
  }

  lemma ModMultiple(x: nat, p: nat, m: nat)
    requires p >= 1 && m >= 1
    ensures x % (p * m) % p == x % p
  {
    var q, r := x / (p * m), x % (p * m);
    assert x == p * (m * q + r / p) + r % p by {
      assert (p * m) * q == p * (m * q);
    }
    assert p * (m * q + r / p) == (m * q + r / p) * p;
    DigitOf(m * q + r / p, p, r % p);
  }

  lemma ModScale(x: nat, p: nat, w: nat)
    requires p >= 1 && w >= 1
    ensures x * w % (p * w) == x % p * w
  {
    var q, r := x / p, x % p;
    assert x * w == q * (p * w) + r * w;
    assert r * w < p * w;
    DigitOf(q, p * w, r * w);
  }

  lemma KeepLow(word: nat, p: nat, w: nat, m: nat, x: nat, pw: nat)
    requires p >= 1 && w >= 1 && m >= 1 && pw == p * w && pw >= 1 && x < w
    ensures (word * w % (pw * m) + x) % pw == word % p * w + x
  {
    ModMultiple(word * w, pw, m);
    ModScale(word, p, w);
    DigitFits(word % p, p, w, x);
    Carry(word * w % (pw * m), pw, word % p * w, x);
  }

  lemma Carry(y: nat, p: nat, low: nat, x: nat)
    requires p >= 1 && y % p == low && low + x < p
    ensures (y + x) % p == low + x
  {
    Division(y, p);
    DigitOf(y / p, p, low + x);
  }

  /** Shifting in keeps the bits that still count, whatever the truncation dropped. */
  lemma ShiftInKeeps(word: nat, bits: nat, places: nat, x: nat)
    requires bits + places <= 32 && x < Pow2(places)
    ensures ShiftIn(word, places, x) % Pow2(bits + places) == word % Pow2(bits) * Pow2(places) + x
  {
    SmallPowers();
    hide Pow2;
    PowSum(bits, places);
    PowSum(bits + places, 32 - bits - places);
    KeepLow(word, Pow2(bits), Pow2(places), Pow2(32 - bits - places), x, Pow2(bits + places));
  }

  lemma SplitLow(word: nat, p: nat, w: nat, pw: nat)
    requires p >= 1 && w >= 1 && pw == p * w && pw >= 1
    ensures word % pw == word / p % w * p + word % p
  {
    Division(word, p);
    Division(word / p, w);
    SplitLowAt(p, w, pw, word / p / w, word / p % w, word % p);
  }

  lemma SplitLowAt(p: nat, w: nat, pw: nat, k: nat, x: nat, r: nat)
    requires p >= 1 && w >= 1 && pw == p * w && pw >= 1 && x < w && r < p
    ensures ((k * w + x) * p + r) % pw == x * p + r
  {
    DigitFits(x, w, p, r);
    Assemble(k, w, x, p, r, pw);
    DigitOf(k, pw, x * p + r);
  }

  lemma Assemble(k: nat, w: nat, x: nat, p: nat, r: nat, pw: nat)
    requires pw == p * w
    ensures (k * w + x) * p + r == k * pw + (x * p + r)
  {
  }

  /** The low bits split into an extracted group and what is below it. */
  lemma ExtractSplits(word: nat, places: nat, width: nat)
    ensures word % Pow2(places + width) == Extract(word, places, width) * Pow2(places) + word % Pow2(places)
  {
    hide Pow2;
    PowSum(places, width);
    SplitLow(word, Pow2(places), Pow2(width), Pow2(places + width));
  }

  /** What was written and the low `bits` of the register together still make the number `n`. */
  ghost predicate Carries(n: nat, base: nat, written: seq<nat>, word: nat, bits: nat) {
    n == Value(base, written) * Pow2(bits) + word % Pow2(bits)
  }

  /** The next digit of the input enters the register. */
  lemma ReadGroup(
      inBase: nat, s: seq<nat>, places: nat, d: nat, base: nat, written: seq<nat>, word: nat, bits: nat)
    requires inBase == Pow2(places) && bits + places <= 32 && d < inBase
    requires Carries(Value(inBase, s), base, written, word, bits)
    ensures Carries(Value(inBase, s + [d]), base, written, ShiftIn(word, places, d), bits + places)
  {
    hide Pow2, ShiftIn, Value;
    ValueAppend(inBase, s, d);
    ShiftInKeeps(word, bits, places, d);
    PowSum(bits, places);
    Rescale(Value(base, written), Pow2(bits), word % Pow2(bits), inBase, Pow2(bits + places));
  }

  lemma Rescale(v: nat, p: nat, low: nat, w: nat, pw: nat)
    requires pw == p * w
    ensures (v * p + low) * w == v * pw + low * w
  {
  }

  /** The topmost group leaves the register. */
  lemma WriteGroup(n: nat, base: nat, width: nat, written: seq<nat>, word: nat, bits: nat)
    requires base == Pow2(width) && bits >= width && Carries(n, base, written, word, bits)
    ensures Carries(n, base, written + [Extract(word, bits - width, width)], word, bits - width)
  {
    hide Pow2, Extract, Value;
    var x := Extract(word, bits - width, width);
    ValueAppend(base, written, x);
    ExtractSplits(word, bits - width, width);
    PowSum(bits - width, width);
    Assemble(Value(base, written), base, x, Pow2(bits - width), 0, Pow2(bits));
  }

  /** The last quintet is filled up with zero bits. */
  lemma Padded(bytes: seq<nat>, written: seq<nat>, word: nat, bits: nat)
    requires 0 < bits < 5 && 8 * |bytes| == 5 * |written| + bits && Below(32, written)
    requires Carries(Value(256, bytes), 32, written, word, bits)
    ensures Encodes(bytes, written + [ShiftIn(word, 5 - bits, 0) % 32])
  {
    SmallPowers();
    hide Pow2, ShiftIn, Value;
    ValueAppend(32, written, ShiftIn(word, 5 - bits, 0) % 32);
    ShiftInKeeps(word, bits, 5 - bits, 0);
    PowSum(bits, 5 - bits);
    Rescale(Value(32, written), Pow2(bits), word % Pow2(bits), Pow2(5 - bits), 32);
  }

  lemma NotPadded(bytes: seq<nat>, written: seq<nat>, word: nat)
    requires 8 * |bytes| == 5 * |written| && Below(32, written)
    requires Carries(Value(256, bytes), 32, written, word, 0)
    ensures Encodes(bytes, written)
  {
  }

  lemma WholeBytes(quintets: seq<nat>, bytes: seq<nat>, word: nat, bits: nat)
    requires bits < 8 && 5 * |quintets| == 8 * |bytes| + bits && Below(256, bytes)
    requires Carries(Value(32, quintets), 256, bytes, word, bits)
    ensures Decodes(quintets, bytes)
  {
    DigitOf(Value(256, bytes), Pow2(bits), word % Pow2(bits));
  }

  // The steps of the two loops.

  lemma Empty(base: nat, other: nat, bits: nat)
    requires bits == 0
    ensures Carries(Value(other, []), base, [], 0, bits)
  {
  }

  lemma ReadByte(bytes: seq<nat>, d: nat, quintets: seq<nat>, word: nat, bits: nat)
    requires bits < 5 && d < 256 && Carries(Value(256, bytes), 32, quintets, word, bits)
    ensures Carries(Value(256, bytes + [d]), 32, quintets, ShiftIn(word, 8, d), bits + 8)
  {
    SmallPowers();
    hide Pow2, ShiftIn, Value, Carries;
    ReadGroup(256, bytes, 8, d, 32, quintets, word, bits);
  }

  lemma ReadQuintet(quintets: seq<nat>, d: nat, bytes: seq<nat>, word: nat, bits: nat)
    requires bits < 8 && d < 32 && Carries(Value(32, quintets), 256, bytes, word, bits)
    ensures Carries(Value(32, quintets + [d]), 256, bytes, ShiftIn(word, 5, d), bits + 5)
  {
    SmallPowers();
    hide Pow2, ShiftIn, Value, Carries;
    ReadGroup(32, quintets, 5, d, 256, bytes, word, bits);
  }

  lemma WriteQuintet(n: nat, quintets: seq<nat>, word: nat, bits: nat)
    requires bits >= 5 && Carries(n, 32, quintets, word, bits)
    ensures Extract(word, bits - 5, 5) < 32
    ensures Carries(n, 32, quintets + [Extract(word, bits - 5, 5)], word, bits - 5)
  {
    SmallPowers();
    assert Extract(word, bits - 5, 5) < 32;
    hide Pow2, Extract, Value, Carries;
    WriteGroup(n, 32, 5, quintets, word, bits);
  }

  lemma WriteByte(n: nat, bytes: seq<nat>, word: nat, bits: nat)
    requires bits >= 8 && Carries(n, 256, bytes, word, bits)
    ensures Extract(word, bits - 8, 8) < 256
    ensures Carries(n, 256, bytes + [Extract(word, bits - 8, 8)], word, bits - 8)
  {
    SmallPowers();
    assert Extract(word, bits - 8, 8) < 256;
    hide Pow2, Extract, Value, Carries;
    WriteGroup(n, 256, 8, bytes, word, bits);
  }

  // ── the alphabet ──

  const ALPHABET := "ABCDEFGHIJKLMNOPQRSTUVWXYZ234567"

  function Letter(quintet: nat): char
    requires quintet < 32
  {
    ALPHABET[quintet]
  }

  /**
   * `toUpperCase()` of one character, where it holds a letter of the alphabet:
   * the ASCII letters and the 17 others listed in UnicodeData and SpecialCasing.
   * Every other character stands for itself; what it becomes is outside the
   * alphabet and is not an equals sign.
   */
  function UpperForm(c: char): string {
    if 'a' <= c <= 'z' then [(c as int - 32) as char]
    else if c < '\U{80}' then [c]
    else if c == '\U{DF}' then "SS"
    else if c == '\U{131}' then "I"
    else if c == '\U{149}' then "\U{2BC}N"
    else if c == '\U{17F}' then "S"
    else if c == '\U{1F0}' then "J\U{30C}"
    else if c == '\U{1E96}' then "H\U{331}"
    else if c == '\U{1E97}' then "T\U{308}"
    else if c == '\U{1E98}' then "W\U{30A}"
    else if c == '\U{1E99}' then "Y\U{30A}"
    else if c == '\U{1E9A}' then "A\U{2BE}"
    else if c == '\U{FB00}' then "FF"
    else if c == '\U{FB01}' then "FI"
    else if c == '\U{FB02}' then "FL"
    else if c == '\U{FB03}' then "FFI"
    else if c == '\U{FB04}' then "FFL"
    else if c == '\U{FB05}' || c == '\U{FB06}' then "ST"
    else [c]
  }

  /** The three characters outside the alphabet whose lower-case forms go back to letters in it. */
  predicate LowersIntoAlphabet(c: char) {
    c == '\U{130}' || c == '\U{1E9E}' || c == '\U{212A}'
  }

  /** `toLowerCase()` of one character, as far as the alphabet can tell. */
  function LowerForm(c: char): string {
    if 'A' <= c <= 'Z' then [(c as int + 32) as char]
    else if c == '\U{130}' then "i\U{307}"
    else if c == '\U{1E9E}' then "\U{DF}"
    else if c == '\U{212A}' then "k"
    else [c]
  }

  /** A text changed character by character. */
  function Each(text: string, form: char -> string): string {
    if text == "" then "" else Each(text[..|text| - 1], form) + form(text[|text| - 1])
  }

  /** `alpha.indexOf(c)`, or None for a character outside the alphabet. */
  function IndexOf(c: char): (i: Option<nat>)
    ensures i.Some? ==> i.value < 32
  {
    if 'A' <= c <= 'Z' then Some(c as int - 'A' as int)
    else if '2' <= c <= '7' then Some(c as int - '2' as int + 26)
    else None
  }

  lemma IndexOfLetter(c: char)
    ensures IndexOf(c).Some? ==> Letter(IndexOf(c).value) == c
    ensures forall q: nat | q < 32 :: Letter(q) == c <==> IndexOf(c) == Some(q)
  {
  }

  /** What the letters of an upper-case text denote; anything else is passed over. */
  function Letters(text: string): (quintets: seq<nat>)
    ensures Below(32, quintets)
  {
    if text == "" then []
    else
      Letters(text[..|text| - 1])
        + match IndexOf(text[|text| - 1]) case Some(i) => [i] case None => []
  }

  /** What one character of the input contributes. */
  function Contribution(c: char): (quintets: seq<nat>)
    ensures Below(32, quintets)
  {
    Letters(UpperForm(c))
  }

  function Quintets(text: string): (quintets: seq<nat>)
    ensures Below(32, quintets)
  {
    if text == "" then [] else Quintets(text[..|text| - 1]) + Contribution(text[|text| - 1])
  }

  lemma LettersAppend(text: string, c: char)
    ensures Letters(text + [c]) == Letters(text) + match IndexOf(c) case Some(i) => [i] case None => []
  {
    assert (text + [c])[..|text|] == text;
  }

  lemma {:induction false} LettersConcat(a: string, b: string)
    ensures Letters(a + b) == Letters(a) + Letters(b)
  {
    if b == "" {
      assert a + b == a;
    } else {
      var front, c := b[..|b| - 1], b[|b| - 1];
      LettersConcat(a, front);
      assert b == front + [c] && a + b == (a + front) + [c];
      LettersAppend(a + front, c);
      LettersAppend(front, c);
      hide Letters, IndexOf;
    }
  }

  lemma OneLetter(c: char)
    ensures Letters([c]) == match IndexOf(c) case Some(i) => [i] case None => []
  {
    assert [c][..0] == "";
  }

  lemma TwoLetters(c: char, d: char)
    ensures Letters([c, d]) == Letters([c]) + Letters([d])
  {
    assert [c, d] == [c] + [d];
    LettersConcat([c], [d]);
  }

  lemma QuintetsAppend(text: string, c: char)
    ensures Quintets(text + [c]) == Quintets(text) + Contribution(c)
  {
    assert (text + [c])[..|text|] == text;
  }

  lemma {:induction false} QuintetsConcat(a: string, b: string)
    ensures Quintets(a + b) == Quintets(a) + Quintets(b)
  {
    hide *;
    if b == "" {
      CaseOfNothing();
      assert a + b == a && Quintets(a) + [] == Quintets(a);
    } else {
      var front, c := b[..|b| - 1], b[|b| - 1];
      QuintetsConcat(a, front);
      assert b == front + [c] && a + b == (a + front) + [c];
      QuintetsAppend(a + front, c);
      QuintetsAppend(front, c);
      Text.Assoc(Quintets(a), Quintets(front), Contribution(c));
    }
  }

  /** `str.replace(/=+$/, '')`. */
  function StripPadding(text: string): string {
    if text != "" && text[|text| - 1] == '=' then StripPadding(text[..|text| - 1]) else text
  }

  /** A character changes nothing, wherever it stands, exactly when its upper-case form holds no alphabet letter. */
  lemma IgnoredExactlyWhenStray(a: string, c: char, b: string)
    ensures Quintets(a + [c] + b) == Quintets(a + b) <==>
      forall i | 0 <= i < |UpperForm(c)| :: IndexOf(UpperForm(c)[i]).None?
  {
    QuintetsConcat(a + [c], b);
    QuintetsConcat(a, b);
    QuintetsAppend(a, c);
    NoLetters(UpperForm(c));
    hide Quintets, UpperForm, Letters, IndexOf;
    Text.Assoc(Quintets(a), Contribution(c), Quintets(b));
    if Contribution(c) == [] {
      assert Quintets(a) + [] == Quintets(a);
    } else {
      assert |Quintets(a) + Contribution(c) + Quintets(b)| > |Quintets(a) + Quintets(b)|;
    }
  }

  lemma {:induction false} NoLetters(text: string)
    ensures Letters(text) == [] <==> forall i | 0 <= i < |text| :: IndexOf(text[i]).None?
  {
    hide IndexOf;
    if text != "" {
      NoLetters(text[..|text| - 1]);
    }
  }

  lemma EachAppend(text: string, c: char, form: char -> string)
    ensures Each(text + [c], form) == Each(text, form) + form(c)
  {
    assert (text + [c])[..|text|] == text;
  }

  /** Reading an upper-cased text letter by letter is reading the text. */
  lemma {:induction false} LettersOfUpper(text: string)
    ensures Letters(Each(text, UpperForm)) == Quintets(text)
  {
    if text != "" {
      var front, c := text[..|text| - 1], text[|text| - 1];
      LettersOfUpper(front);
      LettersConcat(Each(front, UpperForm), UpperForm(c));
      hide UpperForm, Letters, IndexOf;
    }
  }

  /** ASCII apart from the small letters, and the marks that some upper-case forms hold. */
  predicate Settled(c: char) {
    (c < '\U{80}' && !('a' <= c <= 'z')) || '\U{2B0}' <= c <= '\U{36F}'
  }

  lemma UpperFormSettles(c: char)
    ensures UpperForm(c) == [c] || forall i | 0 <= i < |UpperForm(c)| :: Settled(UpperForm(c)[i])
  {
  }

  lemma SettledStays(c: char)
    requires Settled(c)
    ensures UpperForm(c) == [c]
  {
  }

  lemma {:induction false} QuintetsAreLetters(text: string)
    requires forall i | 0 <= i < |text| :: UpperForm(text[i]) == [text[i]]
    ensures Quintets(text) == Letters(text)
  {
    hide UpperForm, IndexOf;
    if text != "" {
      QuintetsAreLetters(text[..|text| - 1]);
      OneLetter(text[|text| - 1]);
    }
  }

  /** Upper-casing twice tells the alphabet nothing new. */
  lemma UpperContributes(c: char)
    ensures Quintets(UpperForm(c)) == Contribution(c)
  {
    UpperFormSettles(c);
    hide UpperForm, Quintets, Letters, Settled;
    if UpperForm(c) != [c] {
      forall i | 0 <= i < |UpperForm(c)| ensures UpperForm(UpperForm(c)[i]) == [UpperForm(c)[i]] {
        SettledStays(UpperForm(c)[i]);
      }
    }
    QuintetsAreLetters(UpperForm(c));
  }

  lemma QuintetsOfOne(c: char)
    ensures Quintets([c]) == Contribution(c)
  {
    assert [c][..0] == "";
    hide Letters, UpperForm;
  }

  lemma CapitalLetter(c: char, d: char)
    requires 'A' <= c <= 'Z' && d as int == c as int + 32
    ensures Contribution(d) == Contribution(c) == [c as int - 'A' as int]
  {
    OneLetter(c);
    assert UpperForm(d) == [c] && UpperForm(c) == [c];
    hide Letters, UpperForm;
  }

  lemma DottedI()
    ensures |Quintets("i\U{307}")| > 0
  {
    var i: char, dot: char :| i == 'i' && dot == '\U{307}';
    CapitalLetter('I', i);
    QuintetsOfOne(i);
    QuintetsConcat([i], [dot]);
    assert [i] + [dot] == "i\U{307}";
    hide Quintets, Contribution;
  }

  lemma SharpS()
    ensures |Quintets("\U{DF}")| > 0 && Contribution('\U{1E9E}') == []
  {
    var s: char, big: char :| s == '\U{DF}' && big == '\U{1E9E}';
    QuintetsOfOne(s);
    OneLetter('S');
    TwoLetters('S', 'S');
    OneLetter(big);
    assert UpperForm(s) == ['S', 'S'] && UpperForm(big) == [big];
    assert [s] == "\U{DF}";
    hide Quintets, Letters, UpperForm;
  }

  lemma Kelvin()
    ensures |Quintets("k")| > 0
    ensures Contribution('\U{212A}') == [] && Contribution('\U{130}') == []
  {
    var k: char, kelvin: char, dotted: char :| k == 'k' && kelvin == '\U{212A}' && dotted == '\U{130}';
    CapitalLetter('K', k);
    QuintetsOfOne(k);
    OneLetter(kelvin);
    OneLetter(dotted);
    assert UpperForm(kelvin) == [kelvin] && UpperForm(dotted) == [dotted];
    assert [k] == "k";
    hide Quintets, Letters, UpperForm;
  }

  /** Lower-casing loses nothing, and brings three characters into the alphabet. */
  lemma LowerContributes(c: char)
    ensures !LowersIntoAlphabet(c) ==> Quintets(LowerForm(c)) == Contribution(c)
    ensures LowersIntoAlphabet(c) ==> Contribution(c) == [] && |Quintets(LowerForm(c))| > 0
  {
    hide Quintets, Letters, UpperForm, Contribution;
    if 'A' <= c <= 'Z' {
      CapitalLetter(c, (c as int + 32) as char);
      QuintetsOfOne((c as int + 32) as char);
    } else if LowersIntoAlphabet(c) {
      DottedI();
      SharpS();
      Kelvin();
    } else {
      QuintetsOfOne(c);
    }
  }

  predicate HasLowering(text: string) {
    exists i | 0 <= i < |text| :: LowersIntoAlphabet(text[i])
  }

  lemma LoweringAppends(front: string, c: char)
    ensures HasLowering(front + [c]) <==> HasLowering(front) || LowersIntoAlphabet(c)
  {
    assert (front + [c])[|front|] == c && forall i | 0 <= i < |front| :: (front + [c])[i] == front[i];
    hide LowersIntoAlphabet;
  }

  lemma CaseOfNothing()
    ensures Quintets("") == Quintets(Each("", UpperForm)) == Quintets(Each("", LowerForm)) == [] && !HasLowering("")
  {
  }

  lemma CaseStep(front: string, c: char)
    requires Quintets(Each(front, UpperForm)) == Quintets(front)
    requires Quintets(Each(front, LowerForm)) == Quintets(front) <==> !HasLowering(front)
    requires |Quintets(Each(front, LowerForm))| >= |Quintets(front)| + if HasLowering(front) then 1 else 0
    ensures var text := front + [c];
      && Quintets(Each(text, UpperForm)) == Quintets(text)
      && (Quintets(Each(text, LowerForm)) == Quintets(text) <==> !HasLowering(text))
      && |Quintets(Each(text, LowerForm))| >= |Quintets(text)| + if HasLowering(text) then 1 else 0
  {
    hide *;
    EachAppend(front, c, UpperForm);
    EachAppend(front, c, LowerForm);
    QuintetsConcat(Each(front, UpperForm), UpperForm(c));
    QuintetsConcat(Each(front, LowerForm), LowerForm(c));
    QuintetsAppend(front, c);
    UpperContributes(c);
    LowerContributes(c);
    LoweringAppends(front, c);
  }

  /**
   * Decoding ignores case: upper-casing a text never matters, and lower-casing
   * it matters exactly when it holds one of three characters that are outside
   * the alphabet and whose lower-case forms are not.
   */
  lemma {:induction false} CaseIsIgnored(text: string)
    ensures Quintets(Each(text, UpperForm)) == Quintets(text)
    ensures Quintets(Each(text, LowerForm)) == Quintets(text) <==> !HasLowering(text)
    ensures |Quintets(Each(text, LowerForm))| >= |Quintets(text)| + if HasLowering(text) then 1 else 0
  {
    hide *;
    if text == "" {
      CaseOfNothing();
    } else {
      var front, c := text[..|text| - 1], text[|text| - 1];
      CaseIsIgnored(front);
      CaseStep(front, c);
      assert text == front + [c];
    }
  }

  /** Trailing padding does not matter. */
  lemma {:induction false} PaddingIsIgnored(text: string)
    ensures Quintets(StripPadding(text)) == Quintets(text)
    ensures Letters(StripPadding(text)) == Letters(text)
  {
    if text != "" && text[|text| - 1] == '=' {
      PaddingIsIgnored(text[..|text| - 1]);
      OneLetter('=');
    }
  }

  predicate InAlphabet(text: string) {
    forall i | 0 <= i < |text| :: IndexOf(text[i]).Some?
  }

  method Base32Encode(bytes: seq<nat>) returns (out: string)
    requires Below(256, bytes)
    ensures Encodes(bytes, Quintets(out))
    ensures |Quintets(out)| == |out| && InAlphabet(out)
  {
    hide Pow2, ShiftIn, Extract, Value, Carries, Encodes, Quintets, Letter, UpperForm, Letters;
    var bits: nat, word: nat := 0, 0;
    out := "";
    NoQuintets();
    Empty(32, 256, bits);
    for i := 0 to |bytes|
      invariant 0 <= bits < 5 && 8 * i == 5 * |out| + bits
      invariant |Quintets(out)| == |out| && InAlphabet(out)
      invariant Carries(Value(256, bytes[..i]), 32, Quintets(out), word, bits)
    {
      assert bytes[..i + 1] == bytes[..i] + [bytes[i]];
      ReadByte(bytes[..i], bytes[i], Quintets(out), word, bits);
      word := ShiftIn(word, 8, bytes[i]);
      bits := bits + 8;
      while bits >= 5
        invariant 0 <= bits && 8 * (i + 1) == 5 * |out| + bits
        invariant |Quintets(out)| == |out| && InAlphabet(out)
        invariant Carries(Value(256, bytes[..i + 1]), 32, Quintets(out), word, bits)
      {
        WriteQuintet(Value(256, bytes[..i + 1]), Quintets(out), word, bits);
        LetterAppended(out, Extract(word, bits - 5, 5));
        out := out + [Letter(Extract(word, bits - 5, 5))];
        bits := bits - 5;
      }
    }
    assert bytes[..|bytes|] == bytes;
    if bits > 0 {
      Padded(bytes, Quintets(out), word, bits);
      LetterAppended(out, ShiftIn(word, 5 - bits, 0) % 32);
      out := out + [Letter(ShiftIn(word, 5 - bits, 0) % 32)];
    } else {
      NotPadded(bytes, Quintets(out), word);
    }
  }

  lemma NoQuintets()
    ensures Quintets("") == []
  {
  }

  lemma LetterAppended(out: string, q: nat)
    requires q < 32
    ensures Quintets(out + [Letter(q)]) == Quintets(out) + [q]
    ensures InAlphabet(out) ==> InAlphabet(out + [Letter(q)])
  {
    IndexOfLetter(Letter(q));
    QuintetsAppend(out, Letter(q));
    OneLetter(Letter(q));
    hide Quintets, Letters;
  }

  method Base32Decode(str: string) returns (bytes: seq<nat>)
    ensures Decodes(Quintets(str), bytes)
  {
    hide Pow2, ShiftIn, Extract, Value, Carries, Decodes, Quintets, Letters, UpperForm, StripPadding, Each;
    var bits: nat, word: nat := 0, 0;
    bytes := [];
    var text := StripPadding(Each(str, UpperForm));
    NoLetters("");
    Empty(256, 32, bits);
    for i := 0 to |text|
      invariant 0 <= bits < 8 && 5 * |Letters(text[..i])| == 8 * |bytes| + bits
      invariant Below(256, bytes)
      invariant Carries(Value(32, Letters(text[..i])), 256, bytes, word, bits)
    {
      assert text[..i + 1] == text[..i] + [text[i]];
      LettersAppend(text[..i], text[i]);
      var index := IndexOf(text[i]);
      if index.None? {
        assert Letters(text[..i + 1]) == Letters(text[..i]);
        continue;
      }
      ReadQuintet(Letters(text[..i]), index.value, bytes, word, bits);
      word := ShiftIn(word, 5, index.value);
      bits := bits + 5;
      if bits >= 8 {
        WriteByte(Value(32, Letters(text[..i + 1])), bytes, word, bits);
        bytes := bytes + [Extract(word, bits - 8, 8)];
        bits := bits - 8;
      }
    }
    assert text[..|text|] == text;
    WholeBytes(Letters(text), bytes, word, bits);
    PaddingIsIgnored(Each(str, UpperForm));
    LettersOfUpper(str);
  }

  /**
   * Encoding and then decoding whatever arrives: any text that spells the
   * encoding, in any case, padded and with any stray characters, gives the bytes.
   */
  method RoundTrip(bytes: seq<nat>, received: string) returns (sent: string, back: seq<nat>)
    requires Below(256, bytes)
    ensures Encodes(bytes, Quintets(sent)) && InAlphabet(sent)
    ensures Decodes(Quintets(received), back)
    ensures Quintets(received) == Quintets(sent) ==> back == bytes
  {
    sent := Base32Encode(bytes);
    back := Base32Decode(received);
    if Quintets(received) == Quintets(sent) {
      DecodeUndoesEncode(bytes, Quintets(sent), back);
    }
  }
}
