/** Reading an IPv6 address into its 16 bytes (src/security/ip-allowlist.guard.ts:17-90). */
module Ipv6Text {
  import opened Wrappers
  import opened Text

  // ── the scanning primitives the reader uses ──

  /** `s.indexOf(c)`. */
  function Find(s: string, c: char): (i: Option<nat>)
    ensures i.Some? ==> i.value < |s|
  {
    if s == "" then None
    else if s[0] == c then Some(0)
    else match Find(s[1..], c) case Some(i) => Some(i + 1) case None => None
  }

  /** `s.indexOf('::')`. */
  function FindDouble(s: string): (i: Option<nat>)
    ensures i.Some? ==> i.value + 2 <= |s|
  {
    if |s| < 2 then None
    else if s[0] == ':' && s[1] == ':' then Some(0)
    else match FindDouble(s[1..]) case Some(i) => Some(i + 1) case None => None
  }

  /** The length of `s` up to and including its last colon: `s.lastIndexOf(':') + 1`. */
  function PastLastColon(s: string): (n: nat)
    ensures n <= |s|
  {
    if s == "" then 0 else if s[|s| - 1] == ':' then |s| else PastLastColon(s[..|s| - 1])
  }

  /** `parts.filter(Boolean)`. */
  function NonEmpty(parts: seq<string>): seq<string> {
    if parts == [] then []
    else (if parts[0] == "" then [] else [parts[0]]) + NonEmpty(parts[1..])
  }

  // ── groups and octets ──

  predicate AllHex(s: string) {
    forall i | 0 <= i < |s| :: IsHexDigit(s[i])
  }

  function HexOf(s: string): nat
    requires AllHex(s)
  {
    if s == "" then 0 else HexOf(s[..|s| - 1]) * 16 + HexDigitOf(s[|s| - 1])
  }

  /** `/^[0-9a-fA-F]{1,4}$/`. */
  predicate IsGroup(s: string) {
    1 <= |s| <= 4 && AllHex(s)
  }

  /** `/^\d{1,3}$/` with a value of at most 255. */
  predicate IsOctet(s: string) {
    1 <= |s| <= 3 && AllDigits(s) && NatOf(s) <= 255
  }

  predicate AreOctets(parts: seq<string>) {
    && |parts| == 4
    && IsOctet(parts[0]) && IsOctet(parts[1]) && IsOctet(parts[2]) && IsOctet(parts[3])
  }

  function PairOctets(parts: seq<string>): (groups: seq<nat>)
    requires AreOctets(parts)
    ensures |groups| == 2
  {
    [NatOf(parts[0]) * 256 + NatOf(parts[1]), NatOf(parts[2]) * 256 + NatOf(parts[3])]
  }

  /** The two groups a dotted quad contributes. */
  function QuadGroups(tail: string): (groups: Option<seq<nat>>)
    ensures groups.Some? ==> |groups.value| == 2
  {
    var octets := Split(tail, '.');
    if AreOctets(octets) then Some(PairOctets(octets)) else None
  }

  function GroupValues(parts: seq<string>): (groups: Option<seq<nat>>)
    ensures groups.Some? ==> |groups.value| == |parts|
  {
    if parts == [] then Some([])
    else
      var n := |parts| - 1;
      match GroupValues(parts[..n])
      case Some(groups) => if IsGroup(parts[n]) then Some(groups + [HexOf(parts[n])]) else None
      case None => None
  }

  function BytesOf(groups: seq<nat>): (bytes: seq<nat>)
    ensures |bytes| == 2 * |groups|
    ensures forall i | 0 <= i < |bytes| :: bytes[i] < 256
  {
    if groups == [] then []
    else
      var n := |groups| - 1;
      BytesOf(groups[..n]) + [groups[n] / 256 % 256, groups[n] % 256]
  }

  function ZeroGroups(n: nat): (zeros: seq<nat>)
    ensures |zeros| == n && forall i | 0 <= i < n :: zeros[i] == 0
  {
    seq(n, _ => 0)
  }

  // ── the reader ──

  /** The address proper: no surrounding space, brackets or zone index. */
  function Bare(addr: string): string {
    var trimmed := Trim(addr);
    var input :=
      if |trimmed| >= 2 && trimmed[0] == '[' && trimmed[|trimmed| - 1] == ']' then trimmed[1..|trimmed| - 1]
      else trimmed;
    match Find(input, '%')
    case Some(zone) => input[..zone]
    case None => input
  }

  /** The groups around the gap a `::` leaves, or the full list when there is none. */
  function Explicit(input: string, quad: seq<nat>): (groups: Option<seq<nat>>)
    requires |quad| <= 7
    ensures groups.Some? ==> |groups.value| == 8
  {
    match FindDouble(input)
    case Some(at) =>
      if FindDouble(input[at + 1..]).Some? then None
      else
        (match (GroupValues(NonEmpty(Split(input[..at], ':'))), GroupValues(NonEmpty(Split(input[at + 2..], ':'))))
         case (Some(head), Some(tail)) =>
           if |head| + |tail| + |quad| > 7 then None
           else Some(head + ZeroGroups(8 - |head| - |tail| - |quad|) + tail + quad)
         case _ => None)
    case None =>
      match GroupValues(NonEmpty(Split(input, ':')))
      case Some(groups) => if |groups| + |quad| != 8 then None else Some(groups + quad)
      case None => None
  }

  function Groups(addr: string): (groups: Option<seq<nat>>)
    ensures groups.Some? ==> |groups.value| == 8
  {
    var input := Bare(addr);
    var cut := PastLastColon(input);
    var tail := input[cut..];
    if input == "" then None
    else if '.' in tail then
      match QuadGroups(tail)
      case Some(quad) => Explicit(input[..cut], quad)
      case None => None
    else Explicit(input, [])
  }

  function Parse(addr: string): (bytes: Option<seq<nat>>)
    ensures bytes.Some? ==> |bytes.value| == 16 && forall i | 0 <= i < 16 :: bytes.value[i] < 256
  {
    match Groups(addr)
    case Some(groups) => Some(BytesOf(groups))
    case None => None
  }

  method ParseGroups(parts: seq<string>) returns (groups: Option<seq<nat>>)
    ensures groups == GroupValues(parts)
  {
    var values: seq<nat> := [];
    for i := 0 to |parts|
      invariant GroupValues(parts[..i]) == Some(values)
    {
      assert parts[..i + 1][..i] == parts[..i];
      if !IsGroup(parts[i]) {
        InvalidGroup(parts, i);
        return None;
      }
      values := values + [HexOf(parts[i])];
    }
    assert parts[..|parts|] == parts;
    return Some(values);
  }

  lemma {:induction false} InvalidGroup(parts: seq<string>, i: nat)
    requires i < |parts| && !IsGroup(parts[i])
    ensures GroupValues(parts) == None
  {
    if i < |parts| - 1 {
      InvalidGroup(parts[..|parts| - 1], i);
    }
  }

  method FillGap(input: string, quad: seq<nat>) returns (groups: Option<seq<nat>>)
    requires |quad| <= 7
    ensures groups == Explicit(input, quad)
  {
    hide GroupValues, NonEmpty, Split, FindDouble;
    var doubleColon := FindDouble(input);
    var head, tailParts := NonEmpty(Split(input, ':')), [];
    if doubleColon.Some? {
      if FindDouble(input[doubleColon.value + 1..]).Some? {
        return None;
      }
      head := NonEmpty(Split(input[..doubleColon.value], ':'));
      tailParts := NonEmpty(Split(input[doubleColon.value + 2..], ':'));
    }
    var headGroups := ParseGroups(head);
    var tailGroups := ParseGroups(tailParts);
    NoGroups();
    if headGroups.None? || tailGroups.None? {
      return None;
    }
    var count := |headGroups.value| + |tailGroups.value| + |quad|;
    if doubleColon.None? {
      if count != 8 {
        return None;
      }
      assert headGroups.value + tailGroups.value + quad == headGroups.value + quad;
      return Some(headGroups.value + tailGroups.value + quad);
    }
    if count > 7 {
      return None;
    }
    return Some(headGroups.value + ZeroGroups(8 - count) + tailGroups.value + quad);
  }

  lemma NoGroups()
    ensures GroupValues([]) == Some([])
  {
  }

  method Ipv6ToBytes(addr: string) returns (r: Option<seq<nat>>)
    ensures r == Parse(addr)
  {
    var input := Bare(addr);
    if input == "" {
      return None;
    }
    var quad: seq<nat> := [];
    var cut := PastLastColon(input);
    if '.' in input[cut..] {
      var last := QuadGroups(input[cut..]);
      if last.None? {
        return None;
      }
      quad := last.value;
      input := input[..cut];
    }
    var groups := FillGap(input, quad);
    if groups.None? {
      return None;
    }
    var bytes: seq<nat> := [];
    for i := 0 to |groups.value|
      invariant bytes == BytesOf(groups.value[..i])
    {
      assert groups.value[..i + 1][..i] == groups.value[..i];
      var group := groups.value[i];
      bytes := bytes + [group / 256 % 256, group % 256];
    }
    assert groups.value[..|groups.value|] == groups.value;
    return Some(bytes);
  }
}

/** Every way of writing an address reads back as the same bytes (section 2.2 of RFC 4291). */
module Ipv6Forms {
  import opened Wrappers
  import opened Text
  import opened Ipv6Text

  /**
   * How an address is spelled out: the groups before and after an optional `::`,
   * and an optional dotted quad. The reader also lets a colon open the groups, or
   * close them without a quad; those two are no part of the standard's forms.
   */
  datatype Spelling = Spelling(
    head: seq<string>, gap: bool, tail: seq<string>, quad: seq<string>, opening: bool, closing: bool)
  {
    predicate Valid() {
      && AreGroups(head) && AreGroups(tail)
      && (quad == [] || AreOctets(quad))
      && (if gap then Written() <= 7 else tail == [] && Written() == 8)
    }

    function QuadSize(): nat {
      if quad == [] then 0 else 2
    }

    /** The number of groups written out. */
    function Written(): nat {
      |head| + |tail| + QuadSize()
    }

    /** Everything before the dotted quad. */
    function Front(): string {
      if gap then Colons(head, opening, false) + "::" + Colons(tail, false, Closed())
      else Colons(head, opening, Closed())
    }

    predicate Closed() {
      closing || quad != []
    }

    function Spelled(): string {
      Front() + Join(quad, ".")
    }

    /** The eight groups it stands for. */
    function Denotes(): seq<nat>
      requires Valid()
    {
      Values(head) + ZeroGroups(8 - Written()) + Values(tail) + QuadValues()
    }

    function QuadValues(): seq<nat>
      requires Valid()
    {
      if quad == [] then [] else PairOctets(quad)
    }
  }

  /** Groups joined by colons, with a colon before the first or after the last one. */
  function Colons(parts: seq<string>, opening: bool, closing: bool): string {
    (if opening && parts != [] then ":" else "") + JoinEnd(parts, closing)
  }

  function JoinEnd(parts: seq<string>, closing: bool): string {
    Join(parts, ":") + if closing && parts != [] then ":" else ""
  }

  function Values(parts: seq<string>): seq<nat>
    requires AreGroups(parts)
  {
    seq(|parts|, i requires 0 <= i < |parts| && IsGroup(parts[i]) => HexOf(parts[i]))
  }

  predicate NoneOf(s: string, c: char) {
    forall i | 0 <= i < |s| :: s[i] != c
  }

  predicate AreGroups(parts: seq<string>) {
    forall i | 0 <= i < |parts| :: IsGroup(parts[i])
  }

  // ── splitting undoes joining ──

  lemma {:induction false} KeepGroups(parts: seq<string>, rest: seq<string>)
    requires AreGroups(parts) && NonEmpty(rest) == []
    ensures NonEmpty(parts + rest) == parts
  {
    if parts == [] {
      assert parts + rest == rest;
    } else {
      assert (parts + rest)[1..] == parts[1..] + rest;
      KeepGroups(parts[1..], rest);
    }
  }

  lemma {:induction false} SplitJoinEnd(parts: seq<string>, closing: bool)
    requires AreGroups(parts)
    ensures NonEmpty(Split(JoinEnd(parts, closing), ':')) == parts
  {
    if parts == [] {
      assert NonEmpty([""]) == [];
    } else {
      assert forall p <- parts :: ':' !in p;
      SplitJoin(parts, ':');
      if closing {
        assert forall p <- parts + [""] :: ':' !in p;
        SplitJoin(parts + [""], ':');
        JoinClosed(parts);
        assert NonEmpty([""]) == [] + NonEmpty([""][1..]);
        KeepGroups(parts, [""]);
      } else {
        assert JoinEnd(parts, false) == Join(parts, ":");
        assert parts + [] == parts;
        KeepGroups(parts, []);
      }
    }
  }

  lemma SplitColons(parts: seq<string>, opening: bool, closing: bool)
    requires AreGroups(parts)
    ensures NonEmpty(Split(Colons(parts, opening, closing), ':')) == parts
  {
    hide JoinEnd;
    SplitJoinEnd(parts, closing);
    if opening && parts != [] {
      SplitOpening(JoinEnd(parts, closing));
    } else {
      assert Colons(parts, opening, closing) == JoinEnd(parts, closing);
    }
  }

  lemma SplitOpening(rest: string)
    ensures NonEmpty(Split(":" + rest, ':')) == NonEmpty(Split(rest, ':'))
  {
    assert (":" + rest)[1..] == rest;
    assert ([""] + Split(rest, ':'))[1..] == Split(rest, ':');
  }

  lemma {:induction false} JoinClosed(parts: seq<string>)
    requires parts != []
    ensures Join(parts + [""], ":") == Join(parts, ":") + ":"
  {
    assert (parts + [""])[1..] == parts[1..] + [""];
    if |parts| == 1 {
      assert parts[1..] + [""] == [""];
      assert Join([""], ":") == "";
    } else {
      JoinClosed(parts[1..]);
    }
  }

  lemma {:induction false} GroupValuesOf(parts: seq<string>)
    requires AreGroups(parts)
    ensures GroupValues(parts) == Some(Values(parts))
  {
    if parts != [] {
      var n := |parts| - 1;
      GroupValuesOf(parts[..n]);
      assert Values(parts) == Values(parts[..n]) + [HexOf(parts[n])];
    }
  }

  // ── where the double colon is found ──

  lemma {:induction false} DoublePastGroup(group: string, rest: string)
    requires NoneOf(group, ':')
    ensures FindDouble(group + rest) ==
      match FindDouble(rest) case Some(i) => Some(|group| + i) case None => None
  {
    if group == "" {
      assert group + rest == rest;
    } else {
      assert (group + rest)[1..] == group[1..] + rest;
      DoublePastGroup(group[1..], rest);
    }
  }

  lemma DoublePastColon(rest: string)
    requires rest == "" || rest[0] != ':'
    ensures FindDouble(":" + rest) == match FindDouble(rest) case Some(i) => Some(1 + i) case None => None
  {
    assert (":" + rest)[1..] == rest;
  }

  lemma GroupHasNoColon(group: string)
    requires IsGroup(group)
    ensures NoneOf(group, ':') && NoneOf(group, '.') && NoneOf(group, '%') && group[0] != '['
    ensures !IsSpace(group[0]) && !IsSpace(group[|group| - 1])
  {
    assert IsHexDigit(group[0]) && IsHexDigit(group[|group| - 1]);
  }

  /** The first double colon after some groups is the one that follows them, if any. */
  lemma {:induction false} DoubleAfter(parts: seq<string>, rest: string)
    requires AreGroups(parts)
    requires rest == "" || rest == ":" || (|rest| >= 2 && rest[0] == rest[1] == ':')
    ensures FindDouble(Join(parts, ":") + rest) ==
      if |rest| >= 2 then Some(|Join(parts, ":")|) else None
  {
    if parts == [] {
      assert Join(parts, ":") + rest == rest;
    } else if |parts| == 1 {
      GroupHasNoColon(parts[0]);
      DoublePastGroup(parts[0], rest);
    } else {
      var joined := Join(parts[1..], ":");
      var tail := joined + rest;
      GroupHasNoColon(parts[0]);
      GroupHasNoColon(parts[1]);
      assert joined[0] == parts[1][0];
      assert Join(parts, ":") == parts[0] + ":" + joined;
      hide FindDouble, Join, IsGroup;
      DoubleAfter(parts[1..], rest);
      DoublePastColon(tail);
      DoublePastGroup(parts[0], ":" + tail);
      Assoc(parts[0] + ":", joined, rest);
      Assoc(parts[0], ":", tail);
    }
  }

  lemma StartsWithGroup(parts: seq<string>, rest: string)
    requires AreGroups(parts) && parts != []
    ensures (Join(parts, ":") + rest)[0] != ':'
  {
    GroupHasNoColon(parts[0]);
    assert Join(parts, ":")[0] == parts[0][0];
  }

  /** The same with a colon before the groups. */
  lemma DoubleAfterColons(parts: seq<string>, opening: bool, rest: string)
    requires AreGroups(parts)
    requires rest == "" || rest == ":" || (|rest| >= 2 && rest[0] == rest[1] == ':')
    ensures FindDouble(Colons(parts, opening, false) + rest) ==
      if |rest| >= 2 then Some(|Colons(parts, opening, false)|) else None
  {
    DoubleAfter(parts, rest);
    var joined := Join(parts, ":");
    hide FindDouble, Join;
    assert JoinEnd(parts, false) == joined;
    if opening && parts != [] {
      StartsWithGroup(parts, rest);
      DoublePastColon(joined + rest);
      Assoc(":", joined, rest);
    } else {
      assert Colons(parts, opening, false) == joined;
    }
  }

  /** Past the gap there is no second double colon. */
  lemma NoSecondDouble(parts: seq<string>, closing: bool)
    requires AreGroups(parts)
    ensures FindDouble(":" + Colons(parts, false, closing)) == None
  {
    assert Colons(parts, false, closing) == JoinEnd(parts, closing);
    if parts == [] {
      assert ":" + Colons(parts, false, closing) == ":";
    } else {
      var rest := if closing then ":" else "";
      DoubleAfter(parts, rest);
      StartsWithGroup(parts, rest);
      DoublePastColon(JoinEnd(parts, closing));
    }
  }

  lemma ExplicitWithGap(head: seq<string>, opening: bool, tail: seq<string>, closing: bool, quad: seq<nat>)
    requires AreGroups(head) && AreGroups(tail) && |head| + |tail| + |quad| <= 7
    ensures Explicit(Colons(head, opening, false) + "::" + Colons(tail, false, closing), quad) ==
      Some(Values(head) + ZeroGroups(8 - |head| - |tail| - |quad|) + Values(tail) + quad)
  {
    hide FindDouble, GroupValues, NonEmpty, Split, Join, AreGroups, Colons;
    var before, after := Colons(head, opening, false), Colons(tail, false, closing);
    CutAtGap(before, after);
    DoubleAfterColons(head, opening, "::" + after);
    NoSecondDouble(tail, closing);
    SplitColons(head, opening, false);
    SplitColons(tail, false, closing);
    GroupValuesOf(head);
    GroupValuesOf(tail);
  }

  lemma CutAtGap(before: string, after: string)
    ensures var front := before + "::" + after;
      && front == before + ("::" + after)
      && front[..|before|] == before
      && front[|before| + 1..] == ":" + after
      && front[|before| + 2..] == after
  {
  }

  lemma ColonsEnd(parts: seq<string>, opening: bool, closing: bool)
    ensures Colons(parts, opening, closing)
      == Colons(parts, opening, false) + if closing && parts != [] then ":" else ""
  {
  }

  lemma ExplicitWithoutGap(head: seq<string>, opening: bool, closing: bool, quad: seq<nat>)
    requires AreGroups(head) && head != [] && |head| + |quad| == 8
    ensures Explicit(Colons(head, opening, closing), quad) == Some(Values(head) + quad)
  {
    hide FindDouble, GroupValues, NonEmpty, Split, Join, AreGroups, Colons;
    DoubleAfterColons(head, opening, if closing then ":" else "");
    ColonsEnd(head, opening, closing);
    SplitColons(head, opening, closing);
    GroupValuesOf(head);
  }

  lemma ExplicitSpelled(a: Spelling)
    requires a.Valid()
    ensures Explicit(a.Front(), a.QuadValues()) == Some(a.Denotes())
  {
    hide Explicit, Values, Colons;
    if a.gap {
      ExplicitWithGap(a.head, a.opening, a.tail, a.Closed(), a.QuadValues());
    } else {
      ExplicitWithoutGap(a.head, a.opening, a.Closed(), a.QuadValues());
      NoValues();
      assert Values(a.head) + ZeroGroups(0) + [] == Values(a.head);
    }
  }

  lemma NoValues()
    ensures Values([]) == []
  {
  }

  // ── the characters of a spelled address ──

  predicate IsAddressChar(c: char) {
    IsHexDigit(c) || c == ':' || c == '.'
  }

  predicate AddressText(s: string) {
    forall i | 0 <= i < |s| :: IsAddressChar(s[i])
  }

  lemma {:induction false} JoinChars(parts: seq<string>, sep: string)
    requires forall i | 0 <= i < |parts| :: AddressText(parts[i])
    requires AddressText(sep)
    ensures AddressText(Join(parts, sep))
    ensures NoneOf(sep, '.') && (forall i | 0 <= i < |parts| :: NoneOf(parts[i], '.')) ==> NoneOf(Join(parts, sep), '.')
    ensures NoneOf(sep, ':') && (forall i | 0 <= i < |parts| :: NoneOf(parts[i], ':')) ==> NoneOf(Join(parts, sep), ':')
  {
    if |parts| > 1 {
      JoinChars(parts[1..], sep);
    }
  }

  lemma ColonsChars(parts: seq<string>, opening: bool, closing: bool)
    requires AreGroups(parts)
    ensures AddressText(Colons(parts, opening, closing)) && NoneOf(Colons(parts, opening, closing), '.')
  {
    forall i | 0 <= i < |parts| ensures AddressText(parts[i]) && NoneOf(parts[i], '.') {
      GroupHasNoColon(parts[i]);
    }
    JoinChars(parts, ":");
  }

  lemma FrontChars(a: Spelling)
    requires a.Valid()
    ensures AddressText(a.Front()) && NoneOf(a.Front(), '.') && |a.Front()| >= 2
    ensures a.quad != [] ==> a.Front()[|a.Front()| - 1] == ':'
  {
    ColonsChars(a.head, a.opening, !a.gap && a.Closed());
    ColonsChars(a.tail, false, a.Closed());
    if !a.gap {
      assert |Join(a.head, ":")| >= 2 by {
        assert Join(a.head, ":") == a.head[0] + ":" + Join(a.head[1..], ":");
      }
    }
  }

  lemma OctetChars(octet: string)
    requires IsOctet(octet)
    ensures AddressText(octet) && NoneOf(octet, ':') && '.' !in octet
  {
    assert forall j | 0 <= j < |octet| :: IsDigit(octet[j]);
  }

  lemma QuadChars(quad: seq<string>)
    requires AreOctets(quad)
    ensures var text := Join(quad, ".");
      && AddressText(text) && NoneOf(text, ':') && '.' in text
      && QuadGroups(text) == Some(PairOctets(quad))
  {
    OctetChars(quad[0]);
    OctetChars(quad[1]);
    OctetChars(quad[2]);
    OctetChars(quad[3]);
    assert Join(quad, ".")[|quad[0]|] == '.';
    hide IsOctet, Join, Split, AddressText, NoneOf;
    assert forall i | 0 <= i < 4 :: AddressText(quad[i]) && NoneOf(quad[i], ':');
    assert forall p <- quad :: '.' !in p;
    DotChars();
    JoinChars(quad, ".");
    SplitJoin(quad, '.');
  }

  lemma DotChars()
    ensures AddressText(".") && NoneOf(".", ':')
  {
  }

  lemma {:induction false} PastLast(front: string, rest: string)
    requires NoneOf(rest, ':') && front != "" && front[|front| - 1] == ':'
    ensures PastLastColon(front + rest) == |front|
  {
    if rest == "" {
      assert front + rest == front;
    } else {
      assert (front + rest)[..|front + rest| - 1] == front + rest[..|rest| - 1];
      PastLast(front, rest[..|rest| - 1]);
    }
  }

  // ── brackets and zone index ──

  lemma {:induction false} FindAfter(s: string, c: char, rest: string)
    requires NoneOf(s, c)
    ensures Find(s + [c] + rest, c) == Some(|s|)
    ensures Find(s, c) == None
  {
    if s == "" {
      assert s + [c] + rest == [c] + rest;
    } else {
      assert (s + [c] + rest)[1..] == s[1..] + [c] + rest;
      FindAfter(s[1..], c, rest);
    }
  }

  /** An address as it may appear in a URL or next to an interface name. */
  function Decorate(address: string, zone: Option<string>, brackets: bool): string {
    var zoned := match zone case Some(name) => address + "%" + name case None => address;
    if brackets then "[" + zoned + "]" else zoned
  }

  /** Trailing spaces of a zone name go with the zone. */
  lemma {:induction false} TrimEndKeeps(front: string, rest: string)
    requires front != "" && !IsSpace(front[|front| - 1])
    ensures exists kept :: TrimEnd(front + rest) == front + kept && kept <= rest
  {
    if rest != "" && IsSpace(rest[|rest| - 1]) {
      var k := |rest| - 1;
      assert (front + rest)[..|front| + k] == front + rest[..k];
      TrimEndKeeps(front, rest[..k]);
      var kept :| TrimEnd(front + rest[..k]) == front + kept && kept <= rest[..k];
      assert kept <= rest;
    } else {
      assert TrimEnd(front + rest) == front + rest;
    }
  }

  lemma BareOfDecorated(address: string, zone: Option<string>, brackets: bool)
    requires address != "" && AddressText(address)
    ensures Bare(Decorate(address, zone, brackets)) == address
  {
    assert IsAddressChar(address[0]) && IsAddressChar(address[|address| - 1]);
    assert NoneOf(address, '%');
    var zoned := match zone case Some(name) => address + "%" + name case None => address;
    if brackets {
      var whole := "[" + zoned + "]";
      NothingToTrim(whole);
      assert whole[1..|whole| - 1] == zoned;
      FindAfter(address, '%', if zone.Some? then zone.value else "");
    } else if zone.None? {
      NothingToTrim(address);
      FindAfter(address, '%', "");
    } else {
      assert zoned == (address + "%") + zone.value;
      assert TrimStart(zoned) == zoned;
      TrimEndKeeps(address + "%", zone.value);
      var kept :| TrimEnd(zoned) == address + "%" + kept;
      FindAfter(address, '%', kept);
    }
  }

  /**
   * Whatever run of zero groups is written as `::`, and whether or not the last
   * two groups are a dotted quad, brackets are put around or a zone is added,
   * the reader returns the sixteen bytes of the eight groups.
   */
  lemma SpellingsAgree(a: Spelling, zone: Option<string>, brackets: bool)
    requires a.Valid()
    ensures Parse(Decorate(a.Spelled(), zone, brackets)) == Some(BytesOf(a.Denotes()))
  {
    hide Explicit, QuadGroups, Join, PastLastColon, Bare, IsOctet, IsGroup;
    var text, quadText := a.Spelled(), Join(a.quad, ".");
    FrontChars(a);
    ExplicitSpelled(a);
    if a.quad == [] {
      NoParts();
      assert text == a.Front();
      assert '.' !in text;
      BareOfDecorated(text, zone, brackets);
    } else {
      QuadChars(a.quad);
      BareOfDecorated(text, zone, brackets);
      PastLast(a.Front(), quadText);
      assert text[..|a.Front()|] == a.Front() && text[|a.Front()|..] == quadText;
    }
  }

  lemma NoParts()
    ensures Join([], ".") == ""
  {
  }

  // ── every address that is read is spelled so ──

  lemma {:induction false} JoinSplit(s: string, sep: char)
    ensures Join(Split(s, sep), [sep]) == s
  {
    if s != "" {
      JoinSplit(s[1..], sep);
      var rest := Split(s[1..], sep);
      if s[0] == sep {
        assert ([""] + rest)[1..] == rest;
        assert [sep] + s[1..] == s;
      } else {
        JoinGrows(s[0], rest, [sep]);
        assert [s[0]] + s[1..] == s;
      }
    }
  }

  lemma JoinGrows(c: char, parts: seq<string>, sep: string)
    requires parts != []
    ensures Join([[c] + parts[0]] + parts[1..], sep) == [c] + Join(parts, sep)
  {
    if |parts| > 1 {
      assert ([[c] + parts[0]] + parts[1..])[1..] == parts[1..];
      Assoc([c], parts[0] + sep, Join(parts[1..], sep));
      Assoc([c], parts[0], sep);
    }
  }

  lemma {:induction false} GroupsOfValues(parts: seq<string>)
    requires GroupValues(parts).Some?
    ensures AreGroups(parts)
  {
    if parts != [] {
      var n := |parts| - 1;
      GroupsOfValues(parts[..n]);
      assert forall i | 0 <= i < n :: parts[i] == parts[..n][i];
    }
  }

  predicate Ends(s: string) {
    s != "" && s[|s| - 1] == ':'
  }

  predicate Starts(s: string) {
    s != "" && s[0] == ':'
  }

  /** A colon that is not doubled ends a field, and the next one is not empty unless the text ends. */
  lemma {:induction false} FirstField(s: string) returns (field: string, rest: Option<string>)
    requires FindDouble(s).None? && !Starts(s)
    ensures NoneOf(field, ':') && (s != "" ==> field != "")
    ensures match rest
      case None => s == field
      case Some(after) => s == field + ":" + after && FindDouble(after).None? && !Starts(after) && field != ""
  {
    if s == "" {
      return "", None;
    }
    if |s| == 1 {
      return s, None;
    }
    var t := s[1..];
    assert FindDouble(t).None?;
    if t[0] == ':' {
      AfterColon(t);
      assert s == [s[0]] + ":" + t[1..];
      return [s[0]], Some(t[1..]);
    }
    field, rest := FirstField(t);
    assert s == [s[0]] + t;
    if rest.Some? {
      Assoc([s[0]], field + ":", rest.value);
      Assoc([s[0]], field, ":");
    }
    field := [s[0]] + field;
  }

  lemma AfterColon(t: string)
    requires FindDouble(t).None? && Starts(t)
    ensures FindDouble(t[1..]).None? && !Starts(t[1..])
  {
  }

  lemma NonEmptyField(field: string, parts: seq<string>)
    ensures NonEmpty([field] + parts) == (if field == "" then [] else [field]) + NonEmpty(parts)
  {
    assert ([field] + parts)[1..] == parts;
  }

  /** A text without a double colon is its non-empty fields, joined, with perhaps a colon at the end. */
  lemma {:induction false} JoinNonEmpty(s: string)
    requires FindDouble(s).None? && !Starts(s)
    ensures s == JoinEnd(NonEmpty(Split(s, ':')), Ends(s))
    decreases |s|
  {
    var field, rest := FirstField(s);
    assert ':' !in field;
    hide FindDouble, Split, NonEmpty;
    match rest
    case None =>
      SplitField(field, "", ':');
      NonEmptyField(field, []);
      NoneNonEmpty();
      assert [field] + [] == [field];
      assert !Ends(s);
    case Some(after) =>
      SplitField(field, after, ':');
      NonEmptyField(field, Split(after, ':'));
      JoinNonEmpty(after);
      JoinField(field, NonEmpty(Split(after, ':')), Ends(after));
      if after == "" {
        SplitField("", "", ':');
        NonEmptyField("", []);
        NoneNonEmpty();
        assert s == field + ":";
      } else {
        assert s[|s| - 1] == after[|after| - 1];
      }
  }

  lemma NoneNonEmpty()
    ensures NonEmpty([]) == []
  {
  }

  lemma JoinField(field: string, parts: seq<string>, closing: bool)
    ensures parts != [] ==> JoinEnd([field] + parts, closing) == field + ":" + JoinEnd(parts, closing)
    ensures JoinEnd([field], true) == field + ":"
    ensures JoinEnd([field], false) == field
  {
    assert ([field] + parts)[1..] == parts;
  }

  /** The same with a colon at the start. */
  lemma ColonsNonEmpty(s: string)
    requires FindDouble(s).None? && s != ":"
    ensures s == Colons(NonEmpty(Split(s, ':')), Starts(s), Ends(s))
  {
    hide JoinEnd;
    if Starts(s) {
      var rest := s[1..];
      AfterColon(s);
      JoinNonEmpty(rest);
      SplitOpening(rest);
      assert s == ":" + rest;
      assert s[|s| - 1] == rest[|rest| - 1];
      NothingJoined(Ends(rest));
    } else {
      JoinNonEmpty(s);
    }
  }

  lemma NothingJoined(closing: bool)
    ensures JoinEnd([], closing) == ""
  {
  }

  lemma {:induction false} BeforeDouble(s: string)
    requires FindDouble(s).Some?
    ensures var at := FindDouble(s).value;
      && s == s[..at] + "::" + s[at + 2..]
      && FindDouble(s[..at]).None? && !Ends(s[..at])
  {
    var at := FindDouble(s).value;
    if at > 0 {
      BeforeDouble(s[1..]);
      assert s[1..][..at - 1] == s[..at][1..];
      assert s[1..][at + 1..] == s[at + 2..];
      assert s == [s[0]] + s[1..];
      if at == 1 {
        assert s[1] == ':';
      }
    }
  }

  /** The spelling of a text that the reader takes apart. */
  function SpellingOf(input: string, quad: seq<string>): Spelling {
    match FindDouble(input)
    case Some(at) =>
      var before, after := input[..at], input[at + 2..];
      Spelling(NonEmpty(Split(before, ':')), true, NonEmpty(Split(after, ':')), quad, Starts(before), Ends(after))
    case None => Spelling(NonEmpty(Split(input, ':')), false, [], quad, Starts(input), Ends(input))
  }

  /** The texts around the double colon are groups joined by colons, when there is no second one. */
  lemma GapParts(input: string, before: string, after: string)
    requires FindDouble(input).Some? && before == input[..FindDouble(input).value]
    requires after == input[FindDouble(input).value + 2..]
    requires FindDouble(input[FindDouble(input).value + 1..]).None?
    ensures input == before + "::" + after && !Ends(before) && !Starts(after)
    ensures before == Colons(NonEmpty(Split(before, ':')), Starts(before), false)
    ensures after == Colons(NonEmpty(Split(after, ':')), false, Ends(after))
  {
    BeforeDouble(input);
    hide FindDouble, Split, NonEmpty, Colons;
    var second := input[FindDouble(input).value + 1..];
    assert second == ":" + after;
    AfterColon(second);
    assert second[1..] == after;
    NotColon(before);
    NotColon(after);
    ColonsNonEmpty(before);
    ColonsNonEmpty(after);
  }

  lemma GapIsSpelled(input: string, quad: seq<string>, groups: seq<nat>)
    requires quad == [] || AreOctets(quad)
    requires groups == if quad == [] then [] else PairOctets(quad)
    requires FindDouble(input).Some? && Explicit(input, groups).Some?
    requires quad != [] ==> Ends(input)
    ensures SpellingOf(input, quad).Valid() && SpellingOf(input, quad).Front() == input
  {
    hide FindDouble, Split, NonEmpty, GroupValues, AreOctets, Colons, IsGroup;
    var at := FindDouble(input).value;
    var before, after := input[..at], input[at + 2..];
    GapParts(input, before, after);
    GroupsOfValues(NonEmpty(Split(before, ':')));
    GroupsOfValues(NonEmpty(Split(after, ':')));
    if after == "" {
      NothingSpelled(after, true);
      NothingSpelled(after, false);
    } else {
      assert input[|input| - 1] == after[|after| - 1];
    }
  }

  lemma NotColon(s: string)
    requires !Starts(s) || !Ends(s)
    ensures s != ":"
  {
  }

  lemma NothingSpelled(s: string, closing: bool)
    requires s == ""
    ensures Colons(NonEmpty(Split(s, ':')), false, closing) == ""
  {
    NonEmptyField("", []);
    NoneNonEmpty();
  }

  lemma WholeIsSpelled(input: string, quad: seq<string>, groups: seq<nat>)
    requires quad == [] || AreOctets(quad)
    requires groups == if quad == [] then [] else PairOctets(quad)
    requires FindDouble(input).None? && Explicit(input, groups).Some?
    requires quad != [] ==> Ends(input)
    ensures SpellingOf(input, quad).Valid() && SpellingOf(input, quad).Front() == input
  {
    ColonAlone();
    hide FindDouble, Split, NonEmpty, GroupValues, AreOctets, Colons, JoinEnd, IsGroup;
    GroupsOfValues(NonEmpty(Split(input, ':')));
    ColonsNonEmpty(input);
  }

  lemma ColonAlone()
    ensures NonEmpty(Split(":", ':')) == []
  {
    assert ":"[1..] == "";
    NonEmptyField("", [""]);
    NonEmptyField("", []);
    NoneNonEmpty();
    assert [""] + [] == [""];
  }

  lemma FrontIsSpelled(input: string, quad: seq<string>, groups: seq<nat>)
    requires quad == [] || AreOctets(quad)
    requires groups == if quad == [] then [] else PairOctets(quad)
    requires Explicit(input, groups).Some?
    requires quad != [] && input != "" ==> Ends(input)
    ensures SpellingOf(input, quad).Valid() && SpellingOf(input, quad).Front() == input
  {
    NothingThere(input);
    if FindDouble(input).Some? {
      GapIsSpelled(input, quad, groups);
    } else {
      WholeIsSpelled(input, quad, groups);
    }
  }

  /** A dotted quad alone is too short. */
  lemma NothingThere(input: string)
    ensures input == "" ==> FindDouble(input).None? && NonEmpty(Split(input, ':')) == []
  {
    NonEmptyField("", []);
    NoneNonEmpty();
    assert [""] + [] == [""];
  }

  lemma {:induction false} LastColonEnds(s: string)
    ensures PastLastColon(s) > 0 ==> Ends(s[..PastLastColon(s)])
  {
    if s != "" && s[|s| - 1] != ':' {
      LastColonEnds(s[..|s| - 1]);
    }
  }

  predicate Spells(a: Spelling, input: string) {
    a.Valid() && a.Spelled() == input
  }

  lemma ReadIsSpelled(addr: string)
    requires Parse(addr).Some?
    ensures exists a :: Spells(a, Bare(addr))
  {
    hide Explicit, Split, PastLastColon, Bare, AreOctets, FindDouble, SpellingOf;
    var input := Bare(addr);
    var cut := PastLastColon(input);
    var tail := input[cut..];
    LastColonEnds(input);
    if '.' in tail {
      var quad := Split(tail, '.');
      FrontIsSpelled(input[..cut], quad, PairOctets(quad));
      JoinSplit(tail, '.');
      assert input[..cut] + tail == input;
      KeepsQuad(input[..cut], quad);
      assert Spells(SpellingOf(input[..cut], quad), input);
    } else {
      FrontIsSpelled(input, [], []);
      KeepsQuad(input, []);
      NoParts();
      assert input + "" == input;
      assert Spells(SpellingOf(input, []), input);
    }
  }

  lemma KeepsQuad(input: string, quad: seq<string>)
    ensures SpellingOf(input, quad).quad == quad
  {
    hide FindDouble, Split, NonEmpty;
  }

  lemma Undecorated(a: Spelling)
    requires a.Valid()
    ensures Bare(a.Spelled()) == a.Spelled()
  {
    hide Join, Bare, IsOctet, IsGroup;
    var text := a.Spelled();
    FrontChars(a);
    if a.quad == [] {
      NoParts();
      assert text == a.Front();
    } else {
      QuadChars(a.quad);
    }
    BareOfDecorated(text, None, false);
  }

  /** Reading looks at nothing but the address proper. */
  lemma ReadsBare(addr: string, text: string)
    requires Bare(addr) == Bare(text)
    ensures Parse(addr) == Parse(text)
  {
    hide Bare;
  }

  /**
   * What is left of a text after trimming, brackets and zone is read exactly when
   * it spells an address, and then as that address.
   */
  lemma AcceptedExactlyWhenSpelled(addr: string)
    ensures Parse(addr).Some? <==> exists a :: Spells(a, Bare(addr))
    ensures forall a | Spells(a, Bare(addr)) :: Parse(addr) == Some(BytesOf(a.Denotes()))
  {
    hide Parse, Bare, BytesOf, Split, Join, FindDouble;
    forall a | Spells(a, Bare(addr)) ensures Parse(addr) == Some(BytesOf(a.Denotes())) {
      SpelledIsRead(addr, a);
    }
    if Parse(addr).Some? {
      ReadIsSpelled(addr);
    }
  }

  lemma SpelledIsRead(addr: string, a: Spelling)
    requires Spells(a, Bare(addr))
    ensures a.Valid() && Parse(addr) == Some(BytesOf(a.Denotes()))
  {
    hide Parse, Bare;
    Undecorated(a);
    ReadsBare(addr, a.Spelled());
    SpellingsAgree(a, None, false);
  }
}
