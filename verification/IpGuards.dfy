/** `ipInCidr` of the allowlist guard (src/security/ip-allowlist.guard.ts:92-140). */
module IpAllowlist {
  import opened Wrappers
  import opened Text
  import opened Numbers
  import opened BitMasks
  import opened Ipv6Text
  import Ipv6Cidr

  /** The digits `parseInt(s, 10)` reads; what follows them is ignored. */
  function LeadingDigits(s: string): (digits: string)
    ensures AllDigits(digits)
  {
    if s != "" && IsDigit(s[0]) then [s[0]] + LeadingDigits(s[1..]) else ""
  }

  /** `parseInt(s, 10)`; None stands for NaN. */
  function ParseInt(s: string): Option<int> {
    ParseSigned(TrimStart(s))
  }

  function ParseSigned(text: string): Option<int> {
    var negative := text != "" && text[0] == '-';
    var digits := LeadingDigits(if text != "" && (text[0] == '+' || negative) then text[1..] else text);
    var n: int := NatOf(digits);
    if digits == "" then None else Some(if negative then -n else n)
  }

  lemma {:induction false} LeadingDigitsStop(digits: string, rest: string)
    requires AllDigits(digits) && (rest == "" || !IsDigit(rest[0]))
    ensures LeadingDigits(digits + rest) == digits
  {
    if digits == "" {
      assert digits + rest == rest;
    } else {
      assert (digits + rest)[1..] == digits[1..] + rest;
      LeadingDigitsStop(digits[1..], rest);
    }
  }

  /** Blanks, a sign and digits are read, and whatever follows the digits is not looked at. */
  lemma ParseIntReads(blanks: string, sign: string, digits: string, rest: string)
    requires Blank(blanks)
    requires sign == "" || sign == "+" || sign == "-"
    requires AllDigits(digits) && (rest == "" || !IsDigit(rest[0]))
    requires digits == "" && sign == "" && rest != "" ==> !IsSpace(rest[0]) && rest[0] != '+' && rest[0] != '-'
    ensures ParseInt(blanks + (sign + (digits + rest))) ==
      if digits == "" then None else Some(if sign == "-" then -(NatOf(digits) as int) else NatOf(digits))
  {
    hide *;
    var text := sign + (digits + rest);
    SignedStarts(sign, digits, rest);
    LeadingDigitsStop(digits, rest);
    if sign == "" {
      TailStarts(digits, rest);
    }
    TrimStartBlanks(blanks, text);
    SignedReads(sign, digits + rest);
    ParseIntIs(blanks + text);
  }

  lemma ParseIntIs(s: string)
    ensures ParseInt(s) == ParseSigned(TrimStart(s))
  {
  }

  lemma SignedStarts(sign: string, digits: string, rest: string)
    requires sign == "" || sign == "+" || sign == "-"
    requires AllDigits(digits)
    requires digits == "" && sign == "" && rest != "" ==> !IsSpace(rest[0])
    ensures TrimStart(sign + (digits + rest)) == sign + (digits + rest)
  {
    var text := sign + (digits + rest);
    if text != "" {
      assert text[0] == if sign != "" then sign[0] else if digits != "" then digits[0] else rest[0];
    }
  }

  lemma TailStarts(digits: string, rest: string)
    requires AllDigits(digits)
    requires digits == "" && rest != "" ==> rest[0] != '+' && rest[0] != '-'
    ensures digits + rest != "" ==> (digits + rest)[0] != '+' && (digits + rest)[0] != '-'
  {
    assert digits + rest != "" ==> (digits + rest)[0] == if digits != "" then digits[0] else rest[0];
  }

  lemma SignedReads(sign: string, tail: string)
    requires sign == "" || sign == "+" || sign == "-"
    requires sign == "" && tail != "" ==> tail[0] != '+' && tail[0] != '-'
    ensures ParseSigned(sign + tail) ==
      if LeadingDigits(tail) == "" then None
      else Some(if sign == "-" then -(NatOf(LeadingDigits(tail)) as int) else NatOf(LeadingDigits(tail)))
  {
    hide *;
    if sign == "" {
      PlainReads(tail);
      assert sign + tail == tail;
    } else {
      SignReads(sign[0], tail);
      assert sign + tail == [sign[0]] + tail;
    }
  }

  lemma PlainReads(text: string)
    requires text != "" ==> text[0] != '+' && text[0] != '-'
    ensures ParseSigned(text) ==
      if LeadingDigits(text) == "" then None else Some(NatOf(LeadingDigits(text)))
  {
    hide LeadingDigits, NatOf;
  }

  lemma SignReads(sign: char, text: string)
    requires sign == '+' || sign == '-'
    ensures ParseSigned([sign] + text) ==
      if LeadingDigits(text) == "" then None
      else Some(if sign == '-' then -(NatOf(LeadingDigits(text)) as int) else NatOf(LeadingDigits(text)))
  {
    hide LeadingDigits, NatOf;
    assert ([sign] + text)[1..] == text;
  }

  /** One step of the octet fold. None stands for NaN, and `NaN << 8` is 0. */
  function FoldOctet(acc: Option<nat>, octet: string): Option<nat> {
    if !IsOctet(octet) then None
    else
      var high := match acc case Some(n) => n case None => 0;
      Some((high * 256 + NatOf(octet)) % 0x1_0000_0000)
  }

  /** `toInt`: None unless there are four parts; a final NaN is 0 after `>>> 0`. */
  function ToInt(addr: string): (n: Option<nat>)
    ensures n.Some? ==> n.value < 0x1_0000_0000
  {
    ToIntOf(Split(addr, '.'))
  }

  function ToIntOf(octets: seq<string>): (n: Option<nat>)
    ensures n.Some? ==> n.value < 0x1_0000_0000
  {
    if |octets| != 4 then None
    else
      match FoldOctet(FoldOctet(FoldOctet(FoldOctet(Some(0), octets[0]), octets[1]), octets[2]), octets[3])
      case Some(n) => Some(n)
      case None => Some(0)
  }

  predicate OctetsFrom(parts: seq<string>, i: nat) {
    forall j | i <= j < |parts| :: IsOctet(parts[j])
  }

  /** What part `i` of an address counts for: nothing when it or a later one is no octet. */
  function Heard(parts: seq<string>, i: nat): nat
    requires i < |parts|
  {
    if OctetsFrom(parts, i) then NatOf(parts[i]) else 0
  }

  /** A part that is no octet makes the address count from after it; only the number of parts is checked. */
  lemma ToIntReads(parts: seq<string>)
    requires |parts| == 4
    ensures Heard(parts, 0) <= 255 && Heard(parts, 1) <= 255 && Heard(parts, 2) <= 255 && Heard(parts, 3) <= 255
    ensures ToIntOf(parts) ==
      Some(((Heard(parts, 0) * 256 + Heard(parts, 1)) * 256 + Heard(parts, 2)) * 256 + Heard(parts, 3))
  {
    hide FoldOctet, IsOctet, NatOf, OctetsFrom;
    FromNext(parts, 0);
    FromNext(parts, 1);
    FromNext(parts, 2);
    FromNext(parts, 3);
    var a := FoldOctet(Some(0), parts[0]);
    var b := FoldOctet(a, parts[1]);
    var c := FoldOctet(b, parts[2]);
    Fold(Some(0), parts[0]);
    Fold(a, parts[1]);
    Fold(b, parts[2]);
    Fold(c, parts[3]);
  }

  lemma FromNext(parts: seq<string>, i: nat)
    requires i < |parts|
    ensures OctetsFrom(parts, i) <==> IsOctet(parts[i]) && OctetsFrom(parts, i + 1)
    ensures i + 1 == |parts| ==> OctetsFrom(parts, i + 1)
  {
    hide IsOctet;
  }

  lemma Fold(acc: Option<nat>, octet: string)
    requires acc.Some? ==> acc.value * 256 + 255 < 0x1_0000_0000
    ensures FoldOctet(acc, octet) ==
      if IsOctet(octet) then Some((match acc case Some(n) => n * 256 case None => 0) + NatOf(octet)) else None
    ensures IsOctet(octet) ==> NatOf(octet) <= 255
  {
  }

  /** `~((1 << (32 - bits)) - 1) >>> 0`; the shift count is taken modulo 32. */
  function Mask(bits: nat): (mask: nat)
    requires bits <= 32
  {
    HighMask(32, (32 - bits) % 32)
  }

  /** The numeric core of the IPv4 branch. */
  predicate MaskedMatch(ip: nat, range: nat, bits: nat)
    requires bits <= 32
  {
    BitAnd(ip, Mask(bits)) == BitAnd(range, Mask(bits))
  }

  /** `ipv6InCidr`. */
  method Ipv6InCidr(ip: string, range: string, bits: int) returns (r: bool)
    ensures r <==>
      && 0 <= bits <= 128
      && Parse(ip).Some? && Parse(range).Some?
      && Ipv6Cidr.Prefix(Parse(ip).value, bits) == Ipv6Cidr.Prefix(Parse(range).value, bits)
  {
    if bits < 0 || bits > 128 {
      return false;
    }
    var ipBytes := Ipv6ToBytes(ip);
    var rangeBytes := Ipv6ToBytes(range);
    if ipBytes.None? || rangeBytes.None? {
      return false;
    }
    r := Ipv6Cidr.BytesInCidr(ipBytes.value, rangeBytes.value, bits);
  }

  /** What `ipInCidr` decides. */
  predicate Matches(ip: string, cidr: string) {
    if '/' !in cidr then ip == cidr
    else
      var parts := Split(cidr, '/');
      match if |parts| >= 2 then ParseInt(parts[1]) else None
      case None => false
      case Some(bits) =>
        if ':' in ip || ':' in parts[0] then
          && 0 <= bits <= 128
          && Parse(ip).Some? && Parse(parts[0]).Some?
          && Ipv6Cidr.Prefix(Parse(ip).value, bits) == Ipv6Cidr.Prefix(Parse(parts[0]).value, bits)
        else
          && 0 <= bits <= 32
          && ToInt(ip).Some? && ToInt(parts[0]).Some?
          && MaskedMatch(ToInt(ip).value, ToInt(parts[0]).value, bits)
  }

  /** An entry without a slash admits itself and no other text. */
  lemma BareEntryIsItself(ip: string, entry: string)
    requires '/' !in entry
    ensures Matches(ip, entry) <==> ip == entry
  {
  }

  method IpInCidr(ip: string, cidr: string) returns (r: bool)
    ensures r == Matches(ip, cidr)
    ensures '/' !in cidr ==> (r <==> ip == cidr)
  {
    hide Ipv6Cidr.Prefix, Split, ParseInt, ToInt, BitAnd, Mask;
    if '/' !in cidr {
      return ip == cidr;
    }
    var parts := Split(cidr, '/');
    if |parts| < 2 {
      return false;
    }
    var range, bits := parts[0], ParseInt(parts[1]);
    if bits.None? {
      return false;
    }
    if ':' in ip || ':' in range {
      r := Ipv6InCidr(ip, range, bits.value);
      return;
    }
    if bits.value < 0 || bits.value > 32 {
      return false;
    }
    var ipInt, rangeInt := ToInt(ip), ToInt(range);
    if ipInt.None? || rangeInt.None? {
      return false;
    }
    return MaskedMatch(ipInt.value, rangeInt.value, bits.value);
  }
}

/** The interval form of the metrics guard (src/prometheus/metrics.guard.ts:15-94). */
module MetricsGuard {
  import opened Wrappers
  import opened Text
  import opened Numbers
  import opened BitMasks
  import opened IpAllowlist

  datatype Network = Network(start: int, end: int)

  predicate ByteValue(n: Option<int>) {
    n.Some? && 0 <= n.value <= 255
  }

  function IpToBigInt(ip: string): (n: Option<nat>)
    ensures n.Some? ==> n.value < 0x1_0000_0000
  {
    BigIntOf(Split(ip, '.'))
  }

  function BigIntOf(parts: seq<string>): (n: Option<nat>)
    ensures n.Some? ==> n.value < 0x1_0000_0000
  {
    if |parts| != 4 then None
    else
      var a, b, c, d := ParseInt(parts[0]), ParseInt(parts[1]), ParseInt(parts[2]), ParseInt(parts[3]);
      if ByteValue(a) && ByteValue(b) && ByteValue(c) && ByteValue(d) then
        Some(((a.value * 256 + b.value) * 256 + c.value) * 256 + d.value)
      else None
  }

  /** The interval of the addresses under a network address and a prefix length. */
  function Block(ip: nat, prefix: nat): Network
    requires prefix <= 32
  {
    var mask := if prefix == 0 then 0 else HighMask(32, 32 - prefix);
    var start := BitAnd(ip, mask);
    // The complement of the mask only has bits the start lacks, so `|` adds.
    Network(start, start + (0xffff_ffff - mask))
  }

  function ParseCidr(cidr: string): Option<Network> {
    var parts := Split(cidr, '/');
    match if |parts| >= 2 then ParseInt(parts[1]) else None
    case None => None
    case Some(prefix) =>
      if prefix < 0 || prefix > 32 then None
      else match IpToBigInt(parts[0]) case Some(ip) => Some(Block(ip, prefix)) case None => None
  }

  predicate Within(ip: nat, net: Network) {
    net.start <= ip <= net.end
  }

  /** What one entry of the configured list lets through. */
  predicate EntryAllows(entry: string, ip: string) {
    && entry != ""
    && if '/' in entry then
         ParseCidr(entry).Some? && IpToBigInt(ip).Some? && Within(IpToBigInt(ip).value, ParseCidr(entry).value)
       else ip == entry
  }

  /** The configured list, split at commas and trimmed. */
  function Entries(raw: string): seq<string> {
    var parts := Split(raw, ',');
    seq(|parts|, i requires 0 <= i < |parts| => Trim(parts[i]))
  }

  /** Blanks around the entries of the setting do not matter. */
  lemma BlanksDoNotMatter(parts: seq<string>, before: seq<string>, after: seq<string>)
    requires parts != [] && |before| == |after| == |parts|
    requires forall i | 0 <= i < |parts| :: ',' !in parts[i] && Blank(before[i]) && Blank(after[i])
    ensures Entries(Join(Padded(parts, before, after), ",")) == Entries(Join(parts, ","))
    ensures |Entries(Join(parts, ","))| == |parts|
    ensures forall i | 0 <= i < |parts| :: Entries(Join(parts, ","))[i] == Trim(parts[i])
  {
    var padded := Padded(parts, before, after);
    forall i | 0 <= i < |parts| ensures ',' !in padded[i] && Trim(padded[i]) == Trim(parts[i]) {
      TrimBlanks(before[i], parts[i], after[i]);
      assert forall c <- before[i] :: c != ',';
      assert forall c <- after[i] :: c != ',';
    }
    hide Join, Split, Trim, Blank;
    assert forall p <- parts :: ',' !in p;
    assert forall p <- padded :: ',' !in p;
    SplitJoin(parts, ',');
    SplitJoin(padded, ',');
  }

  function Padded(parts: seq<string>, before: seq<string>, after: seq<string>): seq<string>
    requires |before| == |after| == |parts|
  {
    seq(|parts|, i requires 0 <= i < |parts| => before[i] + parts[i] + after[i])
  }

  function BareIps(entries: seq<string>): set<string> {
    if entries == [] then {}
    else
      var last := entries[|entries| - 1];
      BareIps(entries[..|entries| - 1]) + if last != "" && '/' !in last then {last} else {}
  }

  function Networks(entries: seq<string>): seq<Network> {
    if entries == [] then []
    else
      var last := entries[|entries| - 1];
      var network := if '/' in last then ParseCidr(last) else None;
      Networks(entries[..|entries| - 1]) + match network case Some(net) => [net] case None => []
  }

  predicate NetworkAllows(networks: seq<Network>, ip: Option<nat>) {
    ip.Some? && exists net <- networks :: Within(ip.value, net)
  }

  /** Keeping bare addresses and networks apart loses no entry. */
  lemma {:induction false} EveryEntryCounts(entries: seq<string>, ip: string)
    ensures (exists entry <- entries :: EntryAllows(entry, ip)) <==>
      ip in BareIps(entries) || NetworkAllows(Networks(entries), IpToBigInt(ip))
  {
    if entries != [] {
      var front, last := entries[..|entries| - 1], entries[|entries| - 1];
      assert entries == front + [last];
      EveryEntryCounts(front, ip);
      hide ParseCidr, IpToBigInt, Within;
      var network := if '/' in last then ParseCidr(last) else None;
      var networks := Networks(front) + match network case Some(net) => [net] case None => [];
      assert Networks(entries) == networks;
      assert NetworkAllows(networks, IpToBigInt(ip)) <==>
        || NetworkAllows(Networks(front), IpToBigInt(ip))
        || (network.Some? && IpToBigInt(ip).Some? && Within(IpToBigInt(ip).value, network.value));
      assert (exists entry <- entries :: EntryAllows(entry, ip)) <==>
        (exists entry <- front :: EntryAllows(entry, ip)) || EntryAllows(last, ip);
    }
  }

  class MetricsGuard {
    var allowedIps: set<string>
    var allowedNetworks: seq<Network>

    constructor (raw: string)
      ensures allowedIps == BareIps(Entries(raw)) && allowedNetworks == Networks(Entries(raw))
    {
      allowedIps, allowedNetworks := {}, [];
      new;
      var entries := Entries(raw);
      for k := 0 to |entries|
        invariant allowedIps == BareIps(entries[..k]) && allowedNetworks == Networks(entries[..k])
      {
        assert entries[..k + 1][..k] == entries[..k];
        var entry := entries[k];
        if entry == "" {
          continue;
        }
        if '/' in entry {
          var network := ParseCidr(entry);
          if network.Some? {
            allowedNetworks := allowedNetworks + [network.value];
          }
        } else {
          allowedIps := allowedIps + {entry};
        }
      }
      assert entries[..|entries|] == entries;
    }

    method IsAllowed(ip: string) returns (r: bool)
      ensures r <==> ip in allowedIps || NetworkAllows(allowedNetworks, IpToBigInt(ip))
    {
      if ip in allowedIps {
        return true;
      }
      var ipNum := IpToBigInt(ip);
      if ipNum.None? {
        return false;
      }
      for i := 0 to |allowedNetworks|
        invariant forall j | 0 <= j < i :: !Within(ipNum.value, allowedNetworks[j])
      {
        if Within(ipNum.value, allowedNetworks[i]) {
          return true;
        }
      }
      return false;
    }
  }
}

/** The two guards against prefix equality (section 3.1 of RFC 4632, section 2.3 of RFC 4291). */
module CidrAgreement {
  import opened Wrappers
  import opened Text
  import opened Numbers
  import opened BitMasks
  import opened IpAllowlist
  import MetricsGuard
  import opened Ipv6Text
  import opened Ipv6Forms
  import Ipv6Cidr

  /** The number a dotted quad denotes. */
  function Number(quad: seq<string>): (n: nat)
    requires AreOctets(quad)
    ensures n < 0x1_0000_0000
  {
    ((NatOf(quad[0]) * 256 + NatOf(quad[1])) * 256 + NatOf(quad[2])) * 256 + NatOf(quad[3])
  }

  lemma {:induction false} LeadingDigitsAll(s: string)
    requires AllDigits(s)
    ensures LeadingDigits(s) == s
  {
    if s != "" {
      LeadingDigitsAll(s[1..]);
    }
  }

  lemma DigitsParse(s: string)
    requires AllDigits(s) && s != ""
    ensures ParseInt(s) == Some(NatOf(s))
  {
    assert IsDigit(s[0]) && TrimStart(s) == s;
    hide TrimStart, NatOf, IsSpace;
    LeadingDigitsAll(s);
  }

  lemma SplitQuad(quad: seq<string>)
    requires AreOctets(quad)
    ensures Split(Join(quad, "."), '.') == quad
    ensures '/' !in Join(quad, ".") && ':' !in Join(quad, ".")
  {
    QuadChars(quad);
    OctetChars(quad[0]);
    OctetChars(quad[1]);
    OctetChars(quad[2]);
    OctetChars(quad[3]);
    hide IsOctet, Join, Split, QuadGroups;
    var text := Join(quad, ".");
    assert forall i | 0 <= i < |text| :: text[i] != '/' && text[i] != ':';
    assert forall p <- quad :: '.' !in p;
    SplitJoin(quad, '.');
  }

  lemma FoldStep(n: nat, octet: string)
    requires IsOctet(octet) && n * 256 + 255 < 0x1_0000_0000
    ensures FoldOctet(Some(n), octet) == Some(n * 256 + NatOf(octet))
  {
  }

  lemma ReadOctets(quad: seq<string>)
    requires AreOctets(quad)
    ensures ToIntOf(quad) == Some(Number(quad))
  {
    hide FoldOctet, NatOf;
    var a, b, c := NatOf(quad[0]), NatOf(quad[1]), NatOf(quad[2]);
    OctetBound(quad[0]);
    OctetBound(quad[1]);
    OctetBound(quad[2]);
    FoldStep(0, quad[0]);
    FoldStep(a, quad[1]);
    FoldStep(a * 256 + b, quad[2]);
    FoldStep((a * 256 + b) * 256 + c, quad[3]);
  }

  lemma OctetBound(octet: string)
    requires IsOctet(octet)
    ensures NatOf(octet) <= 255 && ParseInt(octet) == Some(NatOf(octet))
  {
    DigitsParse(octet);
  }

  lemma ReadParts(quad: seq<string>)
    requires AreOctets(quad)
    ensures MetricsGuard.BigIntOf(quad) == Some(Number(quad))
  {
    hide ParseInt, NatOf, IsOctet;
    OctetBound(quad[0]);
    OctetBound(quad[1]);
    OctetBound(quad[2]);
    OctetBound(quad[3]);
  }

  /** Both guards read a valid dotted quad as the same 32-bit number. */
  lemma BothReadQuad(quad: seq<string>)
    requires AreOctets(quad)
    ensures ToInt(Join(quad, ".")) == Some(Number(quad))
    ensures MetricsGuard.IpToBigInt(Join(quad, ".")) == Some(Number(quad))
  {
    hide Split, Join, Number, AreOctets, ToIntOf, MetricsGuard.BigIntOf;
    SplitQuad(quad);
    ReadOctets(quad);
    ReadParts(quad);
  }

  lemma SplitCidr(range: string, bits: nat)
    requires '/' !in range
    ensures var cidr := range + "/" + Digits(bits);
      '/' in cidr && Split(cidr, '/') == [range, Digits(bits)] && ParseInt(Digits(bits)) == Some(bits)
  {
    var cidr := range + "/" + Digits(bits);
    assert cidr[|range|] == '/';
    DigitsParse(Digits(bits));
    assert forall i | 0 <= i < |Digits(bits)| :: IsDigit(Digits(bits)[i]);
    hide Split, ParseInt, Digits;
    SplitField(range, Digits(bits), '/');
    SplitField(Digits(bits), "", '/');
  }

  /** Integer prefix equality of two 32-bit numbers. */
  predicate SamePrefix(x: nat, y: nat, bits: nat)
    requires bits <= 32
  {
    x / Pow2(32 - bits) == y / Pow2(32 - bits)
  }

  /** The mask test is prefix equality, except that prefix 0 compares all 32 bits. */
  lemma MaskIsPrefix(x: nat, y: nat, bits: nat)
    requires bits <= 32 && x < 0x1_0000_0000 && y < 0x1_0000_0000
    ensures MaskedMatch(x, y, bits) <==> if bits == 0 then x == y else SamePrefix(x, y, bits)
  {
    hide BitAnd, HighMask;
    var clear := (32 - bits) % 32;
    MaskWord(x, y, clear);
    if bits == 0 {
      assert Pow2(clear) == 1;
      DivideByOne(x, Pow2(clear));
      DivideByOne(y, Pow2(clear));
    } else {
      hide Pow2;
      assert clear == 32 - bits;
    }
  }

  lemma DivideByOne(x: nat, p: nat)
    requires p == 1
    ensures x / p == x
  {
  }

  /** The interval test is prefix equality for every prefix length. */
  lemma IntervalIsPrefix(x: nat, y: nat, bits: nat)
    requires bits <= 32 && x < 0x1_0000_0000 && y < 0x1_0000_0000
    ensures MetricsGuard.Within(x, MetricsGuard.Block(y, bits)) <==> SamePrefix(x, y, bits)
  {
    var p := Pow2(32 - bits);
    hide Pow2, BitAnd, HighMask;
    if bits == 0 {
      WordSize(32 - bits);
      AndZero(y);
      Small(x, p);
      Small(y, p);
    } else {
      MaskWord(y, y, 32 - bits);
      MaskComplement(32 - bits);
      InBlock(x, y, p);
    }
  }

  lemma MaskComplement(clear: nat)
    requires clear <= 32
    ensures 0xffff_ffff - HighMask(32, clear) == Pow2(clear) - 1
  {
    hide Pow2;
    var width: nat :| width == 32;
    WordSize(width);
    assert HighMask(width, clear) == Pow2(width) - Pow2(clear);
  }

  lemma Small(x: nat, p: nat)
    requires x < p
    ensures x / p == 0
  {
    QuotientIs(x, p, 0, x);
  }

  /** On valid quads each guard decides prefix equality; the allowlist guard fails to for prefix 0 alone. */
  lemma GuardsDecidePrefix(ip: seq<string>, range: seq<string>, bits: nat)
    requires AreOctets(ip) && AreOctets(range) && bits <= 32
    ensures var cidr := Join(range, ".") + "/" + Digits(bits);
      && (MetricsGuard.EntryAllows(cidr, Join(ip, ".")) <==> SamePrefix(Number(ip), Number(range), bits))
      && (Matches(Join(ip, "."), cidr) <==>
            if bits == 0 then Number(ip) == Number(range) else SamePrefix(Number(ip), Number(range), bits))
  {
    hide Split, ParseInt, Digits, ToInt, MetricsGuard.IpToBigInt, MaskedMatch, MetricsGuard.Block, SamePrefix;
    hide IsOctet, Join, Number;
    SplitQuad(ip);
    SplitQuad(range);
    SplitCidr(Join(range, "."), bits);
    BothReadQuad(ip);
    BothReadQuad(range);
    MaskIsPrefix(Number(ip), Number(range), bits);
    IntervalIsPrefix(Number(ip), Number(range), bits);
  }

  /** The guards agree exactly when the prefix length is not 0 or the addresses are the same. */
  lemma GuardsAgree(ip: seq<string>, range: seq<string>, bits: nat)
    requires AreOctets(ip) && AreOctets(range) && bits <= 32
    ensures var cidr := Join(range, ".") + "/" + Digits(bits);
      (Matches(Join(ip, "."), cidr) <==> MetricsGuard.EntryAllows(cidr, Join(ip, "."))) <==>
        (bits != 0 || Number(ip) == Number(range))
  {
    GuardsDecidePrefix(ip, range, bits);
    hide Matches, MetricsGuard.EntryAllows, Digits, Join, Number;
    if bits == 0 {
      WordSize(32 - bits);
      Small(Number(ip), Pow2(32 - bits));
      Small(Number(range), Pow2(32 - bits));
    }
  }

  /** An entry whose prefix length cannot be read, or is out of range, admits nobody; a second slash ends it. */
  lemma BadPrefixAdmitsNobody(ip: string, range: string, rest: string)
    requires '/' !in range
    ensures var bits, cidr := ParseInt(Split(rest, '/')[0]), range + "/" + rest;
      && (Matches(ip, cidr) ==> bits.Some? && 0 <= bits.value <= if ':' in ip || ':' in range then 128 else 32)
      && (MetricsGuard.EntryAllows(cidr, ip) ==> bits.Some? && 0 <= bits.value <= 32)
  {
    var cidr := range + "/" + rest;
    assert cidr[|range|] == '/';
    SplitField(range, rest, '/');
    hide Split, ParseInt, ToInt, Parse, MetricsGuard.IpToBigInt, MaskedMatch, MetricsGuard.Block;
  }

  // ── entries without a slash ──

  /** Both guards take an entry without a slash for the address itself; only the metrics guard drops an empty one. */
  lemma BareGuardsAgree(ip: string, entry: string)
    requires '/' !in entry
    ensures MetricsGuard.EntryAllows(entry, ip) <==> entry != "" && ip == entry
    ensures (Matches(ip, entry) <==> MetricsGuard.EntryAllows(entry, ip)) <==> entry != "" || ip != ""
  {
    BareEntryIsItself(ip, entry);
  }

  /** A dotted quad as it is usually written. */
  predicate CanonicalQuad(quad: seq<string>) {
    && AreOctets(quad)
    && NoLeadingZero(quad[0]) && NoLeadingZero(quad[1]) && NoLeadingZero(quad[2]) && NoLeadingZero(quad[3])
  }

  lemma OctetTells(a: string, b: string)
    requires IsOctet(a) && IsOctet(b) && NoLeadingZero(a) && NoLeadingZero(b)
    ensures NatOf(a) == NatOf(b) <==> a == b
  {
    DigitsOfNat(a);
    DigitsOfNat(b);
  }

  lemma BytesTell(a: nat, b: nat, c: nat, d: nat, e: nat, f: nat, g: nat, h: nat)
    requires a <= 255 && b <= 255 && c <= 255 && d <= 255 && e <= 255 && f <= 255 && g <= 255 && h <= 255
    ensures ((a * 256 + b) * 256 + c) * 256 + d == ((e * 256 + f) * 256 + g) * 256 + h
      <==> a == e && b == f && c == g && d == h
  {
  }

  lemma NumberTells(a: seq<string>, b: seq<string>)
    requires AreOctets(a) && AreOctets(b)
    ensures Number(a) == Number(b) <==>
      && NatOf(a[0]) == NatOf(b[0]) && NatOf(a[1]) == NatOf(b[1])
      && NatOf(a[2]) == NatOf(b[2]) && NatOf(a[3]) == NatOf(b[3])
  {
    OctetBound(a[0]);
    OctetBound(a[1]);
    OctetBound(a[2]);
    OctetBound(a[3]);
    OctetBound(b[0]);
    OctetBound(b[1]);
    OctetBound(b[2]);
    OctetBound(b[3]);
    hide IsOctet, NatOf, ParseInt;
    BytesTell(NatOf(a[0]), NatOf(a[1]), NatOf(a[2]), NatOf(a[3]),
              NatOf(b[0]), NatOf(b[1]), NatOf(b[2]), NatOf(b[3]));
  }

  /** Canonical quads denote the same number exactly when they are the same text. */
  lemma QuadTells(a: seq<string>, b: seq<string>)
    requires CanonicalQuad(a) && CanonicalQuad(b)
    ensures Number(a) == Number(b) <==> a == b
    ensures Number(a) == Number(b) <==> Join(a, ".") == Join(b, ".")
  {
    hide Number, IsOctet, NatOf, NoLeadingZero, Split, Join;
    NumberTells(a, b);
    SplitQuad(a);
    SplitQuad(b);
    OctetTells(a[0], b[0]);
    OctetTells(a[1], b[1]);
    OctetTells(a[2], b[2]);
    OctetTells(a[3], b[3]);
    assert a == b <==> a[0] == b[0] && a[1] == b[1] && a[2] == b[2] && a[3] == b[3];
  }

  /** On canonical quads an entry without a slash decides what the same entry with `/32` does, in either guard. */
  lemma BareIsPrefix32(ip: seq<string>, entry: seq<string>)
    requires CanonicalQuad(ip) && CanonicalQuad(entry)
    ensures var i, e := Join(ip, "."), Join(entry, ".");
      && (Matches(i, e) <==> Matches(i, e + "/" + Digits(32)))
      && (MetricsGuard.EntryAllows(e, i) <==> MetricsGuard.EntryAllows(e + "/" + Digits(32), i))
  {
    var bits: nat :| bits == 32;
    assert AreOctets(ip) && AreOctets(entry);
    QuadTells(ip, entry);
    SplitQuad(entry);
    JoinedQuad(entry);
    GuardsDecidePrefix(ip, entry, bits);
    BareGuardsAgree(Join(ip, "."), Join(entry, "."));
    BareEntryIsItself(Join(ip, "."), Join(entry, "."));
    assert Pow2(32 - bits) == 1;
    DivideByOne(Number(ip), Pow2(32 - bits));
    DivideByOne(Number(entry), Pow2(32 - bits));
    hide Matches, MetricsGuard.EntryAllows, Join, Number, CanonicalQuad, AreOctets, Digits, Pow2;
  }

  lemma JoinedQuad(quad: seq<string>)
    requires AreOctets(quad)
    ensures Join(quad, ".") != ""
  {
    QuadChars(quad);
  }

  // ── IPv6 ──

  lemma {:induction false} BytesKeepValue(groups: seq<nat>)
    requires Below(65536, groups)
    ensures Value(256, BytesOf(groups)) == Value(65536, groups)
  {
    if groups != [] {
      var n := |groups| - 1;
      var front, g := BytesOf(groups[..n]), groups[n];
      BytesKeepValue(groups[..n]);
      ValueAppend(256, front, g / 256);
      ValueAppend(256, front + [g / 256], g % 256);
      assert BytesOf(groups) == front + [g / 256] + [g % 256];
    }
  }

  lemma GroupBelow(group: string)
    requires IsGroup(group)
    ensures HexOf(group) < 65536
  {
    HexBound(group, 16, 256, 4096);
  }

  lemma HexBound(s: string, p1: nat, p2: nat, p3: nat)
    requires AllHex(s) && 1 <= |s| <= 4 && p1 == 16 && p2 == 256 && p3 == 4096
    ensures |s| == 1 ==> HexOf(s) < 16
    ensures |s| == 2 ==> HexOf(s) < 256
    ensures |s| == 3 ==> HexOf(s) < 4096
    ensures HexOf(s) < 65536
    decreases |s|
  {
    if |s| == 1 {
      assert HexOf(s[..0]) == 0;
    } else {
      HexBound(s[..|s| - 1], p1, p2, p3);
    }
  }

  lemma DenotedGroupsBelow(a: Spelling)
    requires a.Valid()
    ensures Below(65536, a.Denotes())
  {
    forall i | 0 <= i < |a.head| ensures Values(a.head)[i] < 65536 {
      GroupBelow(a.head[i]);
    }
    forall i | 0 <= i < |a.tail| ensures Values(a.tail)[i] < 65536 {
      GroupBelow(a.tail[i]);
    }
  }

  lemma SpelledChars(a: Spelling)
    requires a.Valid()
    ensures ':' in a.Spelled() && '/' !in a.Spelled()
  {
    FrontChars(a);
    if a.quad != [] {
      QuadChars(a.quad);
      assert a.Front()[|a.Front()| - 1] == a.Spelled()[|a.Front()| - 1];
    } else {
      NoParts();
      assert a.Spelled() == a.Front();
      FrontHasColon(a);
    }
    assert AddressText(a.Spelled());
    assert forall i | 0 <= i < |a.Spelled()| :: a.Spelled()[i] != '/';
  }

  lemma FrontHasColon(a: Spelling)
    requires a.Valid()
    ensures ':' in a.Front()
  {
    if a.gap {
      assert a.Front()[|Colons(a.head, a.opening, false)|] == ':';
    } else {
      assert ':' in Join(a.head, ":") by {
        assert Join(a.head, ":")[|a.head[0]|] == ':';
      }
      assert a.Front() == Colons(a.head, a.opening, a.Closed());
    }
  }

  /** Matching two spelled IPv6 addresses is equality of the leading bits of the 128-bit numbers they denote. */
  lemma Ipv6MatchIsPrefix(ip: Spelling, range: Spelling, bits: nat)
    requires ip.Valid() && range.Valid() && bits <= 128
    ensures Matches(ip.Spelled(), range.Spelled() + "/" + Digits(bits)) <==>
      Value(65536, ip.Denotes()) / Pow2(128 - bits) == Value(65536, range.Denotes()) / Pow2(128 - bits)
  {
    hide Split, ParseInt, Digits, ToInt, MaskedMatch, Parse, Pow2, Value;
    SpelledChars(ip);
    SpelledChars(range);
    SplitCidr(range.Spelled(), bits);
    SpellingsAgree(ip, None, false);
    SpellingsAgree(range, None, false);
    DenotedGroupsBelow(ip);
    DenotedGroupsBelow(range);
    BytesKeepValue(ip.Denotes());
    BytesKeepValue(range.Denotes());
  }
}
