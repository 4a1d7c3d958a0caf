/** CIDR matching by masked bytes, by a 32-bit mask and by intervals. */
module BitMasks {
  import opened Numbers

  /** `a & b` on non-negative numbers. */
  function BitAnd(a: nat, b: nat): nat
    decreases a
  {
    if a == 0 then 0 else a % 2 * (b % 2) + 2 * BitAnd(a / 2, b / 2)
  }

  /** `width` bits, of which the lowest `clear` are zero. */
  function HighMask(width: nat, clear: nat): nat
    requires clear <= width
  {
    PowMono(clear, width);
    Pow2(width) - Pow2(clear)
  }

  lemma {:induction false} PowMono(a: nat, b: nat)
    requires a <= b
    ensures Pow2(a) <= Pow2(b)
  {
    if a < b {
      PowMono(a, b - 1);
    }
  }

  lemma {:induction false} MaskKeepsAll(x: nat, width: nat, clear: nat)
    requires x < Pow2(width) && clear == 0
    ensures BitAnd(x, HighMask(width, clear)) == x
  {
    if x > 0 {
      HalfMask(width, clear);
      MaskKeepsAll(x / 2, width - 1, clear);
    }
  }

  /** Masking clears the low bits and nothing else. */
  lemma {:induction false} MaskClears(x: nat, width: nat, clear: nat)
    requires clear <= width && x < Pow2(width)
    ensures BitAnd(x, HighMask(width, clear)) == x / Pow2(clear) * Pow2(clear)
    decreases width
  {
    if clear == 0 {
      MaskKeepsAll(x, width, clear);
      assert Pow2(clear) == 1;
    } else {
      var p := Pow2(clear - 1);
      assert Pow2(clear) == 2 * p;
      HalfMask(width, clear);
      MaskClears(x / 2, width - 1, clear - 1);
      assert BitAnd(x, HighMask(width, clear)) == 2 * (x / 2 / p * p);
      hide Pow2, BitAnd, HighMask;
      HalfQuotient(x, p);
      Twice(x / 2 / p, p);
    }
  }

  lemma Twice(q: nat, p: nat)
    ensures 2 * (q * p) == q * (2 * p)
  {
  }

  lemma HalfMask(width: nat, clear: nat)
    requires clear <= width && width >= 1
    ensures clear == 0 ==> HighMask(width, clear) % 2 == 1 && HighMask(width, clear) / 2 == HighMask(width - 1, clear)
    ensures clear >= 1 ==>
      HighMask(width, clear) % 2 == 0 && HighMask(width, clear) / 2 == HighMask(width - 1, clear - 1)
  {
    if clear >= 1 {
      var half := HighMask(width - 1, clear - 1);
      assert HighMask(width, clear) == half * 2 + 0;
      hide Pow2, HighMask;
      DigitOf(half, 2, 0);
    } else {
      var half := HighMask(width - 1, clear);
      assert HighMask(width, clear) == half * 2 + 1;
      hide Pow2, HighMask;
      DigitOf(half, 2, 1);
    }
  }

  lemma HalfQuotient(x: nat, p: nat)
    requires p >= 1
    ensures x / (2 * p) == x / 2 / p
  {
    var q, r := x / 2 / p, x / 2 % p;
    Division(x / 2, p);
    assert 2 * p * q == 2 * (q * p);
    QuotientIs(x, 2 * p, q, 2 * r + x % 2);
  }

  lemma {:induction false} AndZero(x: nat)
    ensures BitAnd(x, 0) == 0
  {
    if x > 0 {
      AndZero(x / 2);
    }
  }

  /** Two masked values agree exactly when the values agree above the cleared bits. */
  lemma MaskedEqual(x: nat, y: nat, width: nat, clear: nat)
    requires clear <= width && x < Pow2(width) && y < Pow2(width)
    ensures BitAnd(x, HighMask(width, clear)) == BitAnd(y, HighMask(width, clear)) <==>
      x / Pow2(clear) == y / Pow2(clear)
  {
    hide BitAnd, HighMask, Pow2;
    MaskClears(x, width, clear);
    MaskClears(y, width, clear);
    SameMultiple(x / Pow2(clear), y / Pow2(clear), Pow2(clear));
  }

  lemma SameMultiple(a: nat, b: nat, p: nat)
    requires p >= 1
    ensures a * p == b * p <==> a == b
  {
    if a * p == b * p {
      assert p * (a - b) == 0;
      NoMultiple(p, a - b);
    }
  }

  lemma WordSize(n: nat)
    requires n == 32
    ensures Pow2(n) == 0x1_0000_0000
  {
    ByteSize(n - 32);
    ByteSize(n - 24);
    ByteSize(n - 16);
    ByteSize(n - 8);
  }

  lemma ByteSize(n: nat)
    ensures Pow2(n + 8) == Pow2(n) * 256
  {
    assert Pow2(n + 2) == 4 * Pow2(n);
    assert Pow2(n + 4) == 4 * Pow2(n + 2);
    assert Pow2(n + 6) == 4 * Pow2(n + 4);
    assert Pow2(n + 8) == 4 * Pow2(n + 6);
  }

  /** The same for a 32-bit word. */
  lemma MaskWord(x: nat, y: nat, clear: nat)
    requires clear <= 32 && x < 0x1_0000_0000 && y < 0x1_0000_0000
    ensures BitAnd(x, HighMask(32, clear)) == x / Pow2(clear) * Pow2(clear)
    ensures BitAnd(x, HighMask(32, clear)) == BitAnd(y, HighMask(32, clear)) <==>
      x / Pow2(clear) == y / Pow2(clear)
  {
    hide Pow2, BitAnd, HighMask;
    var width: nat :| width == 32;
    WordSize(width);
    MaskClears(x, width, clear);
    MaskedEqual(x, y, width, clear);
  }

  /** A value lies in the block above a masked base exactly when it shares the base's high bits. */
  lemma InBlock(x: nat, base: nat, p: nat)
    requires p >= 1
    ensures base / p * p <= x <= base / p * p + (p - 1) <==> x / p == base / p
  {
    var q := base / p;
    Division(x, p);
    if q * p <= x <= q * p + (p - 1) {
      assert p * q == q * p;
      QuotientIs(x, p, q, x - q * p);
    }
  }
}

module Ipv6Cidr {
  import opened Wrappers
  import opened Numbers
  import opened BitMasks

  /** The bytes after the first `f` do not reach the prefix value. */
  lemma {:induction false} TopBytes(bytes: seq<nat>, f: nat)
    requires f <= |bytes| && Below(256, bytes)
    ensures Value(256, bytes) / Pow2(8 * (|bytes| - f)) == Value(256, bytes[..f])
    decreases |bytes|
  {
    var n := |bytes|;
    if f == n {
      assert bytes[..f] == bytes && Pow2(0) == 1;
    } else {
      var front := bytes[..n - 1];
      assert front[..f] == bytes[..f];
      TopBytes(front, f);
      var low, p := bytes[n - 1], Pow2(8 * (n - 1 - f));
      BytePower(8 * (n - 1 - f));
      var q := Value(256, bytes[..f]);
      Division(Value(256, front), p);
      var r := Value(256, front) % p;
      DigitFits(r, p, 256, low);
      Reassemble(q, p, r, low);
      QuotientIs(Value(256, bytes), p * 256, q, r * 256 + low);
    }
  }

  lemma BytePower(n: nat)
    ensures Pow2(n + 8) == Pow2(n) * 256 && Pow2(8) == 256
  {
    ByteSize(n);
    ByteSize(0);
  }

  lemma Reassemble(q: nat, p: nat, r: nat, low: nat)
    ensures (q * p + r) * 256 + low == (p * 256) * q + (r * 256 + low)
  {
  }

  /** The address bits a prefix of `bits` looks at. */
  function Prefix(bytes: seq<nat>, bits: nat): int
    requires |bytes| == 16 && bits <= 128
  {
    Value(256, bytes) / Pow2(128 - bits)
  }

  lemma PrefixOfWholeBytes(a: seq<nat>, b: seq<nat>, f: nat)
    requires |a| == |b| == 16 && Below(256, a) && Below(256, b) && f <= 16
    ensures Prefix(a, 8 * f) == Prefix(b, 8 * f) <==> a[..f] == b[..f]
  {
    TopBytes(a, f);
    TopBytes(b, f);
    if Prefix(a, 8 * f) == Prefix(b, 8 * f) {
      ValueIsInjective(256, a[..f], b[..f]);
    }
  }

  /** A prefix that ends inside byte `f` compares the bytes before it and that byte's high bits. */
  lemma PrefixInsideByte(a: seq<nat>, b: seq<nat>, f: nat, rem: nat)
    requires |a| == |b| == 16 && Below(256, a) && Below(256, b) && f < 16 && 0 < rem < 8
    ensures Prefix(a, 8 * f + rem) == Prefix(b, 8 * f + rem) <==>
      a[..f] == b[..f] && a[f] / Pow2(8 - rem) == b[f] / Pow2(8 - rem)
  {
    var s, w := Pow2(8 - rem), Pow2(rem);
    PowSum(rem, 8 - rem);
    BytePower(0);
    SplitPrefix(a, f, rem);
    SplitPrefix(b, f, rem);
    hide Pow2, Prefix, Value;
    ByteBelow(a[f], s, w);
    ByteBelow(b[f], s, w);
    SameDigits(Value(256, a[..f]), a[f] / s, Value(256, b[..f]), b[f] / s, w);
    if Value(256, a[..f]) == Value(256, b[..f]) {
      ValueIsInjective(256, a[..f], b[..f]);
    }
  }

  lemma LessByProduct(a: nat, b: nat, s: nat)
    requires a * s < b * s
    ensures a < b
  {
  }

  lemma ByteBelow(x: nat, s: nat, w: nat)
    requires s >= 1 && x < s * w
    ensures x / s < w
  {
    Division(x, s);
    LessByProduct(x / s, w, s);
  }

  lemma SplitPrefix(a: seq<nat>, f: nat, rem: nat)
    requires |a| == 16 && Below(256, a) && f < 16 && 0 < rem < 8
    ensures Prefix(a, 8 * f + rem) == Value(256, a[..f]) * Pow2(rem) + a[f] / Pow2(8 - rem)
  {
    var s, w := Pow2(8 - rem), Pow2(rem);
    TopBytes(a, f + 1);
    PowSum(rem, 8 - rem);
    PowSum(8 * (15 - f), 8 - rem);
    BytePower(0);
    hide Pow2, Value;
    var top := Value(256, a[..f + 1]);
    assert a[..f + 1] == a[..f] + [a[f]];
    ValueAppend(256, a[..f], a[f]);
    DivideTwice(Value(256, a), Pow2(8 * (15 - f)), s);
    ShiftedQuotient(Value(256, a[..f]), w, s, a[f]);
  }

  lemma DivideTwice(x: nat, p: nat, s: nat)
    requires p >= 1 && s >= 1
    ensures p * s >= 1 && x / (p * s) == x / p / s
  {
    Division(x, p);
    Division(x / p, s);
    var q, r, t := x / p / s, x / p % s, x % p;
    DigitFits(r, s, p, t);
    assert (q * s + r) * p + t == (p * s) * q + (r * p + t);
    QuotientIs(x, p * s, q, r * p + t);
  }

  lemma ShiftedQuotient(v: nat, w: nat, s: nat, x: nat)
    requires s >= 1 && w * s == 256 && x < 256
    ensures (v * 256 + x) / s == v * w + x / s
  {
    Division(x, s);
    assert v * (w * s) + (x / s * s + x % s) == s * (v * w + x / s) + x % s;
    QuotientIs(v * 256 + x, s, v * w + x / s, x % s);
  }

  /** The byte loop and the final masked byte of `ipv6InCidr`. */
  method BytesInCidr(ip: seq<nat>, range: seq<nat>, bits: nat) returns (r: bool)
    requires |ip| == |range| == 16 && Below(256, ip) && Below(256, range) && bits <= 128
    ensures r <==> Prefix(ip, bits) == Prefix(range, bits)
  {
    var fullBytes, remaining := bits / 8, bits % 8;
    for i := 0 to fullBytes
      invariant ip[..i] == range[..i]
    {
      if ip[i] != range[i] {
        Differs(ip, range, i, fullBytes);
        PrefixOfWholeBytes(ip, range, fullBytes);
        if remaining > 0 {
          PrefixInsideByte(ip, range, fullBytes, remaining);
        }
        return false;
      }
    }
    if remaining == 0 {
      PrefixOfWholeBytes(ip, range, fullBytes);
      return true;
    }
    PrefixInsideByte(ip, range, fullBytes, remaining);
    ByteMask(remaining);
    MaskedEqual(ip[fullBytes], range[fullBytes], 8, 8 - remaining);
    var mask := 0xff * Pow2(8 - remaining) % 256;
    return BitAnd(ip[fullBytes], mask) == BitAnd(range[fullBytes], mask);
  }

  lemma Differs(a: seq<nat>, b: seq<nat>, i: nat, f: nat)
    requires i < f <= |a| && |a| == |b| && a[i] != b[i]
    ensures a[..f] != b[..f]
  {
    assert a[..f][i] != b[..f][i];
  }

  /** `(0xff << (8 - remaining)) & 0xff`. */
  lemma ByteMask(remaining: nat)
    requires 0 < remaining < 8
    ensures Pow2(8) == 256
    ensures 0xff * Pow2(8 - remaining) % 256 == HighMask(8, 8 - remaining)
  {
    BytePower(0);
    PowMono(8 - remaining, 8);
    PowMono(0, remaining - 1);
    PowSum(remaining, 8 - remaining);
    var p := Pow2(8 - remaining);
    assert Pow2(remaining) >= 2;
    assert 2 * p <= 256;
    assert 0xff * p == 256 * (p - 1) + (256 - p);
  }
}
