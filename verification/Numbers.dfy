/** Positional numbers: powers of two, digit sequences, and the division facts they need. */
module Numbers {

  function Pow2(n: nat): (p: nat)
    ensures p >= 1
  {
    if n == 0 then 1 else 2 * Pow2(n - 1)
  }

  predicate Below(base: nat, digits: seq<nat>) {
    forall i | 0 <= i < |digits| :: digits[i] < base
  }

  /** The number whose big-endian digits these are. */
  function Value(base: nat, digits: seq<nat>): nat {
    if digits == [] then 0 else Value(base, digits[..|digits| - 1]) * base + digits[|digits| - 1]
  }

  lemma ValueAppend(base: nat, digits: seq<nat>, d: nat)
    ensures Value(base, digits + [d]) == Value(base, digits) * base + d
  {
    assert (digits + [d])[..|digits|] == digits;
  }

  lemma {:induction false} ValueIsInjective(base: nat, a: seq<nat>, b: seq<nat>)
    requires base >= 1 && Below(base, a) && Below(base, b) && |a| == |b|
    requires Value(base, a) == Value(base, b)
    ensures a == b
  {
    if a != [] {
      var k := |a| - 1;
      DigitOf(Value(base, a[..k]), base, a[k]);
      DigitOf(Value(base, b[..k]), base, b[k]);
      ValueIsInjective(base, a[..k], b[..k]);
      assert a == a[..k] + [a[k]] && b == b[..k] + [b[k]];
    }
  }

  lemma DigitOf(q: nat, base: nat, d: nat)
    requires d < base
    ensures (q * base + d) % base == d && (q * base + d) / base == q
  {
    var q' := (q * base + d) / base;
    assert base * (q' - q) == d - (q * base + d) % base;
    NoMultiple(base, q' - q);
  }

  lemma SameDigits(q: nat, d: nat, q': nat, d': nat, base: nat)
    requires d < base && d' < base
    ensures q * base + d == q' * base + d' <==> q == q' && d == d'
  {
    DigitOf(q, base, d);
    DigitOf(q', base, d');
  }

  lemma NoMultiple(p: int, d: int)
    requires -p < p * d < p
    ensures d == 0
  {
  }

  lemma {:induction false} PowSum(a: nat, b: nat)
    ensures Pow2(a + b) == Pow2(a) * Pow2(b)
  {
    if a > 0 {
      PowSum(a - 1, b);
      assert Pow2(a + b) == 2 * Pow2(a - 1 + b);
      assert 2 * (Pow2(a - 1) * Pow2(b)) == (2 * Pow2(a - 1)) * Pow2(b);
    }
  }

  lemma DigitFits(d: nat, base: nat, w: nat, x: nat)
    requires d < base && x < w
    ensures d * w + x < base * w
  {
    assert (d + 1) * w <= base * w;
  }

  lemma Division(x: nat, p: nat)
    requires p >= 1
    ensures x == x / p * p + x % p && x % p < p
  {
  }

  lemma QuotientIs(x: nat, p: nat, q: nat, r: nat)
    requires x == p * q + r && r < p
    ensures x / p == q
  {
    var q': int := x / p;
    assert p * (q' - q) == r - x % p;
    NoMultiple(p, q' - q);
  }
}
