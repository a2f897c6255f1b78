/** The comparison of API keys in internal/auth/apikey/apikey.go. */
module ApiKey {
  import opened Wrappers

  /** The byte at `i`, or zero past the end. */
  function At(s: seq<bv8>, i: nat): bv8 {
    if i < |s| then s[i] else 0
  }

  /** `byte(n)`: the low eight bits, of which these are the low `width`. */
  function LowBits(n: nat, width: nat): bv8 {
    if width == 0 then 0 else (LowBits(n / 2, width - 1) << 1) | (if n % 2 == 1 then 1 else 0)
  }

  function LowByte(n: nat): bv8 {
    LowBits(n, 8)
  }

  function Pow2(width: nat): (p: nat)
    ensures p > 0
  {
    if width == 0 then 1 else 2 * Pow2(width - 1)
  }

  /** The largest value of `width` bits. */
  function Mask(width: nat): bv8 {
    if width == 0 then 0 else (Mask(width - 1) << 1) | 1
  }

  lemma ShiftTells(x: bv8, y: bv8, a: bv8, b: bv8, mask: bv8)
    requires x & mask == x && y & mask == y && mask & 0x7F == mask && a <= 1 && b <= 1
    ensures (x << 1) | a == (y << 1) | b <==> x == y && a == b
    ensures ((x << 1) | a) & ((mask << 1) | 1) == (x << 1) | a
  {
  }

  lemma MasksFit()
    ensures forall w :: 0 <= w < 8 ==> Mask(w) & 0x7F == Mask(w)
  {
    assert Mask(1) == 0x01 && Mask(2) == 0x03;
    assert Mask(3) == 0x07 && Mask(4) == 0x0F;
    assert Mask(5) == 0x1F && Mask(6) == 0x3F && Mask(7) == 0x7F;
  }

  lemma HalvesTell(m: nat, n: nat, p: nat)
    requires p > 0
    ensures m % (2 * p) == n % (2 * p) <==> m / 2 % p == n / 2 % p && m % 2 == n % 2
  {
    HalfRemainder(m, p);
    HalfRemainder(n, p);
  }

  lemma HalfRemainder(n: nat, p: nat)
    requires p > 0
    ensures n % (2 * p) == 2 * (n / 2 % p) + n % 2
  {
    var q, r := n / 2 / p, n / 2 % p;
    assert n / 2 == p * q + r;
    assert n == (2 * p) * q + (2 * r + n % 2) by {
      assert (2 * p) * q == 2 * (p * q);
    }
    RemainderUnique(n, 2 * p, q, 2 * r + n % 2);
  }

  lemma MultiplesAreApart(d: int, k: int)
    requires d > 0
    ensures k >= 1 ==> d * k >= d
    ensures k <= -1 ==> d * k <= -d
  {
  }

  lemma RemainderUnique(n: nat, d: nat, q: nat, r: nat)
    requires d > 0 && r < d && n == d * q + r
    ensures n % d == r
  {
    var k := n / d - q;
    assert n == d * (n / d) + n % d;
    assert d * (n / d) - d * q == d * k;
    MultiplesAreApart(d, k);
  }

  lemma {:induction false} LowBitsMasked(n: nat, width: nat)
    requires width <= 8
    ensures LowBits(n, width) & Mask(width) == LowBits(n, width)
    decreases width
  {
    if width > 0 {
      LowBitsMasked(n / 2, width - 1);
      MasksFit();
      var x, a := LowBits(n / 2, width - 1), if n % 2 == 1 then 1 else 0;
      ShiftTells(x, x, a, a, Mask(width - 1));
    }
  }

  lemma {:induction false} LowBitsTell(m: nat, n: nat, width: nat)
    requires width <= 8
    ensures LowBits(m, width) == LowBits(n, width) <==> m % Pow2(width) == n % Pow2(width)
    decreases width
  {
    if width > 0 {
      LowBitsTell(m / 2, n / 2, width - 1);
      LowBitsMasked(m / 2, width - 1);
      LowBitsMasked(n / 2, width - 1);
      MasksFit();
      ShiftTells(LowBits(m / 2, width - 1), LowBits(n / 2, width - 1),
                 if m % 2 == 1 then 1 else 0, if n % 2 == 1 then 1 else 0, Mask(width - 1));
      HalvesTell(m, n, Pow2(width - 1));
    }
  }

  lemma LowByteTells(m: nat, n: nat)
    ensures LowByte(m) == LowByte(n) <==> m % 256 == n % 256
  {
    LowBitsTell(m, n, 8);
    assert Pow2(4) == 16 && Pow2(8) == 256;
  }

  lemma Accumulates(result: bv8, a: bv8, b: bv8)
    ensures result | (a ^ b) == 0 <==> result == 0 && a == b
  {
  }

  function Longer(left: seq<bv8>, right: seq<bv8>): nat {
    if |right| > |left| then |right| else |left|
  }

  /** What the accumulator can tell: the lengths in their low eight bits, and the bytes padded with zeros. */
  predicate Indistinct(left: seq<bv8>, right: seq<bv8>) {
    |left| % 256 == |right| % 256 && forall i :: 0 <= i < Longer(left, right) ==> At(left, i) == At(right, i)
  }

  method ConstantTimeEquals(left: seq<bv8>, right: seq<bv8>) returns (equal: bool)
    ensures equal <==> Indistinct(left, right)
  {
    var maxLen := |left|;
    if |right| > maxLen {
      maxLen := |right|;
    }
    var result := LowByte(|left|) ^ LowByte(|right|);
    LowByteTells(|left|, |right|);
    Accumulates(0, LowByte(|left|), LowByte(|right|));
    for i := 0 to maxLen
      invariant result == 0 <==> |left| % 256 == |right| % 256 && forall j :: 0 <= j < i ==> At(left, j) == At(right, j)
    {
      var leftByte := At(left, i);
      var rightByte := At(right, i);
      Accumulates(result, leftByte, rightByte);
      result := result | (leftByte ^ rightByte);
    }
    equal := result == 0;
  }

  /** `long` is `short` followed by zero bytes, a multiple of 256 of them. */
  predicate ZeroExtends(long: seq<bv8>, short: seq<bv8>) {
    |short| <= |long| && (|long| - |short|) % 256 == 0 && long == short + Repeat(0, |long| - |short|)
  }

  /** The comparison accepts exactly the equal keys and those that differ by a multiple of 256 zero
      bytes at the end; so it is equality among keys without zero bytes. */
  lemma AcceptsExactly(left: seq<bv8>, right: seq<bv8>)
    ensures Indistinct(left, right) <==> ZeroExtends(left, right) || ZeroExtends(right, left)
    ensures 0 !in left && 0 !in right ==> (Indistinct(left, right) <==> left == right)
  {
    if |left| >= |right| { LongerAccepted(left, right); } else { LongerAccepted(right, left); }
    if Indistinct(left, right) && |left| != |right| {
      var long, short := if |left| > |right| then left else right, if |left| > |right| then right else left;
      assert At(long, |short|) == At(short, |short|) == 0;
      assert long[|short|] in long;
    }
    if left == right { assert ZeroExtends(left, right); }
  }

  lemma LongerAccepted(long: seq<bv8>, short: seq<bv8>)
    requires |long| >= |short|
    ensures Indistinct(long, short) <==> ZeroExtends(long, short)
    ensures Indistinct(short, long) <==> ZeroExtends(long, short)
  {
    var padded := short + Repeat(0, |long| - |short|);
    if Indistinct(long, short) || Indistinct(short, long) {
      assert forall i :: 0 <= i < |long| ==> At(long, i) == At(short, i);
      assert Longer(long, short) == Longer(short, long) == |long|;
      assert forall i :: 0 <= i < |long| ==> long[i] == At(long, i) && padded[i] == At(short, i);
    }
    if ZeroExtends(long, short) {
      assert forall i :: 0 <= i < |long| ==> At(long, i) == padded[i] == At(short, i);
    }
  }
}
