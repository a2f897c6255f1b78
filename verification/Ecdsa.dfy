/**
 ECDSA signatures as the pair r || s of fixed-width big-endian numbers, section 3.4 of RFC 7518:
 written by internal/auth/jwt/testutil.go, split by internal/auth/jwt/validator.go.
 */
module Ecdsa {
  import opened Wrappers
  import opened Base64Url

  function Pow256(n: nat): (p: nat)
    ensures p >= 1
  {
    if n == 0 then 1 else 256 * Pow256(n - 1)
  }

  /** What `big.Int.SetBytes` reads. */
  function FromBytes(b: seq<Byte>): nat {
    if b == [] then 0 else 256 * FromBytes(b[..|b| - 1]) + b[|b| - 1]
  }

  /** What `big.Int.Bytes` writes: as few bytes as possible. */
  function ToBytes(n: nat): seq<Byte> {
    if n == 0 then [] else ToBytes(n / 256) + [n % 256]
  }

  function Zeros(n: nat): (s: seq<Byte>)
    ensures |s| == n
  {
    Repeat(0, n)
  }

  function Padded(n: nat, size: nat): seq<Byte>
    requires |ToBytes(n)| <= size
  {
    Zeros(size - |ToBytes(n)|) + ToBytes(n)
  }

  /** The first byte counts most. */
  lemma {:induction false} BigEndian(x: Byte, b: seq<Byte>)
    ensures FromBytes([x] + b) == x * Pow256(|b|) + FromBytes(b)
  {
    if b == [] {
      assert [x] + b == [x] && [x][..0] == [];
    } else {
      var n := |b| - 1;
      assert ([x] + b)[..|b|] == [x] + b[..n];
      BigEndian(x, b[..n]);
    }
  }

  lemma {:induction false} ToBytesFits(n: nat, size: nat)
    ensures |ToBytes(n)| <= size <==> n < Pow256(size)
  {
    if size > 0 && n > 0 { ToBytesFits(n / 256, size - 1); }
  }

  lemma {:induction false} ZerosAreZero(n: nat)
    ensures FromBytes(Zeros(n)) == 0
  {
    if n > 0 {
      assert Zeros(n)[..|Zeros(n)| - 1] == Zeros(n - 1);
      ZerosAreZero(n - 1);
    }
  }

  lemma {:induction false} PaddedReadsBack(zeros: nat, n: nat)
    ensures FromBytes(Zeros(zeros) + ToBytes(n)) == n
  {
    var b := Zeros(zeros) + ToBytes(n);
    if n == 0 {
      assert b == Zeros(zeros);
      ZerosAreZero(zeros);
    } else {
      assert b[..|b| - 1] == Zeros(zeros) + ToBytes(n / 256);
      PaddedReadsBack(zeros, n / 256);
    }
  }

  lemma {:induction false} ReadsBelow(b: seq<Byte>)
    ensures FromBytes(b) < Pow256(|b|)
  {
    if b != [] { ReadsBelow(b[..|b| - 1]); }
  }

  /** Two byte strings of the same length that read the same are the same. */
  lemma {:induction false} ReadsInjectively(a: seq<Byte>, b: seq<Byte>)
    requires |a| == |b| && FromBytes(a) == FromBytes(b)
    ensures a == b
  {
    if a != [] {
      var n := |a| - 1;
      ReadsInjectively(a[..n], b[..n]);
      assert a == a[..n] + [a[n]] && b == b[..n] + [b[n]];
    }
  }

  /** Copies `bytes` to the end of a zeroed buffer of `size` bytes. */
  method PadTo(bytes: seq<Byte>, size: nat) returns (buffer: array<Byte>)
    requires |bytes| <= size
    ensures fresh(buffer) && buffer[..] == Zeros(size - |bytes|) + bytes
  {
    buffer := new Byte[size](_ => 0);
    var start := size - |bytes|;
    for i := 0 to |bytes|
      invariant buffer[..start] == Zeros(start)
      invariant buffer[start..start + i] == bytes[..i]
    {
      buffer[start + i] := bytes[i];
      assert buffer[start..start + i + 1] == buffer[start..start + i] + [bytes[i]];
    }
    assert buffer[..] == buffer[..start] + buffer[start..start + |bytes|];
  }

  /** The signature bytes for r and s, both below 256^size as for any curve of that size. */
  method EncodeSignature(r: nat, s: nat, size: nat) returns (sig: seq<Byte>)
    requires r < Pow256(size) && s < Pow256(size)
    ensures |ToBytes(r)| <= size && |ToBytes(s)| <= size
    ensures sig == Padded(r, size) + Padded(s, size)
  {
    ToBytesFits(r, size);
    ToBytesFits(s, size);
    var rPadded := PadTo(ToBytes(r), size);
    var sPadded := PadTo(ToBytes(s), size);
    sig := rPadded[..] + sPadded[..];
  }

  /** The verifier halves the signature, whatever its length, and refuses only an odd one. */
  function SplitSignature(sig: seq<Byte>): Result<(nat, nat), string> {
    if |sig| % 2 != 0 then Err("invalid ECDSA signature length")
    else Ok((FromBytes(sig[..|sig| / 2]), FromBytes(sig[|sig| / 2..])))
  }

  /** A number that fits is padded to exactly `size` bytes, which read back as the number. */
  lemma PaddedFits(n: nat, size: nat)
    requires n < Pow256(size)
    ensures |ToBytes(n)| <= size && |Padded(n, size)| == size && FromBytes(Padded(n, size)) == n
  {
    ToBytesFits(n, size);
    PaddedReadsBack(size - |ToBytes(n)|, n);
  }

  /** Splitting a signature gives back the numbers it was made of. */
  lemma SplitUndoesEncode(r: nat, s: nat, size: nat)
    requires r < Pow256(size) && s < Pow256(size)
    ensures |ToBytes(r)| <= size && |ToBytes(s)| <= size
    ensures SplitSignature(Padded(r, size) + Padded(s, size)) == Ok((r, s))
  {
    PaddedFits(r, size);
    PaddedFits(s, size);
    var sig := Padded(r, size) + Padded(s, size);
    assert sig[..size] == Padded(r, size) && sig[size..] == Padded(s, size);
  }

  /** Reading a byte string and padding the number to the old length gives the string back. */
  lemma RereadPadded(b: seq<Byte>)
    ensures FromBytes(b) < Pow256(|b|) && |ToBytes(FromBytes(b))| <= |b|
    ensures Padded(FromBytes(b), |b|) == b
  {
    var n := FromBytes(b);
    ReadsBelow(b);
    PaddedFits(n, |b|);
    ReadsInjectively(b, Padded(n, |b|));
  }

  /** Every signature of even length is the encoding of the numbers it splits into. */
  lemma EncodeUndoesSplit(sig: seq<Byte>)
    requires |sig| % 2 == 0
    ensures var size := |sig| / 2;
            var (r, s) := SplitSignature(sig).value;
            && r < Pow256(size) && s < Pow256(size)
            && |ToBytes(r)| <= size && |ToBytes(s)| <= size
            && Padded(r, size) + Padded(s, size) == sig
  {
    RereadPadded(sig[..|sig| / 2]);
    RereadPadded(sig[|sig| / 2..]);
    assert sig == sig[..|sig| / 2] + sig[|sig| / 2..];
  }
}
