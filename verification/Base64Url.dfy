/** Base64url without padding, section 5 of RFC 4648, as Go's RawURLEncoding reads and writes it. */
module Base64Url {
  import opened Wrappers

  type Byte = x: int | 0 <= x < 256

  /** The letter for a value of six bits. */
  function Letter(v: int): char
    requires 0 <= v < 64
  {
    if v < 26 then (v + 'A' as int) as char
    else if v < 52 then (v - 26 + 'a' as int) as char
    else if v < 62 then (v - 52 + '0' as int) as char
    else if v == 62 then '-'
    else '_'
  }

  /** The value of a letter, or -1 for a character outside the alphabet. */
  function Sextet(c: char): (v: int)
    ensures -1 <= v < 64
    ensures v >= 0 ==> Letter(v) == c
  {
    if 'A' <= c <= 'Z' then c as int - 'A' as int
    else if 'a' <= c <= 'z' then c as int - 'a' as int + 26
    else if '0' <= c <= '9' then c as int - '0' as int + 52
    else if c == '-' then 62
    else if c == '_' then 63
    else -1
  }

  /** The alphabet in its order, Table 2 of RFC 4648: the marked letters, and from each to the next one the
      letters that follow it. */
  lemma Alphabet(v: int)
    requires 0 <= v < 64
    ensures Letter(0) == 'A' && Letter(25) == 'Z' && Letter(26) == 'a' && Letter(51) == 'z'
    ensures Letter(52) == '0' && Letter(61) == '9' && Letter(62) == '-' && Letter(63) == '_'
    ensures v !in {25, 51, 61, 62, 63} ==> Letter(v + 1) as int == Letter(v) as int + 1
  {
  }

  lemma SextetOfLetter(v: int)
    requires 0 <= v < 64
    ensures Sextet(Letter(v)) == v
  {
  }

  function Encode(b: seq<Byte>): string {
    if |b| == 0 then ""
    else if |b| == 1 then [Letter(b[0] / 4), Letter(b[0] % 4 * 16)]
    else if |b| == 2 then [Letter(b[0] / 4), Letter(b[0] % 4 * 16 + b[1] / 16), Letter(b[1] % 16 * 4)]
    else
      [Letter(b[0] / 4), Letter(b[0] % 4 * 16 + b[1] / 16), Letter(b[1] % 16 * 4 + b[2] / 64), Letter(b[2] % 64)]
      + Encode(b[3..])
  }

  /** The decoder skips line breaks wherever they are. */
  function WithoutBreaks(s: string): string {
    if s == "" then "" else (if s[0] == '\r' || s[0] == '\n' then "" else [s[0]]) + WithoutBreaks(s[1..])
  }

  /** Left-over bits at the end are ignored, as in Go's non-strict decoder. */
  function DecodeLetters(s: string): Option<seq<Byte>> {
    if |s| == 0 then Some([])
    else if |s| == 1 then None
    else
      var v0, v1 := Sextet(s[0]), Sextet(s[1]);
      if v0 < 0 || v1 < 0 then None
      else
        var b0 := v0 * 4 + v1 / 16;
        if |s| == 2 then Some([b0])
        else
          var v2 := Sextet(s[2]);
          if v2 < 0 then None
          else
            var b1 := v1 % 16 * 16 + v2 / 4;
            if |s| == 3 then Some([b0, b1])
            else
              var v3 := Sextet(s[3]);
              var rest := DecodeLetters(s[4..]);
              if v3 < 0 || rest.None? then None
              else Some([b0, b1, v2 % 4 * 64 + v3] + rest.value)
  }

  function Decode(s: string): Option<seq<Byte>> {
    DecodeLetters(WithoutBreaks(s))
  }

  lemma {:induction false} EncodesToLetters(b: seq<Byte>, c: char)
    requires c in Encode(b)
    ensures Sextet(c) >= 0
  {
    if |b| == 1 {
      SextetOfLetter(b[0] / 4);
      SextetOfLetter(b[0] % 4 * 16);
    } else if |b| == 2 {
      SextetOfLetter(b[0] / 4);
      SextetOfLetter(b[0] % 4 * 16 + b[1] / 16);
      SextetOfLetter(b[1] % 16 * 4);
    } else if |b| > 2 {
      SextetOfLetter(b[0] / 4);
      SextetOfLetter(b[0] % 4 * 16 + b[1] / 16);
      SextetOfLetter(b[1] % 16 * 4 + b[2] / 64);
      SextetOfLetter(b[2] % 64);
      if c in Encode(b[3..]) { EncodesToLetters(b[3..], c); }
    }
  }

  lemma {:induction false} LettersStay(s: string)
    requires forall c :: c in s ==> Sextet(c) >= 0
    ensures WithoutBreaks(s) == s
  {
    if s != "" {
      assert s[0] in s;
      LettersStay(s[1..]);
    }
  }

  /** Splitting three bytes into four groups of six bits loses nothing. */
  lemma GroupsRejoin(x: Byte, y: Byte, z: Byte)
    ensures x / 4 * 4 + (x % 4 * 16 + y / 16) / 16 == x
    ensures (x % 4 * 16 + y / 16) % 16 * 16 + (y % 16 * 4 + z / 64) / 4 == y
    ensures (y % 16 * 4 + z / 64) % 4 * 64 + z % 64 == z
    ensures x / 4 < 64 && x % 4 * 16 + y / 16 < 64 && y % 16 * 4 + z / 64 < 64
  {
  }

  function Quad(x: Byte, y: Byte, z: Byte): string {
    [Letter(x / 4), Letter(x % 4 * 16 + y / 16), Letter(y % 16 * 4 + z / 64), Letter(z % 64)]
  }

  lemma QuadDecodes(x: Byte, y: Byte, z: Byte, rest: string)
    ensures DecodeLetters(Quad(x, y, z) + rest) == match DecodeLetters(rest)
                                                   case None => None
                                                   case Some(b) => Some([x, y, z] + b)
  {
    GroupsRejoin(x, y, z);
    SextetOfLetter(x / 4);
    SextetOfLetter(x % 4 * 16 + y / 16);
    SextetOfLetter(y % 16 * 4 + z / 64);
    SextetOfLetter(z % 64);
    assert (Quad(x, y, z) + rest)[4..] == rest;
  }

  lemma OneByte(x: Byte)
    ensures DecodeLetters(Encode([x])) == Some([x])
  {
    var high, low := x / 4, x % 4 * 16;
    assert high * 4 + low / 16 == x;
    SextetOfLetter(high);
    SextetOfLetter(low);
    assert Encode([x]) == [Letter(high), Letter(low)];
  }

  lemma HighAndMiddle(x: Byte, y: Byte)
    ensures x / 4 * 4 + (x % 4 * 16 + y / 16) / 16 == x && (x % 4 * 16 + y / 16) % 16 == y / 16
  {
  }

  lemma TwoBytes(x: Byte, y: Byte)
    ensures DecodeLetters(Encode([x, y])) == Some([x, y])
  {
    var high, middle, low := x / 4, x % 4 * 16 + y / 16, y % 16 * 4;
    HighAndMiddle(x, y);
    assert middle % 16 * 16 + low / 4 == y;
    SextetOfLetter(high);
    SextetOfLetter(middle);
    SextetOfLetter(low);
    assert Encode([x, y]) == [Letter(high), Letter(middle), Letter(low)];
  }

  lemma ThreeBytes(x: Byte, y: Byte, z: Byte, rest: seq<Byte>)
    ensures Encode([x, y, z] + rest) == Quad(x, y, z) + Encode(rest)
  {
    assert ([x, y, z] + rest)[3..] == rest;
  }

  lemma {:induction false} LettersRoundTrip(b: seq<Byte>)
    ensures DecodeLetters(Encode(b)) == Some(b)
  {
    if |b| == 0 {
    } else if |b| == 1 {
      assert b == [b[0]];
      OneByte(b[0]);
    } else if |b| == 2 {
      assert b == [b[0], b[1]];
      TwoBytes(b[0], b[1]);
    } else {
      var rest := b[3..];
      assert b == [b[0], b[1], b[2]] + rest;
      LettersRoundTrip(rest);
      ThreeBytes(b[0], b[1], b[2], rest);
      QuadDecodes(b[0], b[1], b[2], Encode(rest));
    }
  }

  /** Decoding undoes encoding, and an encoding holds only letters of the alphabet. */
  lemma RoundTrip(b: seq<Byte>)
    ensures Decode(Encode(b)) == Some(b)
    ensures forall c :: c in Encode(b) ==> Sextet(c) >= 0
  {
    forall c | c in Encode(b) ensures Sextet(c) >= 0 { EncodesToLetters(b, c); }
    LettersStay(Encode(b));
    LettersRoundTrip(b);
  }

  /** The examples of section 10 of RFC 4648, without their padding. */
  lemma Vectors()
    ensures Encode([]) == "" && Encode([0x66]) == "Zg" && Encode([0x66, 0x6F]) == "Zm8"
    ensures Encode([0x66, 0x6F, 0x6F]) == "Zm9v"
    ensures Encode([0x66, 0x6F, 0x6F, 0x62, 0x61, 0x72]) == "Zm9vYmFy"
  {
    assert [0x66, 0x6F, 0x6F][3..] == [];
    assert [0x66, 0x6F, 0x6F, 0x62, 0x61, 0x72][3..] == [0x62, 0x61, 0x72];
    assert [0x62, 0x61, 0x72][3..] == [];
    assert Encode([0x62, 0x61, 0x72]) == "YmFy";
  }

  lemma {:induction false} BreaksSplit(a: string, b: string)
    ensures WithoutBreaks(a + b) == WithoutBreaks(a) + WithoutBreaks(b)
  {
    if a == "" {
      assert a + b == b;
    } else {
      assert (a + b)[1..] == a[1..] + b;
      BreaksSplit(a[1..], b);
    }
  }

  lemma BreakVanishes(s: string, i: nat, c: char)
    requires i <= |s| && (c == '\r' || c == '\n')
    ensures WithoutBreaks(s[..i] + [c] + s[i..]) == WithoutBreaks(s)
  {
    assert s[..i] + s[i..] == s && [c][1..] == "";
    BreaksSplit(s[..i], s[i..]);
    BreaksSplit(s[..i] + [c], s[i..]);
    BreaksSplit(s[..i], [c]);
  }

  /** A line break anywhere in an encoding is skipped. */
  lemma BreaksAreSkipped(b: seq<Byte>, i: nat, c: char)
    requires i <= |Encode(b)| && (c == '\r' || c == '\n')
    ensures Decode(Encode(b)[..i] + [c] + Encode(b)[i..]) == Some(b)
  {
    BreakVanishes(Encode(b), i, c);
    RoundTrip(b);
  }

  /** Any other character outside the alphabet is refused. */
  lemma {:induction false} OutsidersRefused(s: string, c: char)
    requires c in s && Sextet(c) < 0
    ensures DecodeLetters(s) == None
    decreases |s|
  {
    if |s| > 4 {
      assert s == s[..4] + s[4..];
      if c in s[4..] { OutsidersRefused(s[4..], c); }
    }
  }
}
