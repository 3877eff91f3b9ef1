/**
 * The URL-safe base 64 encoding of section 5 of RFC 4648 with the trailing
 * `=` padding left off, as used for the user id inside a password-reset link.
 * Three bytes become four characters; a final one or two bytes become two or
 * three characters.
 */
module Base64Url {
  import opened Wrappers

  /** A byte, as Python's `bytes` holds it. */
  type Byte = x: int | 0 <= x < 256

  /** A 6-bit value: one character's worth of the encoding. */
  type Sextet = x: int | 0 <= x < 64

  /** The character for a 6-bit value: A-Z, a-z, 0-9, then '-' and '_'. */
  function SextetChar(v: Sextet): char
  {
    if v < 26 then ('A' as int + v) as char
    else if v < 52 then ('a' as int + (v - 26)) as char
    else if v < 62 then ('0' as int + (v - 52)) as char
    else if v == 62 then '-'
    else '_'
  }

  /** The 6-bit value of a character of the alphabet; None for any other character. */
  function CharSextet(c: char): Option<Sextet>
  {
    if 'A' <= c <= 'Z' then Some(c as int - 'A' as int)
    else if 'a' <= c <= 'z' then Some(c as int - 'a' as int + 26)
    else if '0' <= c <= '9' then Some(c as int - '0' as int + 52)
    else if c == '-' then Some(62)
    else if c == '_' then Some(63)
    else None
  }

  lemma SextetCharInverse(v: Sextet)
    ensures CharSextet(SextetChar(v)) == Some(v)
  {
  }

  // ---------------------------------------------------------------------------
  // Encoding

  /** Three bytes read as one 24-bit big-endian number. */
  function Pack(b0: Byte, b1: Byte, b2: Byte): (n: nat)
    ensures n < 0x100_0000
  {
    b0 * 0x1_0000 + b1 * 0x100 + b2
  }

  /** The four 6-bit digits of a 24-bit number, most significant first. */
  function Sextets(n: nat): (r: seq<Sextet>)
    requires n < 0x100_0000
    ensures |r| == 4
  {
    [n / 0x4_0000, (n / 0x1000) % 64, (n / 64) % 64, n % 64]
  }

  function EncodeGroup(b0: Byte, b1: Byte, b2: Byte): (s: string)
    ensures |s| == 4
  {
    var d := Sextets(Pack(b0, b1, b2));
    [SextetChar(d[0]), SextetChar(d[1]), SextetChar(d[2]), SextetChar(d[3])]
  }

  /** Encodes bytes with the padding stripped (Django's `urlsafe_base64_encode`). */
  function Encode(b: seq<Byte>): string
  {
    if |b| >= 3 then
      EncodeGroup(b[0], b[1], b[2]) + Encode(b[3..])
    else if |b| == 2 then
      EncodeGroup(b[0], b[1], 0)[..3]
    else if |b| == 1 then
      EncodeGroup(b[0], 0, 0)[..2]
    else
      []
  }

  // ---------------------------------------------------------------------------
  // Decoding

  /** Four 6-bit digits read as one 24-bit number. */
  function Unpack(c0: Sextet, c1: Sextet, c2: Sextet, c3: Sextet): (n: nat)
    ensures n < 0x100_0000
  {
    c0 * 0x4_0000 + c1 * 0x1000 + c2 * 64 + c3
  }

  /** The three bytes of a 24-bit number, most significant first. */
  function Bytes(n: nat): (r: seq<Byte>)
    requires n < 0x100_0000
    ensures |r| == 3
  {
    [n / 0x1_0000, (n / 0x100) % 0x100, n % 0x100]
  }

  /**
   * Decodes unpadded URL-safe base 64. A character outside the alphabet, or a
   * length one more than a multiple of four, is an error (None). Bits beyond
   * the last whole byte are ignored.
   */
  function Decode(s: string): (r: Option<seq<Byte>>)
  {
    if |s| == 0 then Some([])
    else if |s| == 1 then None
    else
      var c0 :- CharSextet(s[0]);
      var c1 :- CharSextet(s[1]);
      if |s| == 2 then
        Some(Bytes(Unpack(c0, c1, 0, 0))[..1])
      else
        var c2 :- CharSextet(s[2]);
        if |s| == 3 then
          Some(Bytes(Unpack(c0, c1, c2, 0))[..2])
        else
          var c3 :- CharSextet(s[3]);
          var rest :- Decode(s[4..]);
          Some(Bytes(Unpack(c0, c1, c2, c3)) + rest)
  }

  /** Reassembling the four 6-bit digits of a 24-bit number gives the number. */
  lemma SextetsRoundTrip(n: nat)
    requires n < 0x100_0000
    ensures var d := Sextets(n); Unpack(d[0], d[1], d[2], d[3]) == n
  {
    var q := n / 64;
    assert n == q * 64 + n % 64;
    var q2 := q / 64;
    assert q == q2 * 64 + q % 64;
    assert q2 == n / 0x1000;
    assert q2 == (q2 / 64) * 64 + q2 % 64;
    assert q2 / 64 == n / 0x4_0000;
  }

  /** Splitting three packed bytes apart gives the bytes. */
  lemma BytesRoundTrip(b0: Byte, b1: Byte, b2: Byte)
    ensures Bytes(Pack(b0, b1, b2)) == [b0, b1, b2]
  {
    var n := Pack(b0, b1, b2);
    assert n == (b0 * 0x100 + b1) * 0x100 + b2;
    assert n / 0x100 == b0 * 0x100 + b1;
    assert n / 0x1_0000 == (n / 0x100) / 0x100;
  }

  /** Three bytes survive being written as four characters and read back. */
  lemma GroupRoundTrip(b0: Byte, b1: Byte, b2: Byte)
    ensures var d := Sextets(Pack(b0, b1, b2));
            Bytes(Unpack(d[0], d[1], d[2], d[3])) == [b0, b1, b2]
  {
    SextetsRoundTrip(Pack(b0, b1, b2));
    BytesRoundTrip(b0, b1, b2);
  }

  /** Two characters of the alphabet decode to the top byte of their 12 bits. */
  lemma DecodeTwo(s: string, c0: Sextet, c1: Sextet)
    requires |s| == 2 && CharSextet(s[0]) == Some(c0) && CharSextet(s[1]) == Some(c1)
    ensures Decode(s) == Some(Bytes(Unpack(c0, c1, 0, 0))[..1])
  {
  }

  /** Three characters of the alphabet decode to the top two bytes of their 18 bits. */
  lemma DecodeThree(s: string, c0: Sextet, c1: Sextet, c2: Sextet)
    requires |s| == 3 && CharSextet(s[0]) == Some(c0) && CharSextet(s[1]) == Some(c1) && CharSextet(s[2]) == Some(c2)
    ensures Decode(s) == Some(Bytes(Unpack(c0, c1, c2, 0))[..2])
  {
  }

  /** Two bytes leave the lowest of the four 6-bit digits zero. */
  lemma LowSextetOfTwoBytes(b0: Byte, b1: Byte)
    ensures Sextets(Pack(b0, b1, 0))[3] == 0
  {
    var n := Pack(b0, b1, 0);
    assert n == (b0 * 1024 + b1 * 4) * 64;
  }

  /** One byte fills only the top two of the four 6-bit digits. */
  lemma LowSextetsOfOneByte(b0: Byte)
    ensures Sextets(Pack(b0, 0, 0))[2] == 0 && Sextets(Pack(b0, 0, 0))[3] == 0
  {
    var n := Pack(b0, 0, 0);
    assert n == (b0 * 1024) * 64;
    assert n / 64 == (b0 * 16) * 64;
  }

  /** The last two bytes of an input become three characters that decode to them. */
  lemma TailTwoRoundTrip(b0: Byte, b1: Byte)
    ensures Decode(EncodeGroup(b0, b1, 0)[..3]) == Some([b0, b1])
  {
    var d := Sextets(Pack(b0, b1, 0));
    var s := EncodeGroup(b0, b1, 0)[..3];
    SextetCharInverse(d[0]);
    SextetCharInverse(d[1]);
    SextetCharInverse(d[2]);
    DecodeThree(s, d[0], d[1], d[2]);
    LowSextetOfTwoBytes(b0, b1);
    GroupRoundTrip(b0, b1, 0);
    var v := Bytes(Unpack(d[0], d[1], d[2], 0));
    assert v == [b0, b1, 0];
    assert v[..2] == [b0, b1];
  }

  /** A last single byte becomes two characters that decode to it. */
  lemma TailOneRoundTrip(b0: Byte)
    ensures Decode(EncodeGroup(b0, 0, 0)[..2]) == Some([b0])
  {
    var d := Sextets(Pack(b0, 0, 0));
    var s := EncodeGroup(b0, 0, 0)[..2];
    SextetCharInverse(d[0]);
    SextetCharInverse(d[1]);
    DecodeTwo(s, d[0], d[1]);
    LowSextetsOfOneByte(b0);
    GroupRoundTrip(b0, 0, 0);
    var v := Bytes(Unpack(d[0], d[1], 0, 0));
    assert v == [b0, 0, 0];
    assert v[..1] == [b0];
  }

  /** A whole group in front of any text decodes to its three bytes in front of that text's decoding. */
  lemma GroupThenRest(b0: Byte, b1: Byte, b2: Byte, rest: string)
    ensures Decode(EncodeGroup(b0, b1, b2) + rest)
         == if Decode(rest).Some? then Some([b0, b1, b2] + Decode(rest).value) else None
  {
    var d := Sextets(Pack(b0, b1, b2));
    var s := EncodeGroup(b0, b1, b2) + rest;
    SextetCharInverse(d[0]);
    SextetCharInverse(d[1]);
    SextetCharInverse(d[2]);
    SextetCharInverse(d[3]);
    GroupRoundTrip(b0, b1, b2);
    assert s[4..] == rest;
  }

  /** Every three bytes take four characters; a final one or two bytes take one character more than their count. */
  lemma {:induction false} EncodeLength(b: seq<Byte>)
    ensures |Encode(b)| == (|b| / 3) * 4 + (if |b| % 3 == 0 then 0 else |b| % 3 + 1)
  {
    if |b| >= 3 {
      EncodeLength(b[3..]);
    }
  }

  /** A text one character longer than a multiple of four never decodes. */
  lemma {:induction false} DecodeRejectsStrayChar(s: string)
    requires |s| % 4 == 1
    ensures Decode(s) == None
  {
    if |s| > 4 {
      assert |s[4..]| % 4 == 1;
      DecodeRejectsStrayChar(s[4..]);
      RejectedRestRejects(s);
    } else {
      assert |s| == 1;
    }
  }

  /** A text whose part after the first group does not decode does not decode either. */
  lemma RejectedRestRejects(s: string)
    requires |s| >= 4 && Decode(s[4..]) == None
    ensures Decode(s) == None
  {
  }

  /** Decoding an encoding gives back the bytes that were encoded. */
  lemma {:induction false} DecodeEncode(b: seq<Byte>)
    ensures Decode(Encode(b)) == Some(b)
  {
    if |b| >= 3 {
      var rest := Encode(b[3..]);
      assert Encode(b) == EncodeGroup(b[0], b[1], b[2]) + rest;
      DecodeEncode(b[3..]);
      GroupThenRest(b[0], b[1], b[2], rest);
      assert b == [b[0], b[1], b[2]] + b[3..];
    } else if |b| == 2 {
      TailTwoRoundTrip(b[0], b[1]);
      assert b == [b[0], b[1]];
    } else if |b| == 1 {
      TailOneRoundTrip(b[0]);
      assert b == [b[0]];
    }
  }
}
