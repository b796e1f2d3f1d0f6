/** Base64 with the standard alphabet and '=' padding (section 4 of
    RFC 4648), the encoding behind `base64.b64encode`, with a decoder for the
    encoder's output. */
module Base64 {
  import opened Types

  /** A character of the standard alphabet (table 1 of RFC 4648). */
  predicate IsAlphabetChar(c: char)
  {
    ('A' <= c <= 'Z') || ('a' <= c <= 'z') || ('0' <= c <= '9') || c == '+' || c == '/'
  }

  /** The character that encodes the 6-bit value `i`. */
  function Digit(i: int): (c: char)
    requires 0 <= i < 64
    ensures IsAlphabetChar(c)
  {
    if i < 26 then (65 + i) as char
    else if i < 52 then (97 + i - 26) as char
    else if i < 62 then (48 + i - 52) as char
    else if i == 62 then '+'
    else '/'
  }

  /** The 6-bit value an alphabet character encodes. */
  function Index(c: char): (i: int)
    requires IsAlphabetChar(c)
    ensures 0 <= i < 64 && Digit(i) == c
  {
    if 'A' <= c <= 'Z' then c as int - 65
    else if 'a' <= c <= 'z' then c as int - 97 + 26
    else if '0' <= c <= '9' then c as int - 48 + 52
    else if c == '+' then 62
    else 63
  }

  /** Each encoding character offers exactly one 6-bit value. */
  lemma IndexOfDigit(i: int)
    requires 0 <= i < 64
    ensures Index(Digit(i)) == i
  {
  }

  /** The four characters of one full group of three bytes. */
  function Quad3(x: byte, y: byte, z: byte): (q: string)
    ensures |q| == 4 && forall i :: 0 <= i < 4 ==> IsAlphabetChar(q[i])
  {
    var b0, b1, b2 := x as int, y as int, z as int;
    [Digit(b0 / 4), Digit((b0 % 4) * 16 + b1 / 16), Digit((b1 % 16) * 4 + b2 / 64), Digit(b2 % 64)]
  }

  /** The four characters of a final group of two bytes. */
  function Quad2(x: byte, y: byte): (q: string)
    ensures |q| == 4 && IsAlphabetChar(q[0]) && IsAlphabetChar(q[1]) && IsAlphabetChar(q[2]) && q[3] == '='
  {
    var b0, b1 := x as int, y as int;
    [Digit(b0 / 4), Digit((b0 % 4) * 16 + b1 / 16), Digit((b1 % 16) * 4), '=']
  }

  /** The four characters of a final group of one byte. */
  function Quad1(x: byte): (q: string)
    ensures |q| == 4 && IsAlphabetChar(q[0]) && IsAlphabetChar(q[1]) && q[2] == '=' && q[3] == '='
  {
    var b0 := x as int;
    [Digit(b0 / 4), Digit((b0 % 4) * 16), '=', '=']
  }

  /** `base64.b64encode`: each 3-byte group becomes four characters; a final
      group of one or two bytes is padded with '=' to four. */
  function Encode(b: Bytes): (s: string)
    ensures |s| == 4 * ((|b| + 2) / 3) && |s| % 4 == 0
    ensures forall i :: 0 <= i < |s| ==> IsAlphabetChar(s[i]) || (s[i] == '=' && i >= |s| - 2)
    decreases |b|
  {
    if |b| == 0 then ""
    else if |b| == 1 then Quad1(b[0])
    else if |b| == 2 then Quad2(b[0], b[1])
    else
      var q, rest := Quad3(b[0], b[1], b[2]), Encode(b[3..]);
      EncodedConcat(q, rest);
      GroupCount(|b|);
      q + rest
  }

  /** One more full group adds four characters. */
  lemma GroupCount(n: int)
    requires n >= 3
    ensures 4 + 4 * ((n - 3 + 2) / 3) == 4 * ((n + 2) / 3)
  {
    assert (n + 2) / 3 == (n - 1) / 3 + 1;
  }

  /** A full group in front of an encoding keeps '=' within the last two
      characters. */
  lemma EncodedConcat(q: string, rest: string)
    requires |q| == 4 && forall i :: 0 <= i < 4 ==> IsAlphabetChar(q[i])
    requires forall i :: 0 <= i < |rest| ==> IsAlphabetChar(rest[i]) || (rest[i] == '=' && i >= |rest| - 2)
    ensures var s := q + rest;
            forall i :: 0 <= i < |s| ==> IsAlphabetChar(s[i]) || (s[i] == '=' && i >= |s| - 2)
  {
    var s := q + rest;
    forall i | 0 <= i < |s|
      ensures IsAlphabetChar(s[i]) || (s[i] == '=' && i >= |s| - 2)
    {
      if i >= 4 {
        assert s[i] == rest[i - 4];
      }
    }
  }

  /** The bytes one group of four characters stands for. */
  function DecodeQuad(q: string): Option<Bytes>
    requires |q| == 4
  {
    if !IsAlphabetChar(q[0]) || !IsAlphabetChar(q[1]) then None
    else
      var c0, c1 := Index(q[0]), Index(q[1]);
      var b0 := (c0 * 4 + c1 / 16) as byte;
      if q[2] == '=' && q[3] == '=' then Some([b0])
      else if !IsAlphabetChar(q[2]) then None
      else
        var c2 := Index(q[2]);
        var b1 := ((c1 % 16) * 16 + c2 / 4) as byte;
        if q[3] == '=' then Some([b0, b1])
        else if !IsAlphabetChar(q[3]) then None
        else Some([b0, b1, ((c2 % 4) * 64 + Index(q[3])) as byte])
  }

  /** Decoding: groups of four characters; only the last may hold padding. */
  function Decode(s: string): Option<Bytes>
    decreases |s|
  {
    if |s| == 0 then Some([])
    else if |s| < 4 then None
    else if |s| == 4 then DecodeQuad(s)
    else if s[2] == '=' || s[3] == '=' then None
    else
      match DecodeQuad(s[..4])
      case None => None
      case Some(g) =>
        match Decode(s[4..])
        case None => None
        case Some(rest) => Some(g + rest)
  }

  /** The arithmetic of one group: the four 6-bit values of three bytes give
      the three bytes back. */
  lemma GroupArithmetic(b0: int, b1: int, b2: int)
    requires 0 <= b0 < 256 && 0 <= b1 < 256 && 0 <= b2 < 256
    ensures var c1 := (b0 % 4) * 16 + b1 / 16;
            var c2 := (b1 % 16) * 4 + b2 / 64;
            && (b0 / 4) * 4 + c1 / 16 == b0
            && (c1 % 16) * 16 + c2 / 4 == b1
            && (c2 % 4) * 64 + b2 % 64 == b2
  {
    var c1 := (b0 % 4) * 16 + b1 / 16;
    var c2 := (b1 % 16) * 4 + b2 / 64;
    assert c1 / 16 == b0 % 4 && c1 % 16 == b1 / 16;
    assert c2 / 4 == b1 % 16 && c2 % 4 == b2 / 64;
  }

  lemma DecodeQuad3(x: byte, y: byte, z: byte)
    ensures DecodeQuad(Quad3(x, y, z)) == Some([x, y, z])
  {
    var b0, b1, b2 := x as int, y as int, z as int;
    GroupArithmetic(b0, b1, b2);
    IndexOfDigit(b0 / 4);
    IndexOfDigit((b0 % 4) * 16 + b1 / 16);
    IndexOfDigit((b1 % 16) * 4 + b2 / 64);
    IndexOfDigit(b2 % 64);
  }

  lemma DecodeQuad2(x: byte, y: byte)
    ensures DecodeQuad(Quad2(x, y)) == Some([x, y])
  {
    var b0, b1 := x as int, y as int;
    GroupArithmetic(b0, b1, 0);
    IndexOfDigit(b0 / 4);
    IndexOfDigit((b0 % 4) * 16 + b1 / 16);
    IndexOfDigit((b1 % 16) * 4);
  }

  lemma DecodeQuad1(x: byte)
    ensures DecodeQuad(Quad1(x)) == Some([x])
  {
    var b0 := x as int;
    GroupArithmetic(b0, 0, 0);
    IndexOfDigit(b0 / 4);
    IndexOfDigit((b0 % 4) * 16);
  }

  /** Decoding a full group of four characters followed by more groups. */
  lemma DecodeFullGroupThen(q: string, rest: string, g: Bytes, r: Bytes)
    requires |q| == 4 && q[2] != '=' && q[3] != '='
    requires DecodeQuad(q) == Some(g) && Decode(rest) == Some(r)
    ensures Decode(q + rest) == Some(g + r)
  {
    var s := q + rest;
    if |rest| == 0 {
      assert s == q;
      assert g + r == g;
    } else {
      assert s[..4] == q && s[4..] == rest;
      assert s[2] == q[2] && s[3] == q[3];
    }
  }

  /** Decoding an encoding gives the bytes back. */
  lemma {:induction false} DecodeEncode(b: Bytes)
    ensures Decode(Encode(b)) == Some(b)
    decreases |b|
  {
    if |b| == 0 {
    } else if |b| == 1 {
      DecodeQuad1(b[0]);
      assert b == [b[0]];
    } else if |b| == 2 {
      DecodeQuad2(b[0], b[1]);
      assert b == [b[0], b[1]];
    } else {
      var q := Quad3(b[0], b[1], b[2]);
      var tail := b[3..];
      assert Encode(b) == q + Encode(tail);
      DecodeQuad3(b[0], b[1], b[2]);
      DecodeEncode(tail);
      assert q[2] != '=' && q[3] != '=';
      DecodeFullGroupThen(q, Encode(tail), [b[0], b[1], b[2]], tail);
      SplitGroup(b);
    }
  }

  /** A sequence of three or more bytes is its first group then the rest. */
  lemma SplitGroup(b: Bytes)
    requires |b| >= 3
    ensures b == [b[0], b[1], b[2]] + b[3..]
  {
    assert b[..3] == [b[0], b[1], b[2]];
    assert b == b[..3] + b[3..];
  }
}
