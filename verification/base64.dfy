/**
 * Base 64 encoding with the standard alphabet and '=' padding, no line
 * breaks (section 4 of RFC 4648), over UTF-16 code units so that the
 * encoded text can be placed in a Java string directly.
 */
module Base64 {
  import opened Wrappers
  import opened Jvm

  const PAD: JChar := 61   // '='

  /** The character for a 6-bit group: A-Z, a-z, 0-9, '+', '/'. */
  function Letter(i: nat): (c: JChar)
    requires i < 64
  {
    if i < 26 then 65 + i
    else if i < 52 then 97 + (i - 26)
    else if i < 62 then 48 + (i - 52)
    else if i == 62 then 43
    else 47
  }

  /** The 6-bit group a character stands for, if it is in the alphabet. */
  function ValueOf(c: JChar): (r: Option<nat>)
    ensures r.Some? ==> r.value < 64
  {
    if 65 <= c <= 90 then Some(c - 65)
    else if 97 <= c <= 122 then Some(c - 97 + 26)
    else if 48 <= c <= 57 then Some(c - 48 + 52)
    else if c == 43 then Some(62)
    else if c == 47 then Some(63)
    else None
  }

  lemma ValueOfLetter(i: nat)
    requires i < 64
    ensures ValueOf(Letter(i)) == Some(i)
  {
  }

  predicate IsEncodedChar(c: JChar) { ValueOf(c).Some? || c == PAD }

  /** Three octets as four characters. */
  function Quad(b0: Byte, b1: Byte, b2: Byte): seq<JChar>
  {
    [Letter(b0 / 4), Letter((b0 % 4) * 16 + b1 / 16), Letter((b1 % 16) * 4 + b2 / 64), Letter(b2 % 64)]
  }

  /** The encoding of `bs`: four characters per three octets, the last group padded with '='. */
  function Encode(bs: seq<Byte>): (r: JString)
    ensures |r| == 4 * ((|bs| + 2) / 3)
    ensures forall i | 0 <= i < |r| :: IsEncodedChar(r[i])
  {
    if |bs| >= 3 then Quad(bs[0], bs[1], bs[2]) + Encode(bs[3..])
    else if |bs| == 2 then [Letter(bs[0] / 4), Letter((bs[0] % 4) * 16 + bs[1] / 16), Letter((bs[1] % 16) * 4), PAD]
    else if |bs| == 1 then [Letter(bs[0] / 4), Letter((bs[0] % 4) * 16), PAD, PAD]
    else []
  }

  /** Decoding of padded base 64 text; None when the text is not a sequence of valid groups. */
  function Decode(cs: JString): Option<seq<Byte>>
  {
    if cs == [] then Some([])
    else if |cs| < 4 then None
    else
      match (ValueOf(cs[0]), ValueOf(cs[1]), ValueOf(cs[2]), ValueOf(cs[3]))
      case (Some(s0), Some(s1), Some(s2), Some(s3)) =>
        (match Decode(cs[4..])
         case None => None
         case Some(rest) => Some([s0 * 4 + s1 / 16, (s1 % 16) * 16 + s2 / 4, (s2 % 4) * 64 + s3] + rest))
      case (Some(s0), Some(s1), Some(s2), None) =>
        if |cs| == 4 && cs[3] == PAD then Some([s0 * 4 + s1 / 16, (s1 % 16) * 16 + s2 / 4]) else None
      case (Some(s0), Some(s1), None, None) =>
        if |cs| == 4 && cs[2] == PAD && cs[3] == PAD then Some([s0 * 4 + s1 / 16]) else None
      case _ => None
  }

  lemma DecodeQuad(b0: Byte, b1: Byte, b2: Byte, rest: JString)
    ensures Decode(Quad(b0, b1, b2) + rest) ==
      match Decode(rest) case None => None case Some(r) => Some([b0, b1, b2] + r)
  {
    var cs := Quad(b0, b1, b2) + rest;
    var s0, s1, s2, s3 := b0 / 4, (b0 % 4) * 16 + b1 / 16, (b1 % 16) * 4 + b2 / 64, b2 % 64;
    ValueOfLetter(s0);
    ValueOfLetter(s1);
    ValueOfLetter(s2);
    ValueOfLetter(s3);
    QuadBits(b0, b1, b2);
    assert cs[0] == Letter(s0) && cs[1] == Letter(s1) && cs[2] == Letter(s2) && cs[3] == Letter(s3);
    assert cs[4..] == rest;
  }

  /** The four 6-bit groups of three octets put back together give the octets. */
  lemma QuadBits(b0: Byte, b1: Byte, b2: Byte)
    ensures var s0, s1, s2, s3 := b0 / 4, (b0 % 4) * 16 + b1 / 16, (b1 % 16) * 4 + b2 / 64, b2 % 64;
      && s0 * 4 + s1 / 16 == b0
      && (s1 % 16) * 16 + s2 / 4 == b1
      && (s2 % 4) * 64 + s3 == b2
  {
  }

  lemma DecodePair(b0: Byte, b1: Byte)
    ensures Decode([Letter(b0 / 4), Letter((b0 % 4) * 16 + b1 / 16), Letter((b1 % 16) * 4), PAD]) == Some([b0, b1])
  {
    ValueOfLetter(b0 / 4);
    ValueOfLetter((b0 % 4) * 16 + b1 / 16);
    ValueOfLetter((b1 % 16) * 4);
  }

  lemma DecodeSingle(b0: Byte)
    ensures Decode([Letter(b0 / 4), Letter((b0 % 4) * 16), PAD, PAD]) == Some([b0])
  {
    ValueOfLetter(b0 / 4);
    ValueOfLetter((b0 % 4) * 16);
  }

  /** Decoding inverts encoding: the octets come back bit for bit. */
  lemma {:induction false} DecodeEncode(bs: seq<Byte>)
    ensures Decode(Encode(bs)) == Some(bs)
    decreases |bs|
  {
    if |bs| >= 3 {
      DecodeQuad(bs[0], bs[1], bs[2], Encode(bs[3..]));
      DecodeEncode(bs[3..]);
      assert bs == [bs[0], bs[1], bs[2]] + bs[3..];
    } else if |bs| == 2 {
      DecodePair(bs[0], bs[1]);
      assert bs == [bs[0], bs[1]];
    } else if |bs| == 1 {
      DecodeSingle(bs[0]);
      assert bs == [bs[0]];
    }
  }

  /** Encoded text never holds a TAB or a LF. */
  lemma EncodeHasNoSeparators(bs: seq<Byte>)
    ensures TAB !in Encode(bs) && LF !in Encode(bs)
  {
  }
}
