/**
 * The "modified UTF-8" string encoding of java.io.DataOutput.writeUTF and
 * java.io.DataInput.readUTF: each UTF-16 code unit is written on its own
 * (surrogates are not combined), U+0000 takes two bytes, and the encoded
 * bytes are preceded by their count as a 2-byte big-endian unsigned number.
 */
module ModifiedUtf8 {
  import opened Wrappers
  import opened Jvm

  /** The largest encoded length `writeUTF` accepts. */
  const MAX_UTF_LENGTH: int := 0xFFFF

  /** The bytes of one code unit: 1 byte for U+0001..U+007F, 3 above U+07FF, 2 otherwise. */
  function EncodeUnit(c: JChar): (r: seq<Byte>)
    ensures 1 <= |r| <= 3
  {
    if 0x0001 <= c <= 0x007F then [c]
    else if c > 0x07FF then [0xE0 + (c / 64) / 64, 0x80 + (c / 64) % 64, 0x80 + c % 64]
    else [0xC0 + c / 64, 0x80 + c % 64]
  }

  /** The modified UTF-8 bytes of a string, without the length prefix. */
  function Encode(s: JString): (r: seq<Byte>)
    ensures |s| <= |r| <= 3 * |s|
  {
    if s == [] then [] else EncodeUnit(s[0]) + Encode(s[1..])
  }

  /** A 16-bit count as 2 big-endian bytes. */
  function U16(n: nat): (r: seq<Byte>)
    requires n <= 0xFFFF
  {
    [n / 256, n % 256]
  }

  /**
   * `DataOutputStream.writeUTF(s)`: the 2-byte count of encoded bytes, then
   * the bytes; it throws UTFDataFormatException when the count exceeds 65535.
   */
  function WriteUtf(s: JString): (r: Result<seq<Byte>, JavaException>)
    ensures r.Success? <==> |Encode(s)| <= MAX_UTF_LENGTH
    ensures r.Failure? ==> r.error == UTFDataFormatException(|Encode(s)|)
    ensures r.Success? ==> |r.value| >= 2 && r.value[0] as int * 256 + r.value[1] == |r.value| - 2
  {
    var bytes := Encode(s);
    if |bytes| > MAX_UTF_LENGTH then Failure(UTFDataFormatException(|bytes|))
    else Success(U16(|bytes|) + bytes)
  }

  predicate IsContinuation(b: Byte) { 0x80 <= b < 0xC0 }

  /**
   * `DataInputStream.readUTF`'s decoding loop over the counted bytes: a byte
   * below 0x80 is a unit, 0xC0..0xDF starts a 2-byte unit, 0xE0..0xEF a
   * 3-byte unit; anything else, a bad continuation byte or a unit cut short
   * is malformed (None).
   */
  function Decode(bs: seq<Byte>): Option<JString>
  {
    if bs == [] then Some([])
    else
      var a: int := bs[0];
      if a < 0x80 then
        Prepend(a, Decode(bs[1..]))
      else if 0xC0 <= a < 0xE0 then
        if |bs| < 2 || !IsContinuation(bs[1]) then None
        else Prepend((a - 0xC0) * 64 + (bs[1] as int - 0x80), Decode(bs[2..]))
      else if 0xE0 <= a < 0xF0 then
        if |bs| < 3 || !IsContinuation(bs[1]) || !IsContinuation(bs[2]) then None
        else Prepend(((a - 0xE0) * 64 + (bs[1] as int - 0x80)) * 64 + (bs[2] as int - 0x80), Decode(bs[3..]))
      else None
  }

  function Prepend(c: JChar, rest: Option<JString>): Option<JString>
  {
    match rest
    case None => None
    case Some(s) => Some([c] + s)
  }

  /**
   * `DataInputStream.readUTF` on the input `bs`: the decoded string and the
   * input that follows it, or None (EOFException / UTFDataFormatException).
   */
  function ReadUtf(bs: seq<Byte>): Option<(JString, seq<Byte>)>
  {
    if |bs| < 2 then None
    else
      var n := bs[0] as int * 256 + bs[1];
      if |bs| < 2 + n then None
      else match Decode(bs[2..2 + n])
        case None => None
        case Some(s) => Some((s, bs[2 + n..]))
  }

  lemma DecodeUnit(c: JChar, rest: seq<Byte>)
    ensures Decode(EncodeUnit(c) + rest) == Prepend(c, Decode(rest))
  {
    var bs := EncodeUnit(c) + rest;
    if 0x0001 <= c <= 0x007F {
      assert bs[1..] == rest;
    } else if c > 0x07FF {
      assert bs[3..] == rest;
      var q := c / 64;
      assert q == (q / 64) * 64 + q % 64;
      assert c == q * 64 + c % 64;
    } else {
      assert bs[2..] == rest;
      assert c == (c / 64) * 64 + c % 64;
    }
  }

  /** Decoding inverts encoding, for every string. */
  lemma {:induction false} DecodeEncode(s: JString)
    ensures Decode(Encode(s)) == Some(s)
  {
    if s != [] {
      DecodeUnit(s[0], Encode(s[1..]));
      DecodeEncode(s[1..]);
      assert [s[0]] + s[1..] == s;
    }
  }

  /** `readUTF` reads back what `writeUTF` wrote and leaves the following bytes alone. */
  lemma ReadWriteUtf(s: JString, rest: seq<Byte>)
    requires WriteUtf(s).Success?
    ensures ReadUtf(WriteUtf(s).value + rest) == Some((s, rest))
  {
    var e := Encode(s);
    var bs := WriteUtf(s).value + rest;
    assert bs[2..2 + |e|] == e;
    assert bs[2 + |e|..] == rest;
    DecodeEncode(s);
  }
}
