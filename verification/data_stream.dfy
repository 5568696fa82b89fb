/**
 * The parts of java.io.DataOutputStream (over a ByteArrayOutputStream) and
 * java.io.DataInputStream that the record frame uses: big-endian `int`s,
 * `writeUTF`, and raw byte arrays.
 */
module DataStream {
  import opened Wrappers
  import opened Jvm
  import ModifiedUtf8

  /** `writeInt(v)`: the 32-bit two's-complement value, most significant byte first. */
  function Be32(v: Int32): (r: seq<Byte>)
    ensures |r| == 4
  {
    var u := if v < 0 then v + 0x1_0000_0000 else v;
    [u / 0x100_0000, (u / 0x1_0000) % 0x100, (u / 0x100) % 0x100, u % 0x100]
  }

  /** `readInt()`: four bytes, most significant first, as a signed 32-bit value. */
  function ReadInt(bs: seq<Byte>): Option<(Int32, seq<Byte>)>
  {
    if |bs| < 4 then None
    else
      var u := ((bs[0] as int * 0x100 + bs[1]) * 0x100 + bs[2]) * 0x100 + bs[3];
      Some((if u > INT32_MAX then u - 0x1_0000_0000 else u, bs[4..]))
  }

  /** `readInt` reads back what `writeInt` wrote. */
  lemma ReadWriteInt(v: Int32, rest: seq<Byte>)
    ensures ReadInt(Be32(v) + rest) == Some((v, rest))
  {
    var u := if v < 0 then v + 0x1_0000_0000 else v;
    var bs := Be32(v) + rest;
    assert bs[4..] == rest;
    var q1 := u / 0x100;
    var q2 := q1 / 0x100;
    assert u == q1 * 0x100 + u % 0x100;
    assert q1 == q2 * 0x100 + q1 % 0x100;
    assert q2 == (q2 / 0x100) * 0x100 + q2 % 0x100;
    assert u / 0x1_0000 == q2;
    assert u / 0x100_0000 == q2 / 0x100;
  }

  /** `readFully` of `n` bytes. */
  function ReadBytes(bs: seq<Byte>, n: nat): Option<(seq<Byte>, seq<Byte>)>
  {
    if |bs| < n then None else Some((bs[..n], bs[n..]))
  }

  /** A DataOutputStream writing into a ByteArrayOutputStream; `written` is `toByteArray()`. */
  class DataOutputBuffer {
    var written: seq<Byte>

    constructor ()
      ensures written == []
    {
      written := [];
    }

    method WriteInt(v: Int32)
      modifies this
      ensures written == old(written) + Be32(v)
    {
      written := written + Be32(v);
    }

    /** Writes nothing and throws when the string's encoding is over 65535 bytes. */
    method WriteUtf(s: JString) returns (r: Outcome<JavaException>)
      modifies this
      ensures ModifiedUtf8.WriteUtf(s).Success? ==> r.Pass? && written == old(written) + ModifiedUtf8.WriteUtf(s).value
      ensures ModifiedUtf8.WriteUtf(s).Failure? ==> r == Fail(ModifiedUtf8.WriteUtf(s).error) && written == old(written)
    {
      var encoded := ModifiedUtf8.WriteUtf(s);
      if encoded.Failure? {
        return Fail(encoded.error);
      }
      written := written + encoded.value;
      r := Pass;
    }

    method Write(bs: seq<Byte>)
      modifies this
      ensures written == old(written) + bs
    {
      written := written + bs;
    }
  }
}
