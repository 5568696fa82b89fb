/**
 * The binary frame of a record's payload section, as
 * Base64HttpRequestRecordWriter.writeRecord/writeHeaders/writePayload write
 * it into a DataOutputStream, and the DataInputStream reading that inverts it.
 */
module RecordFrame {
  import opened Wrappers
  import opened Jvm
  import opened Api
  import opened DataStream
  import Utf = ModifiedUtf8

  /** Writing `a`, then `b`: the first exception stops the writing. */
  function Then(a: Result<seq<Byte>, JavaException>, b: Result<seq<Byte>, JavaException>): Result<seq<Byte>, JavaException>
  {
    if a.Failure? then a else if b.Failure? then b else Success(a.value + b.value)
  }

  lemma ThenAssociative(a: Result<seq<Byte>, JavaException>, b: Result<seq<Byte>, JavaException>, c: Result<seq<Byte>, JavaException>)
    ensures Then(Then(a, b), c) == Then(a, Then(b, c))
  {
    if a.Success? && b.Success? && c.Success? {
      assert a.value + b.value + c.value == a.value + (b.value + c.value);
    }
  }

  /** `writeUTF(name)`, `writeUTF(value)` for one header. */
  function HeaderFrame(header: Header): Result<seq<Byte>, JavaException>
  {
    Then(Utf.WriteUtf(header.name), Utf.WriteUtf(header.value))
  }

  /** The `writeUTF(name)`, `writeUTF(value)` pairs of the headers, in list order. */
  function HeadersFrame(headers: seq<Header>): Result<seq<Byte>, JavaException>
  {
    if headers == [] then Success([])
    else Then(HeaderFrame(headers[0]), HeadersFrame(headers[1..]))
  }

  /** `writeHeaders`: the header count as an `int`, then the header pairs. */
  function HeadersSection(headers: JList<Header>): Result<seq<Byte>, JavaException>
  {
    Then(Success(Be32(|headers|)), HeadersFrame(headers))
  }

  /** `writePayload`: the missing-byte count, the body length, the body. */
  function PayloadSection(payload: Payload): seq<Byte>
  {
    Be32(payload.missingByteCount) + Be32(|payload.bytes|) + payload.bytes
  }

  /** The frame of a record: `writeUTF(uri)`, then the headers section, then the payload section. */
  function Frame(record: Record): Result<seq<Byte>, JavaException>
  {
    Then(Then(Utf.WriteUtf(record.uri), HeadersSection(record.headers)), Success(PayloadSection(record.payload)))
  }

  /** The headers section frames when the header pairs do, and then it is the count followed by the pairs. */
  lemma HeadersSectionLayout(headers: JList<Header>)
    ensures HeadersSection(headers).Success? <==> HeadersFrame(headers).Success?
    ensures HeadersSection(headers).Success? ==>
      HeadersSection(headers).value == Be32(|headers|) + HeadersFrame(headers).value
    ensures HeadersSection(headers).Failure? ==> HeadersSection(headers).error == HeadersFrame(headers).error
  {
  }

  /** The frame's segments are written in order and the first failing one decides the exception. */
  lemma FrameSteps(record: Record)
    ensures Utf.WriteUtf(record.uri).Failure? ==> Frame(record) == Failure(Utf.WriteUtf(record.uri).error)
    ensures Utf.WriteUtf(record.uri).Success? && HeadersSection(record.headers).Failure? ==>
      Frame(record) == Failure(HeadersSection(record.headers).error)
    ensures Utf.WriteUtf(record.uri).Success? && HeadersSection(record.headers).Success? ==>
      Frame(record) == Success(Utf.WriteUtf(record.uri).value + HeadersSection(record.headers).value + PayloadSection(record.payload))
  {
  }

  /** The frame is the concatenation of its segments, in this order. */
  lemma FrameLayout(record: Record)
    requires Frame(record).Success?
    ensures Frame(record).value ==
      Utf.WriteUtf(record.uri).value + (Be32(|record.headers|) + (HeadersFrame(record.headers).value
      + (Be32(record.payload.missingByteCount) + (Be32(|record.payload.bytes|) + record.payload.bytes))))
  {
    FrameSteps(record);
    HeadersSectionLayout(record.headers);
  }

  predicate Encodable(s: JString) { |Utf.Encode(s)| <= Utf.MAX_UTF_LENGTH }

  predicate HeadersEncodable(headers: seq<Header>)
  {
    forall i | 0 <= i < |headers| :: Encodable(headers[i].name) && Encodable(headers[i].value)
  }

  /** What a reader gets back from a frame. */
  datatype FrameContent = FrameContent(uri: JString, headers: seq<Header>, missingByteCount: Int32, bytes: seq<Byte>)

  /** `n` rounds of `readUTF` (name), `readUTF` (value). */
  function ReadHeaders(bs: seq<Byte>, n: nat): Option<(seq<Header>, seq<Byte>)>
  {
    if n == 0 then Some(([], bs))
    else
      var name :- Utf.ReadUtf(bs);
      var value :- Utf.ReadUtf(name.1);
      var rest :- ReadHeaders(value.1, n - 1);
      Some(([Header(name.0, value.0)] + rest.0, rest.1))
  }

  /** Reads a whole frame; None on truncated, malformed or trailing input. */
  function ReadFrame(bs: seq<Byte>): Option<FrameContent>
  {
    var uri :- Utf.ReadUtf(bs);
    var count :- ReadInt(uri.1);
    if count.0 < 0 then None
    else
      var headers :- ReadHeaders(count.1, count.0);
      var missing :- ReadInt(headers.1);
      var length :- ReadInt(missing.1);
      if length.0 < 0 then None
      else
        var body :- ReadBytes(length.1, length.0);
        if body.1 != [] then None
        else Some(FrameContent(uri.0, headers.0, missing.0, body.0))
  }

  lemma {:induction false} HeadersFrameSucceeds(headers: seq<Header>)
    ensures HeadersFrame(headers).Success? <==> HeadersEncodable(headers)
    ensures HeadersFrame(headers).Failure? ==>
      HeadersFrame(headers).error.UTFDataFormatException? && HeadersFrame(headers).error.encodedLength > Utf.MAX_UTF_LENGTH
  {
    if headers != [] {
      HeadersFrameSucceeds(headers[1..]);
      if HeadersEncodable(headers) {
        assert HeadersEncodable(headers[1..]) by {
          forall i | 0 <= i < |headers[1..]|
            ensures Encodable(headers[1..][i].name) && Encodable(headers[1..][i].value)
          {
            assert headers[1..][i] == headers[i + 1];
          }
        }
      }
    }
  }

  /** Framing a record fails exactly when its uri or a header name or value needs more than 65535 bytes. */
  lemma FrameSucceeds(record: Record)
    ensures Frame(record).Success? <==> Encodable(record.uri) && HeadersEncodable(record.headers)
    ensures Frame(record).Failure? ==>
      Frame(record).error.UTFDataFormatException? && Frame(record).error.encodedLength > Utf.MAX_UTF_LENGTH
  {
    HeadersFrameSucceeds(record.headers);
  }

  /** Framing a list of headers is framing its parts one after the other. */
  lemma {:induction false} HeadersFrameAppend(p: seq<Header>, q: seq<Header>)
    ensures HeadersFrame(p + q) == Then(HeadersFrame(p), HeadersFrame(q))
  {
    if p == [] {
      assert p + q == q;
      if HeadersFrame(q).Success? {
        assert [] + HeadersFrame(q).value == HeadersFrame(q).value;
      }
    } else {
      assert (p + q)[0] == p[0];
      assert (p + q)[1..] == p[1..] + q;
      HeadersFrameAppend(p[1..], q);
      ThenAssociative(HeaderFrame(p[0]), HeadersFrame(p[1..]), HeadersFrame(q));
    }
  }

  /** The frame of the first i+1 headers extends that of the first i by the frame of header i. */
  lemma HeadersFrameSnoc(headers: seq<Header>, i: nat)
    requires i < |headers|
    requires HeadersFrame(headers[..i]).Success? && HeaderFrame(headers[i]).Success?
    ensures HeadersFrame(headers[..i + 1]).Success?
    ensures HeadersFrame(headers[..i + 1]).value == HeadersFrame(headers[..i]).value + HeaderFrame(headers[i]).value
  {
    assert headers[..i + 1] == headers[..i] + [headers[i]];
    HeadersFrameAppend(headers[..i], [headers[i]]);
    assert HeadersFrame([headers[i]]) == Then(HeaderFrame(headers[i]), HeadersFrame([]));
    assert HeaderFrame(headers[i]).value + [] == HeaderFrame(headers[i]).value;
  }

  /** A failing header fails the whole list with its own exception, when the headers before it frame. */
  lemma HeadersFrameFailsAt(headers: seq<Header>, i: nat)
    requires i < |headers|
    requires HeadersFrame(headers[..i]).Success? && HeaderFrame(headers[i]).Failure?
    ensures HeadersFrame(headers) == HeaderFrame(headers[i])
  {
    HeadersFrameSplit(headers, i);
    HeadersFrameHeadFails(headers[i..]);
  }

  /** The headers frame of a list is that of the first i headers, then that of the rest. */
  lemma HeadersFrameSplit(headers: seq<Header>, i: nat)
    requires i <= |headers|
    ensures HeadersFrame(headers) == Then(HeadersFrame(headers[..i]), HeadersFrame(headers[i..]))
  {
    assert headers == headers[..i] + headers[i..];
    HeadersFrameAppend(headers[..i], headers[i..]);
  }

  /** A list whose first header does not frame fails with that header's exception. */
  lemma HeadersFrameHeadFails(headers: seq<Header>)
    requires headers != [] && HeaderFrame(headers[0]).Failure?
    ensures HeadersFrame(headers) == HeaderFrame(headers[0])
  {
  }

  /** One round of `ReadHeaders`: a name, a value, then the remaining rounds. */
  lemma ReadHeadersCons(nameBytes: seq<Byte>, valueBytes: seq<Byte>, afterValue: seq<Byte>,
                        h: Header, n: nat, tail: seq<Header>, rest: seq<Byte>)
    requires n > 0
    requires Utf.ReadUtf(nameBytes + (valueBytes + afterValue)) == Some((h.name, valueBytes + afterValue))
    requires Utf.ReadUtf(valueBytes + afterValue) == Some((h.value, afterValue))
    requires ReadHeaders(afterValue, n - 1) == Some((tail, rest))
    ensures ReadHeaders(nameBytes + (valueBytes + afterValue), n) == Some(([h] + tail, rest))
  {
  }

  /** Regrouping a frame of three parts followed by the rest of the input. */
  lemma Regroup(frame: seq<Byte>, a: seq<Byte>, b: seq<Byte>, c: seq<Byte>, rest: seq<Byte>)
    requires frame == a + b + c
    ensures frame + rest == a + (b + (c + rest))
  {
  }

  /** The frame of one header followed by the others, unfolded into its two strings. */
  lemma HeadersFrameCons(headers: seq<Header>)
    requires headers != [] && HeadersFrame(headers).Success?
    ensures HeadersFrame(headers[1..]).Success?
    ensures Utf.WriteUtf(headers[0].name).Success? && Utf.WriteUtf(headers[0].value).Success?
    ensures HeadersFrame(headers).value ==
      Utf.WriteUtf(headers[0].name).value + Utf.WriteUtf(headers[0].value).value + HeadersFrame(headers[1..]).value
  {
  }

  /** Reading as many headers as were framed returns them, in order, and leaves what follows. */
  lemma {:induction false} ReadHeadersFrame(headers: seq<Header>, rest: seq<Byte>)
    requires HeadersFrame(headers).Success?
    ensures ReadHeaders(HeadersFrame(headers).value + rest, |headers|) == Some((headers, rest))
  {
    if headers != [] {
      HeadersFrameCons(headers);
      ReadHeadersFrame(headers[1..], rest);
      var name, value := Utf.WriteUtf(headers[0].name).value, Utf.WriteUtf(headers[0].value).value;
      var tailFrame := HeadersFrame(headers[1..]).value;
      ReadHeaderStrings(headers[0], tailFrame + rest);
      ReadHeadersCons(name, value, tailFrame + rest, headers[0], |headers|, headers[1..], rest);
      Regroup(HeadersFrame(headers).value, name, value, tailFrame, rest);
      assert [headers[0]] + headers[1..] == headers;
    } else {
      assert HeadersFrame(headers).value + rest == rest;
    }
  }

  /** The two strings of a written header read back, the value right after the name. */
  lemma ReadHeaderStrings(h: Header, afterValue: seq<Byte>)
    requires Utf.WriteUtf(h.name).Success? && Utf.WriteUtf(h.value).Success?
    ensures var value := Utf.WriteUtf(h.value).value;
      && Utf.ReadUtf(Utf.WriteUtf(h.name).value + (value + afterValue)) == Some((h.name, value + afterValue))
      && Utf.ReadUtf(value + afterValue) == Some((h.value, afterValue))
  {
    Utf.ReadWriteUtf(h.name, Utf.WriteUtf(h.value).value + afterValue);
    Utf.ReadWriteUtf(h.value, afterValue);
  }

  /** `ReadFrame` succeeds when each of its reads does and exactly the body is left. */
  lemma ReadFrameSteps(bs: seq<Byte>, uri: JString, afterUri: seq<Byte>, count: Int32, afterCount: seq<Byte>,
                       headers: seq<Header>, afterHeaders: seq<Byte>, missing: Int32, afterMissing: seq<Byte>,
                       length: Int32, body: seq<Byte>)
    requires Utf.ReadUtf(bs) == Some((uri, afterUri))
    requires ReadInt(afterUri) == Some((count, afterCount)) && count >= 0
    requires ReadHeaders(afterCount, count as nat) == Some((headers, afterHeaders))
    requires ReadInt(afterHeaders) == Some((missing, afterMissing))
    requires ReadInt(afterMissing) == Some((length, body)) && length as int == |body|
    ensures ReadFrame(bs) == Some(FrameContent(uri, headers, missing, body))
  {
    assert body[..length] == body && body[length..] == [];
  }

  /** Reading a frame returns the uri, the headers in order, the missing count and the body exactly. */
  lemma FrameRoundTrip(record: Record)
    requires Frame(record).Success?
    ensures ReadFrame(Frame(record).value) ==
      Some(FrameContent(record.uri, record.headers, record.payload.missingByteCount, record.payload.bytes))
  {
    var p := record.payload;
    var tail3 := Be32(|p.bytes|) + p.bytes;
    var tail2 := Be32(p.missingByteCount) + tail3;
    var tail1 := HeadersFrame(record.headers).value + tail2;
    var tail0 := Be32(|record.headers|) + tail1;
    FrameLayout(record);
    Utf.ReadWriteUtf(record.uri, tail0);
    ReadWriteInt(|record.headers|, tail1);
    ReadHeadersFrame(record.headers, tail2);
    ReadWriteInt(p.missingByteCount, tail3);
    ReadWriteInt(|p.bytes|, p.bytes);
    ReadFrameSteps(Frame(record).value, record.uri, tail0, |record.headers|, tail1,
                   record.headers, tail2, p.missingByteCount, tail3, |p.bytes|, p.bytes);
  }

  /** Appending two pieces one after the other is appending their concatenation. */
  lemma AppendAssociative(a: seq<Byte>, b: seq<Byte>, c: seq<Byte>)
    ensures a + b + c == a + (b + c)
  {
  }

  /** The prefix of all the headers is the whole list. */
  lemma TakeAll(headers: seq<Header>)
    ensures headers[..|headers|] == headers
  {
  }

  /** The loop body of `writeHeaders`: `writeUTF(name)`, then `writeUTF(value)`. */
  method WriteHeader(header: Header, stream: DataOutputBuffer) returns (o: Outcome<JavaException>)
    modifies stream
    ensures HeaderFrame(header).Success? ==> o.Pass? && stream.written == old(stream.written) + HeaderFrame(header).value
    ensures HeaderFrame(header).Failure? ==> o == Fail(HeaderFrame(header).error)
  {
    o := stream.WriteUtf(header.name);
    if o.Fail? {
      return;
    }
    o := stream.WriteUtf(header.value);
  }

  /** The loop of `writeHeaders`: each header's name and value in list order, stopping at the first failure. */
  method WriteHeaderPairs(headers: seq<Header>, stream: DataOutputBuffer) returns (o: Outcome<JavaException>)
    modifies stream
    ensures HeadersFrame(headers).Success? ==> o.Pass? && stream.written == old(stream.written) + HeadersFrame(headers).value
    ensures HeadersFrame(headers).Failure? ==> o == Fail(HeadersFrame(headers).error)
  {
    for i := 0 to |headers|
      invariant HeadersFrame(headers[..i]).Success?
      invariant stream.written == old(stream.written) + HeadersFrame(headers[..i]).value
    {
      o := WriteHeader(headers[i], stream);
      if o.Fail? {
        HeadersFrameFailsAt(headers, i);
        return;
      }
      HeadersFrameSnoc(headers, i);
      AppendAssociative(old(stream.written), HeadersFrame(headers[..i]).value, HeaderFrame(headers[i]).value);
    }
    TakeAll(headers);
    o := Pass;
  }

  /** `writeHeaders`: the header count as an `int`, then the header pairs. */
  method WriteHeaders(headers: JList<Header>, stream: DataOutputBuffer) returns (o: Outcome<JavaException>)
    modifies stream
    ensures HeadersSection(headers).Success? ==> o.Pass? && stream.written == old(stream.written) + HeadersSection(headers).value
    ensures HeadersSection(headers).Failure? ==> o == Fail(HeadersSection(headers).error)
  {
    HeadersSectionLayout(headers);
    stream.WriteInt(|headers|);
    o := WriteHeaderPairs(headers, stream);
  }

  /** `writePayload`: the missing-byte count, the body length, the body. */
  method WritePayload(payload: Payload, stream: DataOutputBuffer)
    modifies stream
    ensures stream.written == old(stream.written) + PayloadSection(payload)
  {
    stream.WriteInt(payload.missingByteCount);
    stream.WriteInt(|payload.bytes|);
    stream.Write(payload.bytes);
  }

  /** `writeRecord(record)`: the bytes of a fresh stream after writing the uri, headers and payload. */
  method WriteRecord(record: Record) returns (r: Result<seq<Byte>, JavaException>)
    ensures r == Frame(record)
  {
    var stream := new DataOutputBuffer();
    var o := stream.WriteUtf(record.uri);
    if o.Fail? {
      FrameSteps(record);
      return Failure(o.error);
    }
    assert stream.written == Utf.WriteUtf(record.uri).value;
    o := WriteHeaders(record.headers, stream);
    if o.Fail? {
      FrameSteps(record);
      return Failure(o.error);
    }
    WritePayload(record.payload, stream);
    FrameSteps(record);
    r := Success(stream.written);
  }
}
