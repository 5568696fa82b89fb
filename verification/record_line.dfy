/**
 * The text line both writers hand to the target:
 *   id TAB date TAB groupName TAB METHOD TAB base64(frame) TAB statusCode TAB responseTime LF
 * and the reading of such a line back into its parts.
 */
module RecordLine {
  import opened Wrappers
  import opened Jvm
  import opened Api
  import Decimal
  import Base64
  import Text
  import RecordFrame

  /** `Base64HttpRequestRecord.FIELD_SEPARATOR` and `RECORD_SEPARATOR`. */
  const FIELD_SEPARATOR: JChar := TAB
  const RECORD_SEPARATOR: JChar := LF

  /** The fields joined with FIELD_SEPARATOR between each two. */
  function Join(fields: seq<JString>): (r: JString)
    requires fields != []
  {
    if |fields| == 1 then fields[0] else fields[0] + [FIELD_SEPARATOR] + Join(fields[1..])
  }

  /** `Join` of seven fields, unfolded. */
  lemma JoinSeven(f: seq<JString>)
    requires |f| == 7
    ensures Join(f) == f[0] + [FIELD_SEPARATOR] + f[1] + [FIELD_SEPARATOR] + f[2] + [FIELD_SEPARATOR] + f[3]
      + [FIELD_SEPARATOR] + f[4] + [FIELD_SEPARATOR] + f[5] + [FIELD_SEPARATOR] + f[6]
  {
    assert Join(f[6..]) == f[6];
    assert Join(f[5..]) == f[5] + [FIELD_SEPARATOR] + Join(f[6..]) by { assert f[5..][1..] == f[6..]; }
    assert Join(f[4..]) == f[4] + [FIELD_SEPARATOR] + Join(f[5..]) by { assert f[4..][1..] == f[5..]; }
    assert Join(f[3..]) == f[3] + [FIELD_SEPARATOR] + Join(f[4..]) by { assert f[3..][1..] == f[4..]; }
    assert Join(f[2..]) == f[2] + [FIELD_SEPARATOR] + Join(f[3..]) by { assert f[2..][1..] == f[3..]; }
    assert Join(f[1..]) == f[1] + [FIELD_SEPARATOR] + Join(f[2..]) by { assert f[1..][1..] == f[2..]; }
  }

  /** No field contains a field or record separator. */
  predicate SeparatorFree(fields: seq<JString>)
  {
    forall i | 0 <= i < |fields| :: FIELD_SEPARATOR !in fields[i] && RECORD_SEPARATOR !in fields[i]
  }

  /** The seven fields of a record's line, in the order the writers append them. */
  function Fields(record: Record, formattedDate: JString, encodedFrame: JString): (r: seq<JString>)
    ensures |r| == 7
  {
    [record.id, formattedDate, record.groupName, record.httpMethod, encodedFrame,
     Decimal.Render(record.responseInfo.statusCode), Decimal.Render(record.responseInfo.responseTime)]
  }

  /** The appended fields followed by RECORD_SEPARATOR. */
  function Line(fields: seq<JString>): JString
    requires fields != []
  {
    Join(fields) + [RECORD_SEPARATOR]
  }

  /**
   * The line a writer builds for `record`, or the exception `writeRecord`
   * throws (`writeUTF` of an over-long string); the date has been formatted.
   */
  function Serialize(record: Record, formattedDate: JString): Result<JString, JavaException>
  {
    var frame :- RecordFrame.Frame(record);
    Success(Line(Fields(record, formattedDate, Base64.Encode(frame))))
  }

  /**
   * The shared body of both writers' `write`: frame the record, base64 the
   * frame, then append the seven fields and the separators to a builder.
   */
  method BuildLine(record: Record, formattedDate: JString) returns (r: Result<JString, JavaException>)
    ensures r == Serialize(record, formattedDate)
  {
    var frame := RecordFrame.WriteRecord(record);
    if frame.Failure? {
      return Failure(frame.error);
    }
    var encoded := Base64.Encode(frame.value);
    var builder: JString := record.id + [FIELD_SEPARATOR];
    builder := builder + formattedDate + [FIELD_SEPARATOR];
    builder := builder + record.groupName + [FIELD_SEPARATOR];
    builder := builder + record.httpMethod + [FIELD_SEPARATOR];
    builder := builder + encoded + [FIELD_SEPARATOR];
    builder := builder + Decimal.Render(record.responseInfo.statusCode) + [FIELD_SEPARATOR];
    builder := builder + Decimal.Render(record.responseInfo.responseTime) + [RECORD_SEPARATOR];
    var fields := Fields(record, formattedDate, encoded);
    JoinSeven(fields);
    assert fields[0] == record.id && fields[1] == formattedDate && fields[2] == record.groupName;
    assert fields[3] == record.httpMethod && fields[4] == encoded;
    assert fields[5] == Decimal.Render(record.responseInfo.statusCode);
    assert fields[6] == Decimal.Render(record.responseInfo.responseTime);
    assert builder == Line(fields);
    r := Success(builder);
  }

  /** `"record serialization failure (id=" + id + ")"`, the message of the rethrown exception. */
  function FailureMessage(id: JString): JString
  {
    FAILURE_PREFIX + id + FAILURE_SUFFIX
  }

  const FAILURE_PREFIX: JString := Lit("record serialization failure (id=")
  const FAILURE_SUFFIX: JString := Lit(")")

  /** What a reader recovers from one line. */
  datatype LineContent = LineContent(
    id: JString,
    date: JString,
    groupName: JString,
    httpMethod: JString,
    frame: RecordFrame.FrameContent,
    statusCode: int,
    responseTime: int)

  /** Reads a line: seven fields, a base64 frame, two decimal numbers. */
  function ParseLine(line: JString): Option<LineContent>
  {
    if line == [] || line[|line| - 1] != RECORD_SEPARATOR then None
    else
      var fields := Text.Split(line[..|line| - 1], FIELD_SEPARATOR);
      if |fields| != 7 then None
      else
        var bytes :- Base64.Decode(fields[4]);
        var frame :- RecordFrame.ReadFrame(bytes);
        var statusCode :- Decimal.Parse(fields[5]);
        var responseTime :- Decimal.Parse(fields[6]);
        Some(LineContent(fields[0], fields[1], fields[2], fields[3], frame, statusCode, responseTime))
  }

  /** Splitting a joined line on FIELD_SEPARATOR gives back the fields, when none contains it. */
  lemma {:induction false} SplitJoin(fields: seq<JString>)
    requires fields != []
    requires forall i | 0 <= i < |fields| :: FIELD_SEPARATOR !in fields[i]
    ensures Text.Split(Join(fields), FIELD_SEPARATOR) == fields
  {
    if |fields| == 1 {
      Api.SplitWithoutSeparator(fields[0], FIELD_SEPARATOR);
    } else {
      SplitJoin(fields[1..]);
      Text.SplitField(fields[0], FIELD_SEPARATOR, Join(fields[1..]));
    }
  }

  /** A join of fields free of RECORD_SEPARATOR contains none either. */
  lemma {:induction false} JoinFreeOfRecordSeparator(fields: seq<JString>)
    requires fields != [] && SeparatorFree(fields)
    ensures RECORD_SEPARATOR !in Join(fields)
  {
    if |fields| > 1 {
      JoinFreeOfRecordSeparator(fields[1..]);
      assert SeparatorFree(fields[1..]) by {
        forall i | 0 <= i < |fields[1..]| ensures RECORD_SEPARATOR !in fields[1..][i] {
          assert fields[1..][i] == fields[i + 1];
        }
      }
    }
  }

  /** The generated fields (encoded frame, status, time) never contain a separator. */
  lemma GeneratedFieldsSeparatorFree(record: Record, formattedDate: JString, frame: seq<Byte>)
    requires SeparatorFree([record.id, formattedDate, record.groupName, record.httpMethod])
    ensures SeparatorFree(Fields(record, formattedDate, Base64.Encode(frame)))
  {
    var fields := Fields(record, formattedDate, Base64.Encode(frame));
    var given := [record.id, formattedDate, record.groupName, record.httpMethod];
    Base64.EncodeHasNoSeparators(frame);
    Decimal.RenderHasNoSeparators(record.responseInfo.statusCode);
    Decimal.RenderHasNoSeparators(record.responseInfo.responseTime);
    forall i | 0 <= i < 4 ensures FIELD_SEPARATOR !in fields[i] && RECORD_SEPARATOR !in fields[i] {
      assert fields[i] == given[i];
    }
  }

  /**
   * When id, date, group name and method hold no TAB or LF, the line ends in
   * its only LF and the text before it splits into exactly the seven fields.
   */
  lemma LineLayout(record: Record, formattedDate: JString)
    requires SeparatorFree([record.id, formattedDate, record.groupName, record.httpMethod])
    requires Serialize(record, formattedDate).Success?
    ensures var line := Serialize(record, formattedDate).value;
      var frame := RecordFrame.Frame(record).value;
      && line != []
      && line[|line| - 1] == RECORD_SEPARATOR
      && RECORD_SEPARATOR !in line[..|line| - 1]
      && Text.Split(line[..|line| - 1], FIELD_SEPARATOR) == Fields(record, formattedDate, Base64.Encode(frame))
  {
    var frame := RecordFrame.Frame(record).value;
    var fields := Fields(record, formattedDate, Base64.Encode(frame));
    var line := Serialize(record, formattedDate).value;
    GeneratedFieldsSeparatorFree(record, formattedDate, frame);
    assert line[..|line| - 1] == Join(fields);
    JoinFreeOfRecordSeparator(fields);
    SplitJoin(fields);
  }

  /** A line serialized from a record reads back as that record's fields, frame and response values. */
  lemma LineRoundTrip(record: Record, formattedDate: JString)
    requires SeparatorFree([record.id, formattedDate, record.groupName, record.httpMethod])
    requires Serialize(record, formattedDate).Success?
    ensures ParseLine(Serialize(record, formattedDate).value) == Some(LineContent(
      record.id, formattedDate, record.groupName, record.httpMethod,
      RecordFrame.FrameContent(record.uri, record.headers, record.payload.missingByteCount, record.payload.bytes),
      record.responseInfo.statusCode as int, record.responseInfo.responseTime as int))
  {
    var frame := RecordFrame.Frame(record).value;
    var fields := Fields(record, formattedDate, Base64.Encode(frame));
    var line := Serialize(record, formattedDate).value;
    assert line != [] && line[|line| - 1] == RECORD_SEPARATOR && Text.Split(line[..|line| - 1], FIELD_SEPARATOR) == fields by {
      LineLayout(record, formattedDate);
    }
    assert Base64.Decode(fields[4]) == Some(frame) by {
      Base64.DecodeEncode(frame);
    }
    RecordFrame.FrameRoundTrip(record);
    assert Decimal.Parse(fields[5]) == Some(record.responseInfo.statusCode as int) by {
      Decimal.RenderRoundTrip(record.responseInfo.statusCode);
    }
    assert Decimal.Parse(fields[6]) == Some(record.responseInfo.responseTime as int) by {
      Decimal.RenderRoundTrip(record.responseInfo.responseTime);
    }
    ParseLineSteps(line, fields, frame,
      RecordFrame.FrameContent(record.uri, record.headers, record.payload.missingByteCount, record.payload.bytes),
      record.responseInfo.statusCode as int, record.responseInfo.responseTime as int);
  }

  /** `ParseLine` succeeds when the line splits into seven fields and each of its reads does. */
  lemma ParseLineSteps(line: JString, fields: seq<JString>, bytes: seq<Byte>, frame: RecordFrame.FrameContent,
                       statusCode: int, responseTime: int)
    requires line != [] && line[|line| - 1] == RECORD_SEPARATOR
    requires Text.Split(line[..|line| - 1], FIELD_SEPARATOR) == fields && |fields| == 7
    requires Base64.Decode(fields[4]) == Some(bytes) && RecordFrame.ReadFrame(bytes) == Some(frame)
    requires Decimal.Parse(fields[5]) == Some(statusCode) && Decimal.Parse(fields[6]) == Some(responseTime)
    ensures ParseLine(line) == Some(LineContent(fields[0], fields[1], fields[2], fields[3], frame, statusCode, responseTime))
  {
  }

  /** Serializing fails exactly when the frame does, and then with the frame's exception. */
  lemma SerializeFails(record: Record, formattedDate: JString)
    ensures Serialize(record, formattedDate).Failure? <==> RecordFrame.Frame(record).Failure?
    ensures Serialize(record, formattedDate).Failure? ==>
      Serialize(record, formattedDate).error == RecordFrame.Frame(record).error
  {
  }

  /** Every serialized line ends in RECORD_SEPARATOR, so it is never the empty stop sentinel. */
  lemma SerializedLineNonEmpty(record: Record, formattedDate: JString)
    requires Serialize(record, formattedDate).Success?
    ensures var line := Serialize(record, formattedDate).value;
      |line| > 0 && line[|line| - 1] == RECORD_SEPARATOR
  {
  }
}
