/**
 * The value types of the recording API (HttpRequestRecord and its parts) and
 * the mutable ResponseInfo that the filter fills in for each exchange.
 */
module Api {
  import opened Wrappers
  import opened Jvm
  import Decimal
  import Text

  datatype Header = Header(name: JString, value: JString)

  /** The recorded body bytes and how many observed bytes were not recorded. */
  datatype Payload = Payload(missingByteCount: Int32, bytes: JList<Byte>)

  /** What a record keeps of its ResponseInfo. */
  datatype ResponseValues = ResponseValues(statusCode: Int32, responseTime: Int64)

  /**
   * An HttpRequestRecord: `timestamp` is the record's Date in milliseconds
   * since the epoch; `httpMethod` is the name of its HttpRequestMethod constant.
   */
  datatype Record = Record(
    id: JString,
    timestamp: Int64,
    groupName: JString,
    uri: JString,
    httpMethod: JString,
    headers: JList<Header>,
    payload: Payload,
    responseInfo: ResponseValues)

  const COMMA: JChar := 44
  const RESPONSE_INFO_PREFIX: JString := Lit("ResponseInfo{statusCode=")
  const TIME_LABEL: JString := Lit(" time=")
  const RESPONSE_INFO_SUFFIX: JString := Lit(" ms}")

  /** `ResponseInfo.toString()` for the given field values. */
  function ResponseInfoText(statusCode: Int32, responseTime: Int64): JString
  {
    RESPONSE_INFO_PREFIX + (Decimal.Render(statusCode) + [COMMA] + (TIME_LABEL + Decimal.Render(responseTime)))
      + RESPONSE_INFO_SUFFIX
  }

  /** Reads the two numbers back out of a `ResponseInfo.toString()` text. */
  function ParseResponseInfoText(s: JString): Option<(int, int)>
  {
    ParseLabelled(s, RESPONSE_INFO_PREFIX, TIME_LABEL, RESPONSE_INFO_SUFFIX)
  }

  /** Reads `prefix` + number + ',' + `tag` + number + `suffix`. */
  function ParseLabelled(s: JString, prefix: JString, tag: JString, suffix: JString): Option<(int, int)>
  {
    if |s| < |prefix| + |suffix| || s[..|prefix|] != prefix || s[|s| - |suffix|..] != suffix then None
    else
      var fields := Text.Split(s[|prefix|..|s| - |suffix|], COMMA);
      if |fields| != 2 || |fields[1]| < |tag| || fields[1][..|tag|] != tag then None
      else match (Decimal.Parse(fields[0]), Decimal.Parse(fields[1][|tag|..]))
        case (Some(code), Some(time)) => Some((code, time))
        case _ => None
  }

  lemma SplitWithoutSeparator(s: JString, sep: JChar)
    requires sep !in s
    ensures Text.Split(s, sep) == [s]
  {
  }

  lemma RenderHasNoComma(n: int)
    ensures COMMA !in Decimal.Render(n)
  {
  }

  lemma TimeLabelHasNoComma()
    ensures COMMA !in TIME_LABEL
  {
  }

  lemma AffixesStrip(prefix: JString, middle: JString, suffix: JString)
    ensures var s := prefix + middle + suffix;
      |s| >= |prefix| + |suffix| && s[..|prefix|] == prefix && s[|s| - |suffix|..] == suffix
      && s[|prefix|..|s| - |suffix|] == middle
  {
    var s := prefix + middle + suffix;
    assert s[..|prefix|] == prefix;
    assert s[|s| - |suffix|..] == suffix;
    assert s[|prefix|..|s| - |suffix|] == middle;
  }

  lemma LabelledParses(prefix: JString, tag: JString, suffix: JString, a: int, b: int)
    requires COMMA !in tag
    ensures ParseLabelled(prefix + (Decimal.Render(a) + [COMMA] + (tag + Decimal.Render(b))) + suffix, prefix, tag, suffix)
         == Some((a, b))
  {
    var code, time := Decimal.Render(a), Decimal.Render(b);
    var middle := code + [COMMA] + (tag + time);
    AffixesStrip(prefix, middle, suffix);
    RenderHasNoComma(a);
    RenderHasNoComma(b);
    Text.SplitField(code, COMMA, tag + time);
    SplitWithoutSeparator(tag + time, COMMA);
    assert (tag + time)[..|tag|] == tag;
    assert (tag + time)[|tag|..] == time;
    Decimal.RenderRoundTrip(a);
    Decimal.RenderRoundTrip(b);
  }

  /** The text of a ResponseInfo determines both of its fields. */
  lemma ResponseInfoTextParses(statusCode: Int32, responseTime: Int64)
    ensures ParseResponseInfoText(ResponseInfoText(statusCode, responseTime)) == Some((statusCode as int, responseTime as int))
  {
    TimeLabelHasNoComma();
    LabelledParses(RESPONSE_INFO_PREFIX, TIME_LABEL, RESPONSE_INFO_SUFFIX, statusCode, responseTime);
  }

  /** ResponseInfo: the status code and response time of one exchange. */
  class ResponseInfo {
    var statusCode: Int32
    var responseTime: Int64

    /**
     * `new ResponseInfo(response)`, where `response` is the status of the
     * HttpServletResponse, or None for a null response.
     */
    constructor (response: Option<Int32>)
      ensures response.None? ==> statusCode == 200 && responseTime == 200
      ensures response.Some? ==> statusCode == response.value && responseTime == 0
    {
      if response.None? {
        statusCode := 200;
        responseTime := 200;
      } else {
        statusCode := response.value;
        responseTime := 0;
      }
    }

    method GetStatusCode() returns (s: Int32)
      ensures s == statusCode
    {
      s := statusCode;
    }

    method SetStatusCode(s: Int32)
      modifies this`statusCode
      ensures statusCode == s && responseTime == old(responseTime)
    {
      statusCode := s;
    }

    method SetResponseTime(t: Int64)
      modifies this`responseTime
      ensures responseTime == t && statusCode == old(statusCode)
    {
      responseTime := t;
    }

    method GetResponseTime() returns (t: Int64)
      ensures t == responseTime
    {
      t := responseTime;
    }

    /** `toString()`: a text from which both fields can be read back. */
    function ToString(): (r: JString)
      reads this
      ensures ParseResponseInfoText(r) == Some((statusCode as int, responseTime as int))
    {
      ResponseInfoTextParses(statusCode, responseTime);
      ResponseInfoText(statusCode, responseTime)
    }

    function Values(): ResponseValues
      reads this
    {
      ResponseValues(statusCode, responseTime)
    }
  }
}
