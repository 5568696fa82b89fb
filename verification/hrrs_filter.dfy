/**
 * HrrsFilter: the servlet filter that derives a record from each recordable
 * request, runs the filter chain, tags the response and hands the record to
 * the writer; and its init/destroy life cycle over the servlet context.
 */
module HrrsServletFilter {
  import opened Wrappers
  import opened Jvm
  import opened Api
  import Text

  const QUESTION_MARK: JChar := 63
  const SLASH: JChar := 47
  const DOT: JChar := 46

  /** The characters `.` in a Java regular expression does not match (no DOTALL, no UNIX_LINES). */
  predicate IsLineTerminator(c: JChar)
  {
    c == 10 || c == 13 || c == 0x85 || c == 0x2028 || c == 0x2029
  }

  predicate HasLineTerminator(s: JString)
  {
    exists i | 0 <= i < |s| :: IsLineTerminator(s[i])
  }

  /** What `String.format("%s", query)` prints for the query string. */
  function QueryText(query: Option<JString>): JString
  {
    match query
    case Some(q) => q
    case None => NULL_TEXT
  }

  const NULL_TEXT: JString :=  // "null"
    [110, 117, 108, 108]

  /**
   * `createRequestUri`: the request URI alone when `HrrsHelper.isBlank` holds
   * of the query string, otherwise `uri + "?" + query`.
   */
  function RequestUri(uri: JString, query: Option<JString>, queryBlank: bool): (r: JString)
    ensures queryBlank ==> r == uri
    ensures !queryBlank ==> |r| == |uri| + 1 + |QueryText(query)|
    ensures !queryBlank ==> r[..|uri|] == uri && r[|uri|] == QUESTION_MARK && r[|uri| + 1..] == QueryText(query)
  {
    if queryBlank then uri else uri + [QUESTION_MARK] + QueryText(query)
  }

  /** How many characters of `s` come before its first line terminator. */
  function LineLength(s: JString): (k: nat)
    ensures k <= |s|
    ensures forall j | 0 <= j < k :: !IsLineTerminator(s[j])
    ensures k < |s| ==> IsLineTerminator(s[k])
  {
    if s == [] || IsLineTerminator(s[0]) then 0 else 1 + LineLength(s[1..])
  }

  /**
   * `replaceFirst("\\?.*", "")`: removes the first `?` and what follows it on
   * the same line (`.` stops at a line terminator).
   */
  function StripQuery(s: JString): JString
  {
    match Text.IndexOf(s, QUESTION_MARK)
    case None => s
    case Some(i) => s[..i] + s[i + 1 + LineLength(s[i + 1..])..]
  }

  /** `replaceFirst("^/", "")`: drops one leading slash. */
  function StripLeadingSlash(s: JString): JString
  {
    if s != [] && s[0] == SLASH then s[1..] else s
  }

  /** `replaceAll("/", ".")`. */
  function SlashesToDots(s: JString): JString
  {
    seq(|s|, i requires 0 <= i < |s| => if s[i] == SLASH then DOT else s[i])
  }

  /** `createRequestGroupName` applied to the request URI text. */
  function GroupName(requestUri: JString): (r: JString)
    ensures SLASH !in r
    ensures |r| <= |requestUri|
  {
    SlashesToDots(StripLeadingSlash(StripQuery(requestUri)))
  }

  /** Without a line terminator, everything from the first `?` on is dropped. */
  lemma StripQueryCut(a: JString, b: JString)
    requires QUESTION_MARK !in a && !HasLineTerminator(b)
    ensures StripQuery(a + [QUESTION_MARK] + b) == a
  {
    var s := a + [QUESTION_MARK] + b;
    Text.IndexOfAfterField(a, QUESTION_MARK, b);
    assert s[|a| + 1..] == b;
    assert s[..|a|] == a;
  }

  /** The group name ignores the query string, when it holds no line terminator. */
  lemma GroupNameIgnoresQuery(uri: JString, query: Option<JString>, queryBlank: bool)
    requires QUESTION_MARK !in uri && !HasLineTerminator(QueryText(query))
    ensures GroupName(RequestUri(uri, query, queryBlank)) == GroupName(uri)
  {
    if !queryBlank {
      StripQueryCut(uri, QueryText(query));
    }
  }

  /** A group name of a URI free of `?` is its path without the leading slash, slashes read as dots. */
  lemma GroupNameOfPath(path: JString)
    requires QUESTION_MARK !in path
    ensures var r := GroupName([SLASH] + path);
      |r| == |path| && forall i | 0 <= i < |path| :: r[i] == if path[i] == SLASH then DOT else path[i]
  {
    var s := [SLASH] + path;
    assert QUESTION_MARK !in s by {
      assert forall i | 0 <= i < |s| :: s[i] == if i == 0 then SLASH else path[i - 1];
    }
    assert s[1..] == path;
  }

  /**
   * The URI `/hello/group-5?id=42` is grouped as `hello.group-5`: `path` is
   * `hello/group-5`, `query` is `id=42`, as UTF-16 code units.
   */
  lemma GroupNameExample(uri: JString, path: JString, query: JString)
    requires path == [104, 101, 108, 108, 111, 47, 103, 114, 111, 117, 112, 45, 53]
    requires query == [105, 100, 61, 52, 50]
    requires uri == [SLASH] + path + [QUESTION_MARK] + query
    ensures GroupName(uri) == [104, 101, 108, 108, 111, 46, 103, 114, 111, 117, 112, 45, 53]
  {
    ExamplePieces(path, query);
    GroupNameOfQueriedPath(path, query);
  }

  /** The pieces of the example URI meet the conditions of `GroupNameOfQueriedPath`. */
  lemma ExamplePieces(path: JString, query: JString)
    requires path == [104, 101, 108, 108, 111, 47, 103, 114, 111, 117, 112, 45, 53]
    requires query == [105, 100, 61, 52, 50]
    ensures QUESTION_MARK !in path && !HasLineTerminator(query)
    ensures SlashesToDots(path) == [104, 101, 108, 108, 111, 46, 103, 114, 111, 117, 112, 45, 53]
  {
  }

  /** `/path?query` is grouped as the path, slashes read as dots, when `path` has no `?` and `query` no line terminator. */
  lemma GroupNameOfQueriedPath(path: JString, query: JString)
    requires QUESTION_MARK !in path && !HasLineTerminator(query)
    ensures GroupName([SLASH] + path + [QUESTION_MARK] + query) == SlashesToDots(path)
  {
    assert QUESTION_MARK !in [SLASH] + path;
    StripQueryCut([SLASH] + path, query);
    assert ([SLASH] + path)[1..] == path;
  }

  /**
   * `createPayloadUsingInputStream`: the recorded bytes, and the count the
   * tee stream saw minus the recorded length, in `int` arithmetic.
   */
  function PayloadFromStream(recorded: JList<Byte>, totalByteCount: Int32): (p: Payload)
    ensures p.bytes == recorded
    ensures totalByteCount >= 0 ==> p.missingByteCount == totalByteCount - |recorded|
    ensures p.missingByteCount as int + |recorded| == totalByteCount
      || p.missingByteCount as int + |recorded| == totalByteCount + 0x1_0000_0000
  {
    Payload(Sub32(totalByteCount, |recorded|), recorded)
  }

  /** `DEFAULT_MAX_RECORDABLE_PAYLOAD_BYTE_COUNT`: the cap handed to the tee stream, 10 MiB. */
  const DEFAULT_MAX_RECORDABLE_PAYLOAD_BYTE_COUNT: Int32 := 10 * 1024 * 1024

  /** The HTTP request as the filter reads it. */
  datatype HttpServletRequest = HttpServletRequest(
    requestUri: JString,           // getRequestURI()
    queryString: Option<JString>,  // getQueryString(); None for null
    httpMethod: JString,           // getMethod()
    headerNames: JList<JString>,   // getHeaderNames(), in enumeration order
    header: JString -> JString,    // getHeader(name)
    formPayload: Option<Payload>)  // createPayloadUsingFormParameters: Some for a URL-encoded form

  /** What the container passes to `doFilter`: an HTTP request or some other kind. */
  datatype ServletRequest = Http(http: HttpServletRequest) | NonHttp

  /** The (name, getHeader(name)) pairs of `names`, in order. */
  function HeaderPairs(names: JList<JString>, header: JString -> JString): (r: JList<Header>)
    ensures |r| == |names|
  {
    if names == [] then []
    else HeaderPairs(names[..|names| - 1], header) + [Header(names[|names| - 1], header(names[|names| - 1]))]
  }

  /** One pair per name, the i-th pair for the i-th name: the list keeps enumeration order. */
  lemma {:induction false} HeaderPairsInOrder(names: JList<JString>, header: JString -> JString)
    ensures forall i | 0 <= i < |names| :: HeaderPairs(names, header)[i] == Header(names[i], header(names[i]))
  {
    if names != [] {
      var init := names[..|names| - 1];
      HeaderPairsInOrder(init, header);
      forall i | 0 <= i < |init| ensures HeaderPairs(names, header)[i] == Header(names[i], header(names[i])) {
        assert init[i] == names[i];
      }
    }
  }

  /** `createHeaders`: walks the header-name enumeration, pairing each name with its value. */
  method CreateHeaders(request: HttpServletRequest) returns (headers: JList<Header>)
    ensures headers == HeaderPairs(request.headerNames, request.header)
  {
    var names := request.headerNames;
    headers := [];
    var k := 0;
    while k < |names|
      invariant 0 <= k <= |names|
      invariant headers == HeaderPairs(names[..k], request.header)
    {
      var name := names[k];
      assert names[..k + 1][..k] == names[..k];
      headers := headers + [Header(name, request.header(name))];
      k := k + 1;
    }
    assert names[..k] == names;
  }

  /** The collaborators the filter consults but whose code is not modelled, and the clock readings. */
  datatype Environment = Environment(
    isBlank: Option<JString> -> bool,             // HrrsHelper.isBlank
    requestMethods: set<JString>,                 // the constant names of HttpRequestMethod
    recordable: HttpServletRequest -> bool,       // the overridable isRequestRecordable hook
    filterRecord: Record -> bool,                 // whether the filterRecord hook returns non-null
    queueStat: JString,                           // QueueBase64HttpRequestRecordWriter.getStat()
    id: JString,                                  // createRequestId
    timestamp: Int64,                             // new Date(), in milliseconds since the epoch
    startMillis: Int64,                           // the clock before the chain runs
    endMillis: Int64,                             // the clock after it returns
    teeRecorded: JList<Byte>,                     // what the tee stream copied while the chain read the body
    teeByteCount: Int32)                          // how many bytes the tee stream counted

  /** The message of `HttpRequestMethod.valueOf` for a name that is not a constant. */
  const NO_ENUM_CONSTANT: JString :=  // "No enum constant com.vlkan.hrrs.api.HttpRequestMethod."
    [78, 111, 32, 101, 110, 117, 109, 32, 99, 111, 110, 115, 116, 97, 110, 116, 32, 99, 111, 109, 46, 118, 108, 107, 97, 110, 46, 104, 114, 114, 115, 46, 97, 112, 105, 46, 72, 116, 116, 112, 82, 101, 113, 117, 101, 115, 116, 77, 101, 116, 104, 111, 100, 46]

  /**
   * The record `createRecord` builds, or the exception `HttpRequestMethod.valueOf`
   * throws for an unknown method name.
   */
  function RecordOf(request: HttpServletRequest, env: Environment, payload: Payload, response: ResponseValues)
    : Result<Record, JavaException>
  {
    if request.httpMethod !in env.requestMethods then
      Failure(IllegalArgumentException(NO_ENUM_CONSTANT + request.httpMethod))
    else
      var uri := RequestUri(request.requestUri, request.queryString, env.isBlank(request.queryString));
      Success(Record(env.id, env.timestamp, GroupName(uri), uri, request.httpMethod,
                     HeaderPairs(request.headerNames, request.header), payload, response))
  }

  /**
   * The recorded record is grouped by the path alone: its group name is the
   * one of the request URI without the query, and its uri carries the query.
   */
  lemma RecordGroupIgnoresQuery(request: HttpServletRequest, env: Environment, payload: Payload, response: ResponseValues)
    requires request.httpMethod in env.requestMethods
    requires QUESTION_MARK !in request.requestUri && !HasLineTerminator(QueryText(request.queryString))
    ensures var r := RecordOf(request, env, payload, response);
      && r.Success?
      && r.value.groupName == GroupName(request.requestUri)
      && r.value.uri == RequestUri(request.requestUri, request.queryString, env.isBlank(request.queryString))
  {
    GroupNameIgnoresQuery(request.requestUri, request.queryString, env.isBlank(request.queryString));
  }

  /** `createRecord`: the headers come from the enumeration loop. */
  method CreateRecord(request: HttpServletRequest, env: Environment, payload: Payload, response: ResponseValues)
    returns (r: Result<Record, JavaException>)
    ensures r == RecordOf(request, env, payload, response)
  {
    var uri := RequestUri(request.requestUri, request.queryString, env.isBlank(request.queryString));
    var groupName := GroupName(uri);
    if request.httpMethod !in env.requestMethods {
      return Failure(IllegalArgumentException(NO_ENUM_CONSTANT + request.httpMethod));
    }
    var headers := CreateHeaders(request);
    r := Success(Record(env.id, env.timestamp, groupName, uri, request.httpMethod, headers, payload, response));
  }

  /** The response the filter tags; the rest of the chain sets its status. */
  class HttpServletResponse {
    var status: Int32
    /** Every `addHeader`, in call order. */
    var headers: seq<Header>

    constructor ()
      ensures status == 200 && headers == []
    {
      status := 200;
      headers := [];
    }
  }

  /** Which request the filter passes down the chain: the original, or the wrapper over the tee stream. */
  datatype ChainCall = Original | TeeWrapped(maxPayloadByteCount: Int32)

  /** The rest of the filter chain: it serves the request and sets the response status. */
  class FilterChain {
    /** The status code the servlet behind the filter sets. */
    const status: Int32
    /** Every `doFilter` call, in order. */
    var calls: seq<ChainCall>

    constructor (status: Int32)
      ensures this.status == status && calls == []
    {
      this.status := status;
      calls := [];
    }

    method DoFilter(call: ChainCall, response: HttpServletResponse)
      modifies this, response
      ensures calls == old(calls) + [call]
      ensures response.status == status && response.headers == old(response.headers)
    {
      calls := calls + [call];
      response.status := status;
    }
  }

  /** The writer `getWriter()` returns; it keeps every record handed to it, in order. */
  class RecordSink {
    var records: seq<Record>

    constructor ()
      ensures records == []
    {
      records := [];
    }

    method Write(record: Record)
      modifies this
      ensures records == old(records) + [record]
    {
      records := records + [record];
    }
  }

  /** The servlet context the filter registers itself in. */
  class ServletContext {
    var attributes: map<JString, object>

    constructor ()
      ensures attributes == map[]
    {
      attributes := map[];
    }
  }

  const X_HRRS: JString :=  // "X-HRRS"
    [88, 45, 72, 82, 82, 83]
  const X_HRRS_QUEUE: JString :=  // "X-HRRS-Queue"
    [88, 45, 72, 82, 82, 83, 45, 81, 117, 101, 117, 101]
  const NOT_RECORDABLE: JString :=  // "Not recordable"
    [78, 111, 116, 32, 114, 101, 99, 111, 114, 100, 97, 98, 108, 101]
  const LOGGED_PL: JString :=  // "logged, PL"
    [108, 111, 103, 103, 101, 100, 44, 32, 80, 76]
  const PL: JString :=  // "PL"
    [80, 76]
  const LOGGED: JString :=  // "logged"
    [108, 111, 103, 103, 101, 100]

  /** The two headers `filterChain` adds once the chain has returned. */
  function StatusHeaders(status: JString, queueStat: JString): seq<Header>
  {
    [Header(X_HRRS, status), Header(X_HRRS_QUEUE, queueStat)]
  }

  /** `SERVLET_CONTEXT_ATTRIBUTE_KEY`: the filter's canonical class name. */
  const SERVLET_CONTEXT_ATTRIBUTE_KEY: JString :=  // "com.vlkan.hrrs.servlet.HrrsFilter"
    [99, 111, 109, 46, 118, 108, 107, 97, 110, 46, 104, 114, 114, 115, 46, 115, 101, 114, 118, 108, 101, 116, 46, 72, 114, 114, 115, 70, 105, 108, 116, 101, 114]
  const CONTEXT_ALREADY_INITIALIZED: JString :=  // "servlet context is already initialized"
    [115, 101, 114, 118, 108, 101, 116, 32, 99, 111, 110, 116, 101, 120, 116, 32, 105, 115, 32, 97, 108, 114, 101, 97, 100, 121, 32, 105, 110, 105, 116, 105, 97, 108, 105, 122, 101, 100]
  const ATTRIBUTE_ALREADY_INITIALIZED: JString :=  // "servlet context attribute is already initialized"
    [115, 101, 114, 118, 108, 101, 116, 32, 99, 111, 110, 116, 101, 120, 116, 32, 97, 116, 116, 114, 105, 98, 117, 116, 101, 32, 105, 115, 32, 97, 108, 114, 101, 97, 100, 121, 32, 105, 110, 105, 116, 105, 97, 108, 105, 122, 101, 100]
  const CONTEXT_NOT_INITIALIZED: JString :=  // "servlet context is not initialized"
    [115, 101, 114, 118, 108, 101, 116, 32, 99, 111, 110, 116, 101, 120, 116, 32, 105, 115, 32, 110, 111, 116, 32, 105, 110, 105, 116, 105, 97, 108, 105, 122, 101, 100]

  /** `filterChain`: run the chain, then tag the response with the status token and the queue statistic. */
  method RunChain(chain: FilterChain, call: ChainCall, response: HttpServletResponse, status: JString, queueStat: JString)
    modifies chain, response
    ensures chain.calls == old(chain.calls) + [call]
    ensures response.status == chain.status
    ensures response.headers == old(response.headers) + StatusHeaders(status, queueStat)
  {
    chain.DoFilter(call, response);
    response.headers := response.headers + [Header(X_HRRS, status)];
    response.headers := response.headers + [Header(X_HRRS_QUEUE, queueStat)];
  }

  /** The payload of a recordable request: the form's, or what the tee stream recorded. */
  function PayloadOf(request: HttpServletRequest, env: Environment): Payload
  {
    if request.formPayload.Some? then request.formPayload.value else PayloadFromStream(env.teeRecorded, env.teeByteCount)
  }

  /**
   * The writer's log after a record was derived: nothing on failure, the
   * record once when the `filterRecord` hook keeps it, nothing when it drops it.
   */
  predicate Recorded(before: seq<Record>, after: seq<Record>, o: Outcome<JavaException>,
                     record: Result<Record, JavaException>, env: Environment)
  {
    && (record.Failure? ==> o == Fail(record.error) && after == before)
    && (record.Success? ==> o == Pass && after == before + if env.filterRecord(record.value) then [record.value] else [])
  }

  class HrrsFilter {
    var enabled: bool
    var servletContext: ServletContext?
    /** What `getWriter()` returns. */
    const writer: RecordSink

    /** A new filter is disabled and not initialized. */
    constructor (writer: RecordSink)
      ensures !enabled && servletContext == null && this.writer == writer
    {
      enabled := false;
      servletContext := null;
      this.writer := writer;
    }

    method IsEnabled() returns (e: bool)
      ensures e == enabled
    {
      e := enabled;
    }

    method SetEnabled(enabled: bool)
      modifies this
      ensures this.enabled == enabled && servletContext == old(servletContext)
    {
      this.enabled := enabled;
    }

    /**
     * `doFilter`. A non-HTTP request fails the cast before anything runs. An
     * unrecordable request (disabled filter, or the hook says no) only runs
     * the chain, tagged `Not recordable`; a recordable one is recorded.
     */
    method DoFilter(request: ServletRequest, response: HttpServletResponse, chain: FilterChain, env: Environment)
      returns (o: Outcome<JavaException>)
      modifies response, chain, writer
      ensures request.NonHttp? ==> o == Fail(ClassCastException) && unchanged(response, chain, writer)
      ensures request.Http? && !(enabled && env.recordable(request.http)) ==>
        && o == Pass
        && chain.calls == old(chain.calls) + [Original]
        && response.headers == old(response.headers) + StatusHeaders(NOT_RECORDABLE, env.queueStat)
        && unchanged(writer)
      ensures request.Http? && enabled && env.recordable(request.http) ==>
        var form := request.http.formPayload;
        && chain.calls == old(chain.calls) + [if form.Some? then Original else TeeWrapped(DEFAULT_MAX_RECORDABLE_PAYLOAD_BYTE_COUNT)]
        && response.headers == old(response.headers) + StatusHeaders(if form.Some? then LOGGED else LOGGED_PL, env.queueStat)
      ensures request.Http? && enabled && env.recordable(request.http) ==>
        Recorded(old(writer.records), writer.records, o, RecordOf(request.http, env, PayloadOf(request.http, env),
          ResponseValues(chain.status, Sub64(env.endMillis, env.startMillis))), env)
    {
      if request.NonHttp? {
        return Fail(ClassCastException);
      }
      var httpRequest := request.http;
      if !(enabled && env.recordable(httpRequest)) {
        RunChain(chain, Original, response, NOT_RECORDABLE, env.queueStat);
        return Pass;
      }
      o := RecordRequest(httpRequest, response, chain, env);
    }

    /**
     * The recordable path of `doFilter`: the chain runs on the tee wrapper
     * (no form payload) or on the request itself (form payload), the response
     * is tagged, and the record is handed to the writer exactly once unless
     * the `filterRecord` hook drops it.
     */
    method RecordRequest(request: HttpServletRequest, response: HttpServletResponse, chain: FilterChain, env: Environment)
      returns (o: Outcome<JavaException>)
      requires enabled
      modifies response, chain, writer
      ensures var form := request.formPayload;
        && chain.calls == old(chain.calls) + [if form.Some? then Original else TeeWrapped(DEFAULT_MAX_RECORDABLE_PAYLOAD_BYTE_COUNT)]
        && response.headers == old(response.headers) + StatusHeaders(if form.Some? then LOGGED else LOGGED_PL, env.queueStat)
      ensures Recorded(old(writer.records), writer.records, o, RecordOf(request, env, PayloadOf(request, env),
        ResponseValues(chain.status, Sub64(env.endMillis, env.startMillis))), env)
    {
      var payload := request.formPayload;
      var spendTime: Int64;
      if payload.None? {
        RunChain(chain, TeeWrapped(DEFAULT_MAX_RECORDABLE_PAYLOAD_BYTE_COUNT), response,
                 if enabled then LOGGED_PL else PL, env.queueStat);
        spendTime := Sub64(env.endMillis, env.startMillis);
        payload := Some(PayloadFromStream(env.teeRecorded, env.teeByteCount));
      } else {
        RunChain(chain, Original, response, if enabled then LOGGED else [], env.queueStat);
        spendTime := Sub64(env.endMillis, env.startMillis);
      }
      var responseInfo := new ResponseInfo(Some(response.status));
      responseInfo.SetResponseTime(spendTime);
      var record := CreateRecord(request, env, payload.value, responseInfo.Values());
      if record.Failure? {
        return Fail(record.error);
      }
      if env.filterRecord(record.value) {
        writer.Write(record.value);
      }
      o := Pass;
    }

    /**
     * `init`: fails when a context is already set, or, after adopting the
     * given context, when its attribute is already present; otherwise maps
     * SERVLET_CONTEXT_ATTRIBUTE_KEY to this filter.
     */
    method Init(context: ServletContext) returns (o: Outcome<JavaException>)
      modifies this, context
      ensures enabled == old(enabled)
      ensures old(servletContext) != null ==>
        && o == Fail(IllegalArgumentException(CONTEXT_ALREADY_INITIALIZED))
        && servletContext == old(servletContext)
        && unchanged(context)
      ensures old(servletContext) == null ==> servletContext == context
      ensures old(servletContext) == null && SERVLET_CONTEXT_ATTRIBUTE_KEY in old(context.attributes) ==>
        o == Fail(IllegalArgumentException(ATTRIBUTE_ALREADY_INITIALIZED)) && unchanged(context)
      ensures old(servletContext) == null && SERVLET_CONTEXT_ATTRIBUTE_KEY !in old(context.attributes) ==>
        o == Pass && context.attributes == old(context.attributes)[SERVLET_CONTEXT_ATTRIBUTE_KEY := this]
    {
      if servletContext != null {
        return Fail(IllegalArgumentException(CONTEXT_ALREADY_INITIALIZED));
      }
      servletContext := context;
      if SERVLET_CONTEXT_ATTRIBUTE_KEY in context.attributes {
        return Fail(IllegalArgumentException(ATTRIBUTE_ALREADY_INITIALIZED));
      }
      context.attributes := context.attributes[SERVLET_CONTEXT_ATTRIBUTE_KEY := this];
      o := Pass;
    }

    /**
     * `destroy`: fails when no context was ever set; otherwise removes the
     * attribute, and keeps the context.
     */
    method Destroy() returns (o: Outcome<JavaException>)
      modifies servletContext
      ensures servletContext == null ==> o == Fail(NullPointerException(CONTEXT_NOT_INITIALIZED))
      ensures servletContext != null ==>
        o == Pass && servletContext.attributes == old(servletContext.attributes) - {SERVLET_CONTEXT_ATTRIBUTE_KEY}
    {
      if servletContext == null {
        return Fail(NullPointerException(CONTEXT_NOT_INITIALIZED));
      }
      servletContext.attributes := servletContext.attributes - {SERVLET_CONTEXT_ATTRIBUTE_KEY};
      o := Pass;
    }
  }

  /**
   * A filter initialized, destroyed and initialized again: the second `init`
   * fails, because `destroy` keeps the context, although the attribute is gone.
   */
  method InitDestroyInit(filter: HrrsFilter, context: ServletContext) returns (first: Outcome<JavaException>,
    second: Outcome<JavaException>, third: Outcome<JavaException>)
    requires filter.servletContext == null && SERVLET_CONTEXT_ATTRIBUTE_KEY !in context.attributes
    modifies filter, context
    ensures first == Pass && second == Pass
    ensures third == Fail(IllegalArgumentException(CONTEXT_ALREADY_INITIALIZED))
    ensures filter.servletContext == context && SERVLET_CONTEXT_ATTRIBUTE_KEY !in context.attributes
  {
    first := filter.Init(context);
    second := filter.Destroy();
    third := filter.Init(context);
  }
}
