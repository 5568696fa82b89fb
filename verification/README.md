# hrrs request recorder, modelled in Dafny

HRRS (HTTP Request Record Suite) records the HTTP requests a Java servlet
application receives so that they can be replayed later. This project models
the recording side of HRRS and proves properties of it:

- **HrrsFilter** is the servlet filter. For a recordable request it runs the
  filter chain and tags the response with `X-HRRS` and `X-HRRS-Queue`
  headers. It then derives a record: the id and timestamp, a group name
  derived from the URI, the URI with its query, the method, the headers in
  enumeration order, the payload, and the status code and response time. The
  record goes to the writer unless the `filterRecord` hook drops it. The
  filter also registers itself in the servlet context on `init` and
  unregisters on `destroy`.
- **ResponseInfo** holds the status code and response time of one exchange.
- **Base64HttpRequestRecordWriter** (the vanilla writer) builds a binary
  frame for each record with `DataOutputStream`. The frame holds
  `writeUTF(uri)`, the header count, the `writeUTF` name/value pairs, the
  missing-byte count, the body length and the body. The writer base64-encodes
  the frame and writes one text line to its target:
  `id TAB date TAB group TAB METHOD TAB base64 TAB status TAB time LF`.
- **QueueBase64HttpRequestRecordWriter** builds the same line on the
  caller's thread and offers it to a bounded queue of 1000 lines. A single
  worker takes lines off the queue, writes them to the target of the most
  recently constructed writer, and flushes when the queue is empty or more
  than 10 s have passed since the writer was built. `close` puts the empty
  line on the queue as a stop signal.

Java values are modelled explicitly:

- Strings are sequences of UTF-16 code units.
- Bytes are octets.
- `int` and `long` are 32- and 64-bit two's-complement ranges, with
  wrap-around written out where the code subtracts.
- Exceptions are values (`Outcome`/`Result`).

Objects whose fields the Java code updates are Dafny classes, with
`modifies` clauses on their methods:

- the filter and its servlet context;
- the response and the filter chain;
- ResponseInfo;
- the writers;
- the target;
- the queue writer's process-wide statics: the queue, the `stop` flag, the
  `doWiRecord` slot and whether the worker thread still runs.

The record frame is specified by functions (`Frame`, `ReadFrame`), and the
stream-writing methods are proved against them. The text line is specified
by `Serialize` and `ParseLine`. The main results are:

- Reading a line back returns the record's fields, its frame contents and its
  response values (`LineRoundTrip`). This is the line-level half of the round
  trip that HttpRequestSerializationTest checks on random records: the date
  comes back as the formatted text, not as the `Date` the test compares.
- After `close`, the queue worker writes exactly the lines in front of the
  first stop signal, in order, with the flushes the flush rule dictates
  (`WorkerState.Drain`, `CloseAndDrain`). The target's `write` and `flush`
  may each throw on any call. When one first does, on line `k`, the worker
  has written the lines before it, and also line `k` when only its flush
  threw. It then dies with a message naming line `k`.
- The group name of a request ignores its query string.
- The filter's `doFilter`, `init` and `destroy` follow the code's branches
  for an HTTP response, a non-null servlet context and a request stream
  that can be opened, including the ClassCastException for a non-HTTP
  request and the failures of `init` and `destroy`.

Three behaviours of the code are modelled as written:

- A second `init` after `destroy` fails, because `destroy` keeps the context
  (`InitDestroyInit`).
- The writer receives the record built before `filterRecord` ran, not the
  hook's result. The hook decides only whether anything is written.
- The worker's failure message reports the whole line, not the record id.
- After `close`, the lines in front of the stop signal are written but not
  flushed, unless more than 10 s have passed since the writer was built.
  The stop signal is still on the queue when the last line is written, so
  the queue is not empty and the empty-queue flush does not happen
  (`FlushMarks` with a stop signal behind the lines).

## Model

| member | source | states |
|---|---|---|
| Jvm.Sub32 | servlet-filter/src/main/java/com/vlkan/hrrs/servlet/HrrsFilter.java:190 | Java `int` subtraction: the exact difference when it fits in 32 bits, otherwise the difference moved into range by 2^32 |
| Jvm.Sub64 | servlet-filter/src/main/java/com/vlkan/hrrs/servlet/HrrsFilter.java:84 | Java `long` subtraction of two clock readings: the exact difference when it fits in 64 bits, otherwise moved into range by 2^64 |
| Decimal.RenderRoundTrip | serializer-base64/src/main/java/com/vlkan/hrrs/serializer/base64/Base64HttpRequestRecordWriter.java:57-59 | the decimal text appended for the status code and the response time reads back as the same number |
| Decimal.RenderHasNoSeparators | serializer-base64/src/main/java/com/vlkan/hrrs/serializer/base64/Base64HttpRequestRecord.java:10-12 | a rendered number never contains the field separator TAB or the record separator LF |
| ModifiedUtf8.WriteUtf | serializer-base64/src/main/java/com/vlkan/hrrs/serializer/base64/Base64HttpRequestRecordWriter.java:89 | `writeUTF` succeeds exactly when the modified UTF-8 encoding is at most 65535 bytes, otherwise throws UTFDataFormatException with that length; its bytes start with a two-byte big-endian count of the bytes that follow |
| ModifiedUtf8.ReadWriteUtf | serializer-base64/src/main/java/com/vlkan/hrrs/serializer/base64/Base64HttpRequestRecordWriter.java:98-99 | `readUTF` returns the string `writeUTF` wrote and leaves whatever follows untouched |
| DataStream.ReadWriteInt | serializer-base64/src/main/java/com/vlkan/hrrs/serializer/base64/Base64HttpRequestRecordWriter.java:96 | `readInt` returns the value `writeInt` wrote as four big-endian bytes, negative values included, and leaves the rest |
| DataStream.DataOutputBuffer.WriteUtf | serializer-base64/src/main/java/com/vlkan/hrrs/serializer/base64/Base64HttpRequestRecordWriter.java:89 | the stream grows by exactly the `writeUTF` bytes, or stays as it was and the exception is thrown |
| Base64.DecodeEncode | serializer-base64/src/main/java/com/vlkan/hrrs/serializer/base64/Base64HttpRequestRecordWriter.java:45 | decoding the base64 text of the frame gives back every frame byte |
| Base64.EncodeHasNoSeparators | serializer-base64/src/main/java/com/vlkan/hrrs/serializer/base64/Base64HttpRequestRecordWriter.java:55 | the encoded frame contains neither TAB nor LF, so it stays one field of one line |
| RecordFrame.FrameSteps | serializer-base64/src/main/java/com/vlkan/hrrs/serializer/base64/Base64HttpRequestRecordWriter.java:88-92 | the frame fails with the uri's exception if the uri cannot be written, else with the headers' exception, else it is uri, header section and payload section in that order |
| RecordFrame.FrameLayout | serializer-base64/src/main/java/com/vlkan/hrrs/serializer/base64/Base64HttpRequestRecordWriter.java:88-107 | a frame is `writeUTF(uri)`, the header count, the name/value pairs, the missing-byte count, the body length and the body, in this order |
| RecordFrame.HeadersSectionLayout | serializer-base64/src/main/java/com/vlkan/hrrs/serializer/base64/Base64HttpRequestRecordWriter.java:94-101 | the header section is the count followed by the pairs, and fails exactly when the pairs fail, with the same exception |
| RecordFrame.HeadersFrameSucceeds | serializer-base64/src/main/java/com/vlkan/hrrs/serializer/base64/Base64HttpRequestRecordWriter.java:97-100 | the pairs can be written exactly when every name and value encodes in at most 65535 bytes; otherwise the exception is an over-long UTFDataFormatException |
| RecordFrame.FrameSucceeds | serializer-base64/src/main/java/com/vlkan/hrrs/serializer/base64/Base64HttpRequestRecordWriter.java:88-92 | framing a record fails exactly when its uri or a header name or value is over the `writeUTF` limit |
| RecordFrame.HeadersFrameAppend | serializer-base64/src/main/java/com/vlkan/hrrs/serializer/base64/Base64HttpRequestRecordWriter.java:97-100 | the pairs of a concatenated header list are the pairs of its first part, then those of the second; the first failure wins |
| RecordFrame.HeadersFrameFailsAt | serializer-base64/src/main/java/com/vlkan/hrrs/serializer/base64/Base64HttpRequestRecordWriter.java:97-100 | when headers before position i are writable and header i is not, the whole list fails with header i's exception |
| RecordFrame.ReadHeadersFrame | serializer-base64/src/main/java/com/vlkan/hrrs/serializer/base64/Base64HttpRequestRecordWriter.java:97-100 | reading as many pairs as were written returns the headers in their order and leaves what follows |
| RecordFrame.FrameRoundTrip | serializer-base64/src/test/java/com/vlkan/hrrs/serializer/base64/HttpRequestSerializationTest.java:40-53 | reading a frame returns the uri, the headers in order, the missing-byte count and the body exactly, with nothing left over |
| RecordFrame.WriteHeader | serializer-base64/src/main/java/com/vlkan/hrrs/serializer/base64/Base64HttpRequestRecordWriter.java:98-99 | one loop body appends the header's frame, or throws its exception |
| RecordFrame.WriteHeaderPairs | serializer-base64/src/main/java/com/vlkan/hrrs/serializer/base64/Base64HttpRequestRecordWriter.java:97-100 | the header loop appends exactly the pairs frame of the list, or stops with the exception of the first header that cannot be written |
| RecordFrame.WriteHeaders | serializer-base64/src/main/java/com/vlkan/hrrs/serializer/base64/Base64HttpRequestRecordWriter.java:94-101 | appends the header section, or throws its exception |
| RecordFrame.WritePayload | serializer-base64/src/main/java/com/vlkan/hrrs/serializer/base64/Base64HttpRequestRecordWriter.java:103-107 | appends the missing-byte count, the body length and the body |
| RecordFrame.WriteRecord | serializer-base64/src/main/java/com/vlkan/hrrs/serializer/base64/Base64HttpRequestRecordWriter.java:80-92 | the bytes of a fresh stream after writing a record are its frame, or the exception framing throws |
| RecordLine.BuildLine | serializer-base64/src/main/java/com/vlkan/hrrs/serializer/base64/Base64HttpRequestRecordWriter.java:42-60 | the builder produces the serialized line of the record: the seven fields joined by TAB, then LF, or the framing exception |
| RecordLine.LineLayout | serializer-base64/src/main/java/com/vlkan/hrrs/serializer/base64/Base64HttpRequestRecordWriter.java:46-60 | when id, date, group and method hold no TAB or LF, the line ends in its only LF and splits on TAB into exactly the seven fields, in order |
| RecordLine.LineRoundTrip | serializer-base64/src/test/java/com/vlkan/hrrs/serializer/base64/HttpRequestSerializationTest.java:40-53 | reading a written line gives back the id, date, group name, method, uri, headers, payload, status code and response time |
| RecordLine.SerializeFails | serializer-base64/src/main/java/com/vlkan/hrrs/serializer/base64/Base64HttpRequestRecordWriter.java:44 | building a line fails exactly when framing fails, and with the framing exception |
| RecordLine.SerializedLineNonEmpty | serializer-base64/src/main/java/com/vlkan/hrrs/serializer/base64/QueueBase64HttpRequestRecordWriter.java:42-46 | every line ends in LF, so a line a writer queues is never taken for the empty stop signal |
| RecordLine.SplitJoin | serializer-base64/src/main/java/com/vlkan/hrrs/serializer/base64/Base64HttpRequestRecord.java:10 | fields without TAB, joined with TAB, split back into the same fields |
| Base64RecordWriter.Base64Writer.constructor | serializer-base64/src/main/java/com/vlkan/hrrs/serializer/base64/Base64HttpRequestRecordWriter.java:21-24 | the writer keeps its target and date formatter |
| Base64RecordWriter.Base64Writer.Write | serializer-base64/src/main/java/com/vlkan/hrrs/serializer/base64/Base64HttpRequestRecordWriter.java:39-68 | the serialized line reaches the target once, and nothing is flushed; a framing or target failure is rethrown as a RuntimeException naming the record id, and a framing failure writes nothing |
| Base64RecordWriter.Base64Writer.IsReady | serializer-base64/src/main/java/com/vlkan/hrrs/serializer/base64/Base64HttpRequestRecordWriter.java:75-78 | the vanilla writer is always ready |
| Base64RecordWriter.Base64Writer.Close | serializer-base64/src/main/java/com/vlkan/hrrs/serializer/base64/Base64HttpRequestRecordWriter.java:70-73 | closing leaves the target untouched |
| Base64RecordWriter.CreateWriter | serializer-base64/src/main/java/com/vlkan/hrrs/serializer/base64/Base64HttpRequestRecordWriter.java:26-31 | the vanilla writer exactly when `use.hrrs.vanilla` is set, leaving the worker untouched; otherwise a queue writer over the shared worker that becomes its current action, with `lastFlush` set to now and the queue, `stop` and `running` unchanged; both keep the given target and date formatter |
| Base64RecordWriter.SameLine | serializer-base64/src/main/java/com/vlkan/hrrs/serializer/base64/QueueBase64HttpRequestRecordWriter.java:96-117 | for the same record, the vanilla writer's target gains exactly one line, the serialized record, and the queue writer appends exactly that line to the queue |
| QueueRecordWriter.BeforeSentinel | serializer-base64/src/main/java/com/vlkan/hrrs/serializer/base64/QueueBase64HttpRequestRecordWriter.java:42-46 | the lines the worker still writes are a prefix of the queue without a stop signal, and the next line, if any, is the stop signal |
| QueueRecordWriter.SentinelSplit | serializer-base64/src/main/java/com/vlkan/hrrs/serializer/base64/QueueBase64HttpRequestRecordWriter.java:42-46 | a queue holding a stop signal is the lines before the first one, that signal, and the lines left behind |
| QueueRecordWriter.NoSentinel | serializer-base64/src/main/java/com/vlkan/hrrs/serializer/base64/QueueBase64HttpRequestRecordWriter.java:36 | without a stop signal the whole queue is written and nothing is left behind |
| QueueRecordWriter.BeforeSentinelAppend | serializer-base64/src/main/java/com/vlkan/hrrs/serializer/base64/QueueBase64HttpRequestRecordWriter.java:158 | a stop signal put behind lines without one leaves exactly those lines to be written and nothing after it |
| QueueRecordWriter.WorkerState.constructor | serializer-base64/src/main/java/com/vlkan/hrrs/serializer/base64/QueueBase64HttpRequestRecordWriter.java:23-28 | class initialisation: an empty queue, `stop` false, the worker running, no per-line action yet |
| QueueRecordWriter.WorkerState.Step | serializer-base64/src/main/java/com/vlkan/hrrs/serializer/base64/QueueBase64HttpRequestRecordWriter.java:36-58 | one loop iteration: on an empty queue exit if stopped, else keep polling; otherwise remove the head; the stop signal ends the loop; otherwise the line is written unless `write` throws, then flushed when the queue is now empty or the flush is late; a throw from `write` or `flush` kills the worker with a RuntimeException naming the line, the line staying written when only the flush threw |
| QueueRecordWriter.WorkerState.Drain | serializer-base64/src/main/java/com/vlkan/hrrs/serializer/base64/QueueBase64HttpRequestRecordWriter.java:36-58 | once `stop` is set, the worker handles the lines before the first stop signal in order, once each, with the flushes the flush rule gives, up to the first line `k` the target throws on; with no throw it writes all of them and leaves the lines behind the signal; otherwise it has written lines before `k`, and line `k` too when only its flush threw, and dies naming line `k` with the lines after it left on the queue |
| QueueRecordWriter.FirstFailure | serializer-base64/src/main/java/com/vlkan/hrrs/serializer/base64/QueueBase64HttpRequestRecordWriter.java:47-51 | the first line whose `write`, or whose due flush, throws; no line before it throws |
| QueueRecordWriter.FirstFailureIs | serializer-base64/src/main/java/com/vlkan/hrrs/serializer/base64/QueueBase64HttpRequestRecordWriter.java:47-51 | a line that throws, with no line before it throwing, is the first failing line |
| QueueRecordWriter.BrokenStreamFailsAt | serializer-base64/src/main/java/com/vlkan/hrrs/serializer/base64/QueueBase64HttpRequestRecordWriter.java:47-51 | a target whose stream breaks once it holds `m` lines fails on the line that would be its line `m`, after the lines before it were written |
| QueueRecordWriter.ReliableNeverFails | serializer-base64/src/main/java/com/vlkan/hrrs/serializer/base64/QueueBase64HttpRequestRecordWriter.java:47-51 | a target that never throws fails on none of the lines |
| QueueRecordWriter.QueueWriter.constructor | serializer-base64/src/main/java/com/vlkan/hrrs/serializer/base64/QueueBase64HttpRequestRecordWriter.java:70-79 | a new writer takes over the worker's per-line action and records the construction time as `lastFlush`; queue and flags are untouched |
| QueueRecordWriter.QueueWriter.Apply | serializer-base64/src/main/java/com/vlkan/hrrs/serializer/base64/QueueBase64HttpRequestRecordWriter.java:73-78 | the per-line action writes the line, then flushes exactly when the queue is empty or more than 10000 ms passed since `lastFlush`; a throw from `write` skips the flush, and a throw from either surfaces as an IOException |
| QueueRecordWriter.QueueWriter.Write | serializer-base64/src/main/java/com/vlkan/hrrs/serializer/base64/QueueBase64HttpRequestRecordWriter.java:86-118 | the line is appended to the queue when it has room and dropped silently when full; a framing failure reaches the caller unwrapped and queues nothing |
| QueueRecordWriter.QueueWriter.IsReady | serializer-base64/src/main/java/com/vlkan/hrrs/serializer/base64/QueueBase64HttpRequestRecordWriter.java:149-152 | ready exactly when the queue is empty |
| QueueRecordWriter.QueueWriter.Close | serializer-base64/src/main/java/com/vlkan/hrrs/serializer/base64/QueueBase64HttpRequestRecordWriter.java:154-160 | sets `stop` and puts the stop signal behind the queued lines when there is room |
| QueueRecordWriter.CloseAndDrain | serializer-base64/src/main/java/com/vlkan/hrrs/serializer/base64/QueueBase64HttpRequestRecordWriter.java:154-160 | closing, then letting the worker run, writes every queued line to the target in order and leaves the queue empty and the worker stopped |
| Api.ResponseInfo.constructor | api/src/main/java/com/vlkan/hrrs/api/ResponseInfo.java:9-16 | a null response gives status 200 and time 200; otherwise the response's status and time 0 |
| Api.ResponseInfo.GetStatusCode | api/src/main/java/com/vlkan/hrrs/api/ResponseInfo.java:18-20 | returns the stored status code |
| Api.ResponseInfo.SetStatusCode | api/src/main/java/com/vlkan/hrrs/api/ResponseInfo.java:22-24 | sets the status code and leaves the time |
| Api.ResponseInfo.SetResponseTime | api/src/main/java/com/vlkan/hrrs/api/ResponseInfo.java:26-28 | sets the time and leaves the status code |
| Api.ResponseInfo.GetResponseTime | api/src/main/java/com/vlkan/hrrs/api/ResponseInfo.java:38-40 | returns the stored response time |
| Api.ResponseInfo.ToString | api/src/main/java/com/vlkan/hrrs/api/ResponseInfo.java:30-36 | both fields can be read back from the text |
| Api.ResponseInfoTextParses | api/src/main/java/com/vlkan/hrrs/api/ResponseInfo.java:31-35 | the `ResponseInfo{statusCode=…, time=… ms}` text determines the status code and the time |
| HrrsServletFilter.RequestUri | servlet-filter/src/main/java/com/vlkan/hrrs/servlet/HrrsFilter.java:149-154 | the request URI alone when the query is blank; otherwise the URI, `?`, and the query text, with `null` printed for a missing query |
| HrrsServletFilter.GroupName | servlet-filter/src/main/java/com/vlkan/hrrs/servlet/HrrsFilter.java:223-229 | a group name contains no slash and is never longer than the URI text |
| HrrsServletFilter.StripQueryCut | servlet-filter/src/main/java/com/vlkan/hrrs/servlet/HrrsFilter.java:226 | removing the query drops everything from the first `?` on, when no line terminator follows it |
| HrrsServletFilter.GroupNameIgnoresQuery | servlet-filter/src/main/java/com/vlkan/hrrs/servlet/HrrsFilter.java:223-229 | a request gets the same group name with or without its query string |
| HrrsServletFilter.GroupNameOfPath | servlet-filter/src/main/java/com/vlkan/hrrs/servlet/HrrsFilter.java:227-228 | the group of `/path` is `path` with each slash read as a dot, character by character |
| HrrsServletFilter.GroupNameOfQueriedPath | servlet-filter/src/main/java/com/vlkan/hrrs/servlet/HrrsFilter.java:224-228 | the group of `/path?query` is the path with slashes read as dots |
| HrrsServletFilter.GroupNameExample | servlet-filter/src/main/java/com/vlkan/hrrs/servlet/HrrsFilter.java:215-229 | `/hello/group-5?id=42` is grouped as `hello.group-5` |
| HrrsServletFilter.PayloadFromStream | servlet-filter/src/main/java/com/vlkan/hrrs/servlet/HrrsFilter.java:185-196 | the payload keeps the recorded bytes; its missing count is the tee count minus the recorded length, wrapping in `int` |
| HrrsServletFilter.HeaderPairs | servlet-filter/src/main/java/com/vlkan/hrrs/servlet/HrrsFilter.java:156-173 | one header per enumerated name |
| HrrsServletFilter.HeaderPairsInOrder | servlet-filter/src/main/java/com/vlkan/hrrs/servlet/HrrsFilter.java:159-171 | the i-th header is the i-th enumerated name with `getHeader` of it |
| HrrsServletFilter.CreateHeaders | servlet-filter/src/main/java/com/vlkan/hrrs/servlet/HrrsFilter.java:156-173 | the enumeration loop builds exactly those name/value pairs, in order |
| HrrsServletFilter.RecordGroupIgnoresQuery | servlet-filter/src/main/java/com/vlkan/hrrs/servlet/HrrsFilter.java:129-147 | a recorded request is grouped by its path alone, while its uri keeps the query |
| HrrsServletFilter.CreateRecord | servlet-filter/src/main/java/com/vlkan/hrrs/servlet/HrrsFilter.java:129-147 | the record of id, timestamp, group, uri, method, headers, payload and response; an unknown method name throws IllegalArgumentException |
| HrrsServletFilter.RunChain | servlet-filter/src/main/java/com/vlkan/hrrs/servlet/HrrsFilter.java:100-107 | the chain runs once, then the response carries `X-HRRS` with the status token and `X-HRRS-Queue` with the queue statistic, in that order |
| HrrsServletFilter.HrrsFilter.constructor | servlet-filter/src/main/java/com/vlkan/hrrs/servlet/HrrsFilter.java:53-64 | a new filter is disabled and has no servlet context |
| HrrsServletFilter.HrrsFilter.IsEnabled | servlet-filter/src/main/java/com/vlkan/hrrs/servlet/HrrsFilter.java:120-122 | reports the enabled flag |
| HrrsServletFilter.HrrsFilter.SetEnabled | servlet-filter/src/main/java/com/vlkan/hrrs/servlet/HrrsFilter.java:124-127 | sets the enabled flag and nothing else |
| HrrsServletFilter.HrrsFilter.DoFilter | servlet-filter/src/main/java/com/vlkan/hrrs/servlet/HrrsFilter.java:66-111 | a non-HTTP request throws ClassCastException and changes nothing; an unrecordable one only runs the chain, tagged `Not recordable`; a recordable one runs the chain on the tee wrapper, or on the request for a form, and is tagged and recorded |
| HrrsServletFilter.HrrsFilter.RecordRequest | servlet-filter/src/main/java/com/vlkan/hrrs/servlet/HrrsFilter.java:73-97 | the response is tagged `logged, PL` or `logged`; the record carries the chain's status and the wrapped clock difference; it is written once unless the hook drops it; an unknown method fails and writes nothing |
| HrrsServletFilter.HrrsFilter.Init | servlet-filter/src/main/java/com/vlkan/hrrs/servlet/HrrsFilter.java:254-262 | fails if a context is already set; otherwise adopts the context, then fails if the attribute is present, else maps the key to this filter |
| HrrsServletFilter.HrrsFilter.Destroy | servlet-filter/src/main/java/com/vlkan/hrrs/servlet/HrrsFilter.java:264-269 | throws NullPointerException without a context; otherwise removes the attribute and keeps the context |
| HrrsServletFilter.InitDestroyInit | servlet-filter/src/main/java/com/vlkan/hrrs/servlet/HrrsFilter.java:254-269 | init, destroy, init: the first two succeed and the second init fails with "servlet context is already initialized" although the attribute is gone |

## Left out

- Threads are not modelled: the worker thread, the `started` and `stopped` latches, `volatile`, `synchronized` and the interrupt paths. The worker loop is modelled as a sequence of steps run after the callers' writes.
- QueueRecordWriter.QueueWriter.Close: a blocking `put` on a full queue is modelled as the stop signal not being enqueued, which the method reports. The model does not wait for the worker to free a slot.
- `close` hangs forever on `stopped.await()` when the worker thread died of a target failure. The model only shows the dead worker (`running` false). It does not model the hang.
- `lastFlush` is set when the writer is built and never updated. The model keeps it that way, so once 10 s have passed every line is flushed.
- QueueRecordWriter.WorkerState.Drain: the clock is read once, at a fixed `now`, for the whole drain. A clock that advances between lines is covered by `WorkerState.Step` alone.
- `System.currentTimeMillis`, `new Date()`, the id generator, `HrrsHelper.isBlank`, the form helper and the tee stream are inputs (`Environment`), not code. So are the overridable `isRequestRecordable` and `filterRecord` hooks, `HttpRequestMethod.valueOf`'s set of names, and the queue statistic.
- The overridable `getMaxRecordablePayloadByteCount()` hook is fixed at its default, `DEFAULT_MAX_RECORDABLE_PAYLOAD_BYTE_COUNT`. A subclass that overrides it is not modelled.
- The response is always an `HttpServletResponse` in the model. The ClassCastException that `doFilter` throws for another kind of response is not modelled.
- An IOException from `getInputStream()` while wrapping the request is not modelled. The tee stream is an input that always opens.
- A `FilterConfig` whose `getServletContext()` returns null is not modelled: `Init` always receives a context. In the code the NullPointerException comes from `getAttribute`, and the context field is left null.
- The writer constructors' `checkNotNull` on the target and the encoder is not modelled: Dafny references in the model are never null.
- RecordLine.LineRoundTrip: the round trip stops at the formatted date text. Parsing the date back into a `Date` is part of the record reader, which is not part of this model.
- The writer target's `write` and `flush` throw according to the lines the target already holds. A target whose failures depend on anything else, such as time or the line's text, is not modelled.
- The `SimpleDateFormat` pattern `yyyyMMdd-HHmmss.SSSZ` is not modelled. The writers take the date formatter as a function.
- The tee stream's cap is not modelled beyond recording which cap the chain's wrapper was given.
- The Guava base64 encoder is replaced by a standard-alphabet, padded, unwrapped encoder (section 4 of RFC 4648).
- The filter chain never throws in the model. An exception from the servlet would propagate unchanged and record nothing.
- `getWriter()` is modelled as a sink that keeps every record, and its `write` never throws.
- The filter's `flush()` and the writers' `getTarget()` are not modelled. Neither is logging. The record reader is modelled only as the parsing functions the round-trip lemmas use.
- The `PL` and empty status tokens are modelled, but they cannot be reached: the recordable path implies `enabled`.
- `HttpServletResponse`, `FilterChain`, `ServletContext` and the writer target are minimal stand-ins that keep what the filter and writers do to them.
- The request body and form parsing (`HrrsUrlEncodedFormHelper`, `HrrsHttpServletRequestWrapper`, `TeeServletInputStream`) are not part of this model. The form payload and the tee stream's result are inputs.
