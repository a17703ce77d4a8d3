/**
  How the runtime's tracer shapes one finished span into a log record:
  the root/event/parent ids taken from the event chain, the error attached to
  an LLM function result, and the tag map of the record's context.
  Time stamps, host data, payload serialisation and the submission of the
  record are not part of this model.
 */
module LogSchema {
  import opened Wrappers
  import opened Strings

  /** One entry of the span stack that led to the logged call. */
  datatype SpanCtx = SpanCtx(spanId: string, name: string)

  /** The outcome of an LLM request. */
  datatype LLMResponse =
    | Success(content: string)
    | LLMFailure(message: string)
    | UserFailure(message: string)
    | InternalFailure(message: string)

  /** A function result: the LLM response and, when parsing was attempted,
      either the parsed value or the parse error's text. */
  datatype ParseOutcome = Parsed(value: string) | ParseError(message: string)
  datatype FunctionResult = FunctionResult(llmResponse: LLMResponse, parsed: Option<ParseOutcome>)

  /** What a span finished with: an error raised by the call, a plain
      (optional) value, or an LLM function result (a test response logs its
      function result). */
  datatype Finished =
    | CallError(message: string)
    | PlainValue(value: Option<string>)
    | LLMResult(result: FunctionResult)

  datatype EventType = FuncCode | FuncLlm

  datatype ApiError = ApiError(code: int, message: string)

  /** The fields of a log record this model covers. */
  datatype LogRecord = LogRecord(
    eventType: EventType,
    rootEventId: string,
    eventId: string,
    parentEventId: Option<string>,
    error: Option<ApiError>,
    context: LogContext)

  /** A tag value: a string, or another value with its JSON text when
      serialisation succeeds. */
  datatype TagValue = StringTag(s: string) | OtherTag(json: Option<string>)

  datatype LogContext = LogContext(tags: map<string, string>, eventChain: seq<string>)

  /** The code every error record carries. */
  const ErrorCode := 2

  const RuntimeTagKey := "baml.runtime"

  /** The error a function result reports, if any. */
  function ErrorFromResult(fr: FunctionResult): (r: Option<ApiError>)
    ensures r.Some? ==> r.value.code == ErrorCode
    ensures r.None? <==>
      (fr.parsed.Some? && fr.parsed.value.Parsed?) || (fr.parsed.None? && fr.llmResponse.Success?)
    ensures fr.parsed.Some? && fr.parsed.value.ParseError? ==> r == Some(ApiError(ErrorCode, fr.parsed.value.message))
    ensures fr.parsed.None? && !fr.llmResponse.Success? ==> r == Some(ApiError(ErrorCode, fr.llmResponse.message))
  {
    match fr.parsed
    case Some(Parsed(_)) => None
    case Some(ParseError(e)) => Some(ApiError(ErrorCode, e))
    case None =>
      match fr.llmResponse
      case Success(_) => None
      case LLMFailure(m) => Some(ApiError(ErrorCode, m))
      case UserFailure(m) => Some(ApiError(ErrorCode, m))
      case InternalFailure(m) => Some(ApiError(ErrorCode, m))
  }

  /** A parse outcome decides the error whatever the LLM response was. */
  lemma ParseOutcomeOverridesResponse(fr: FunctionResult, other: LLMResponse)
    requires fr.parsed.Some?
    ensures ErrorFromResult(fr) == ErrorFromResult(fr.(llmResponse := other))
  {
  }

  /** The tag map of a record's context: each input tag, rendered as text,
      and the runtime's version under `baml.runtime`, which wins over an input
      tag of the same name. */
  function ContextTags(tags: map<string, TagValue>, version: string): (r: map<string, string>)
    ensures r.Keys == tags.Keys + {RuntimeTagKey}
    ensures r[RuntimeTagKey] == version
    ensures forall k :: k in tags && k != RuntimeTagKey ==> r[k] == RenderTag(tags[k])
  {
    (map k | k in tags :: RenderTag(tags[k]))[RuntimeTagKey := version]
  }

  /** An input tag named `baml.runtime` never reaches the record: the
      runtime's version replaces it. */
  lemma ContextTagsIgnoreRuntimeInput(tags: map<string, TagValue>, v: TagValue, version: string)
    ensures ContextTags(tags[RuntimeTagKey := v], version) == ContextTags(tags, version)
    ensures ContextTags(tags - {RuntimeTagKey}, version) == ContextTags(tags, version)
  {
  }

  /** Adding an input tag under any other name changes that key only. */
  lemma ContextTagsInsert(tags: map<string, TagValue>, k: string, v: TagValue, version: string)
    requires k != RuntimeTagKey
    ensures ContextTags(tags[k := v], version) == ContextTags(tags, version)[k := RenderTag(v)]
  {
  }

  /** A string tag as is; any other value as JSON, or `<unknown>`. */
  function RenderTag(v: TagValue): string
  {
    match v
    case StringTag(s) => s
    case OtherTag(Some(json)) => json
    case OtherTag(None) => "<unknown>"
  }

  function ChainNames(chain: seq<SpanCtx>): seq<string>
  {
    seq(|chain|, i requires 0 <= i < |chain| => chain[i].name)
  }

  /** Id of the element before the last, when the chain has one. */
  function SecondToLastId(chain: seq<SpanCtx>): Option<string>
  {
    if |chain| >= 2 then Some(chain[|chain| - 2].spanId) else None
  }

  /** The record of a finished span. The chain always holds at least the
      span itself. */
  function ToLogRecord(f: Finished, chain: seq<SpanCtx>, tags: map<string, TagValue>, version: string): (r: LogRecord)
    requires |chain| > 0
    ensures r.rootEventId == chain[0].spanId
    ensures r.eventId == chain[|chain| - 1].spanId
    ensures r.parentEventId.Some? <==> !f.CallError? && |chain| >= 2
    ensures r.parentEventId.Some? ==> r.parentEventId.value == chain[|chain| - 2].spanId
    ensures r.eventType == FuncLlm <==> f.LLMResult?
    ensures r.error.None? <==> (f.PlainValue? || (f.LLMResult? && ErrorFromResult(f.result).None?))
    ensures r.error.Some? ==> r.error.value.code == ErrorCode
    ensures f.CallError? ==> r.error == Some(ApiError(ErrorCode, f.message))
    ensures f.LLMResult? ==> r.error == ErrorFromResult(f.result)
    ensures r.context.eventChain == ChainNames(chain)
    ensures |r.context.eventChain| == |chain|
    ensures forall i :: 0 <= i < |chain| ==> r.context.eventChain[i] == chain[i].name
    ensures r.context.tags == ContextTags(tags, version)
    ensures RuntimeTagKey in r.context.tags && tags.Keys <= r.context.tags.Keys
  {
    var context := LogContext(ContextTags(tags, version), ChainNames(chain));
    var root := chain[0].spanId;
    var event := chain[|chain| - 1].spanId;
    match f
    case CallError(e) =>
      LogRecord(FuncCode, root, event, None, Some(ApiError(ErrorCode, e)), context)
    case PlainValue(_) =>
      LogRecord(FuncCode, root, event, SecondToLastId(chain), None, context)
    case LLMResult(fr) =>
      LogRecord(FuncLlm, root, event, SecondToLastId(chain), ErrorFromResult(fr), context)
  }

  /** Entering one more span keeps the root, makes the new span the event and,
      outside the error path, makes the previous event its parent. */
  lemma NestedSpanLinksToPrevious(f: Finished, chain: seq<SpanCtx>, next: SpanCtx,
                                 tags: map<string, TagValue>, version: string)
    requires |chain| > 0
    ensures var outer := ToLogRecord(f, chain, tags, version);
      var inner := ToLogRecord(f, chain + [next], tags, version);
      && inner.rootEventId == outer.rootEventId
      && inner.eventId == next.spanId
      && (f.CallError? ==> inner.parentEventId == None)
      && (!f.CallError? ==> inner.parentEventId == Some(outer.eventId))
  {
    assert (chain + [next])[0] == chain[0];
    assert (chain + [next])[|chain + [next]| - 2] == chain[|chain| - 1];
  }

  /** A span with no enclosing span is its own root and has no parent. */
  lemma TopLevelSpanIsRoot(f: Finished, s: SpanCtx, tags: map<string, TagValue>, version: string)
    ensures var r := ToLogRecord(f, [s], tags, version);
      r.rootEventId == r.eventId == s.spanId && r.parentEventId == None
  {
  }
}
