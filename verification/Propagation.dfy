/**
  One hop of a distributed trace and chains of hops: the sampler (internal/sampler/sampler.go), the
  injection of the decision into the outgoing headers (internal/propagator/propagator.go) and its
  extraction at the next service (internal/w3cfmt/w3cfmt.go).
 */
module Propagation {
  import opened Wrappers
  import opened W3cFormat
  import opened TraceStates
  import opened XTrace
  import opened UrlFilters
  import opened SamplingSettings
  import opened TokenBuckets
  import opened Metrics
  import opened Oboe
  import opened Runs

  // ---------- span contexts ----------

  datatype SpanContext = SpanContext(traceId: seq<Byte>, spanId: SpanId, traceFlags: Byte, traceState: TraceState, remote: bool) {
    predicate IsValid() {
      (exists i :: 0 <= i < |traceId| && traceId[i] != 0) && exists i :: 0 <= i < 8 && spanId[i] != 0
    }
  }

  const NO_SPAN: SpanContext := SpanContext([], [0, 0, 0, 0, 0, 0, 0, 0], 0, [], false)

  /** The sw entry of a parent; an invalid parent has none. */
  function GetSwTraceState(sc: SpanContext): SwTraceState {
    if sc.IsValid() then ParseSwTraceState(GetSw(sc.traceState)) else W3cFormat.INVALID
  }

  // ---------- the sampler ----------

  datatype Decision = Drop | RecordOnly | RecordAndSample

  datatype AttributeValue = StringValue(text: string) | IntValue(number: int) | RealValue(decimal: real) | StateValue(entries: TraceState)

  datatype SamplingResult = SamplingResult(decision: Decision, traceState: TraceState, attributes: AttributeMap)

  /** What the signature check of a request sees besides the settings: two clock readings and the hash. */
  datatype Check = Check(now1: int, now2: int, hmac: (string, string) -> string)

  /** The X-Trace-Options of a request, checked with the key of the current settings. */
  function HeaderFor(w: World, check: Check, opts: string, sig: string): Header {
    ParseHeader(Verifier(check.now1, check.now2, TriggerTraceToken(w), check.hmac), opts, sig)
  }

  function GetTtMode(h: Header): TriggerTraceMode {
    if !h.options.triggerTrace then NotPresent
    else match h.sigState
      case ValidSignature => Relaxed
      case InvalidSignature => TriggerTraceMode.Invalid
      case NoSignature => Strict
  }

  /** The text that answers the X-Trace-Options of a request. */
  function OptionsResponse(h: Header, ttResp: string): string {
    match h.sigState
    case NoSignature => "trigger-trace=" + ttResp
    case ValidSignature => "auth=" + h.authStatus.Msg() + ";" + "trigger-trace=" + ttResp
    case InvalidSignature => "auth=" + h.authStatus.Msg()
  }

  function HydrateTraceState(parent: SpanContext, h: Header, ttResp: string): TraceState {
    var ts := if parent.IsValid() then parent.traceState else [];
    if h.opts != "" then SetInternalState(ts, XTRACE_OPT_RESP, OptionsResponse(h, ttResp)).0 else ts
  }

  /** The request that the sampler puts to the engine; it always passes the empty URL. */
  function RequestOf(parent: SpanContext, h: Header, dice: int, now: int): Request {
    var sw := GetSwTraceState(parent);
    Request(sw.isValid, "", GetTtMode(h), sw, dice, now)
  }

  function DecisionOf(d: SampleDecision): Decision {
    if !d.enabled then Drop else if d.trace then RecordAndSample else RecordOnly
  }

  predicate IsLocal(parent: SpanContext) {
    parent.IsValid() && !parent.remote
  }

  datatype AttributeKey =
    | SwKeysKey | TriggeredTraceKey | TraceStateKey | BucketCapacityKey | BucketRateKey | SampleRateKey | SampleSourceKey
  {
    function Name(): string {
      match this
      case SwKeysKey => "SWKeys"
      case TriggeredTraceKey => "TriggeredTrace"
      case TraceStateKey => "sw.w3c.tracestate"
      case BucketCapacityKey => "BucketCapacity"
      case BucketRateKey => "BucketRate"
      case SampleRateKey => "SampleRate"
      case SampleSourceKey => "SampleSource"
    }
  }

  /** The numbers that stand for the sources. */
  function SourceCode(source: SampleSource): int {
    match source
    case SourceUnset => -1
    case SourceNone => 0
    case SourceFile => 1
    case SourceDefault => 2
  }

  function Texts(kvs: map<string, string>): AttributeMap {
    map k | k in kvs :: StringValue(kvs[k])
  }

  type AttributeMap = map<string, AttributeValue>

  function PutIf(attrs: AttributeMap, present: bool, key: string, value: AttributeValue): AttributeMap {
    if present then attrs[key := value] else attrs
  }

  /** The attributes of a span that is recorded and sampled. */
  function AttributesOf(h: Header, ts: TraceState, d: SampleDecision): AttributeMap {
    var keys := PutIf(map[], h.options.swKeys != "", SwKeysKey.Name(), StringValue(h.options.swKeys)) + Texts(h.options.customKVs);
    var triggered := PutIf(keys, h.options.triggerTrace, TriggeredTraceKey.Name(), StringValue("true"));
    var captured := PutIf(triggered, Capture(ts) != [], TraceStateKey.Name(), StateValue(Capture(ts)));
    captured[BucketCapacityKey.Name() := RealValue(d.bucketCap)][BucketRateKey.Name() := RealValue(d.bucketRate)]
      [SampleRateKey.Name() := IntValue(d.rate)][SampleSourceKey.Name() := IntValue(SourceCode(d.source))]
  }

  function ShouldSampleSpec(w: World, filters: seq<UrlFilter>, parent: SpanContext, h: Header, dice: int, now: int): (World, SamplingResult) {
    if IsLocal(parent) then
      (w, SamplingResult(if IsSampled(parent.traceFlags) then RecordAndSample else Drop, parent.traceState, map[]))
    else
      var (v, d) := Sample(w, filters, RequestOf(parent, h, dice, now));
      var ts := HydrateTraceState(parent, h, d.xTraceOptsRsp);
      (v, SamplingResult(DecisionOf(d), ts, if DecisionOf(d) == RecordAndSample then AttributesOf(h, ts, d) else map[]))
  }

  class Sampler {
    const oboe: Engine

    constructor (oboe: Engine)
      ensures this.oboe == oboe
    {
      this.oboe := oboe;
    }

    method ShouldSample(parent: SpanContext, opts: string, sig: string, check: Check, dice: int, now: int)
      returns (result: SamplingResult)
      requires oboe.Valid()
      modifies oboe.counts, oboe.urls, oboe.Buckets()
      ensures oboe.Valid()
      ensures (oboe.View(), result)
           == ShouldSampleSpec(old(oboe.View()), oboe.urls.filters, parent, HeaderFor(old(oboe.View()), check, opts, sig), dice, now)
    {
      hide Sample;
      hide ParseHeader;
      hide GetSwTraceState;
      hide HydrateTraceState;
      if parent.IsValid() && !parent.remote {
        if IsSampled(parent.traceFlags) {
          return SamplingResult(RecordAndSample, parent.traceState, map[]);
        } else {
          return SamplingResult(Drop, parent.traceState, map[]);
        }
      }
      var token := oboe.GetTriggerTraceToken();
      var xto := ParseHeader(Verifier(check.now1, check.now2, token, check.hmac), opts, sig);
      var ttMode := GetTtMode(xto);
      var swState := GetSwTraceState(parent);
      var traceDecision := oboe.SampleRequest(Request(swState.isValid, "", ttMode, swState, dice, now), false);
      var decision := RecordOnly;
      if !traceDecision.enabled {
        decision := Drop;
      } else if traceDecision.trace {
        decision := RecordAndSample;
      }
      var ts := HydrateTraceState(parent, xto, traceDecision.xTraceOptsRsp);
      var attrs: AttributeMap := map[];
      if decision == RecordAndSample {
        attrs := Attributes(xto, ts, traceDecision);
      }
      return SamplingResult(decision, ts, attrs);
    }

    /** The attributes that ShouldSample appends one by one. */
    method Attributes(xto: Header, ts: TraceState, d: SampleDecision) returns (attrs: AttributeMap)
      ensures attrs == AttributesOf(xto, ts, d)
    {
      hide Capture;
      hide Texts;
      hide AttributeKey.Name;
      attrs := map[];
      if xto.options.swKeys != "" {
        attrs := attrs[SwKeysKey.Name() := StringValue(xto.options.swKeys)];
      }
      attrs := attrs + Texts(xto.options.customKVs);
      if xto.options.triggerTrace {
        attrs := attrs[TriggeredTraceKey.Name() := StringValue("true")];
      }
      if Capture(ts) != [] {
        attrs := attrs[TraceStateKey.Name() := StateValue(Capture(ts))];
      }
      attrs := attrs[BucketCapacityKey.Name() := RealValue(d.bucketCap)];
      attrs := attrs[BucketRateKey.Name() := RealValue(d.bucketRate)];
      attrs := attrs[SampleRateKey.Name() := IntValue(d.rate)];
      attrs := attrs[SampleSourceKey.Name() := IntValue(SourceCode(d.source))];
    }
  }

  // ---------- what the sampler does ----------

  /**
    A child of a local span is sampled exactly when its parent is, and dropped otherwise; it keeps the trace
    state of the parent, gets no attributes, and the engine is not asked.
   */
  lemma LocalChildFollowsParent(w: World, filters: seq<UrlFilter>, parent: SpanContext, h: Header, dice: int, now: int)
    requires parent.IsValid() && !parent.remote
    ensures ShouldSampleSpec(w, filters, parent, h, dice, now)
         == (w, SamplingResult(if parent.traceFlags % 2 == 1 then RecordAndSample else Drop, parent.traceState, map[]))
  {
    hide Sample;
  }

  /**
    Every other span is dropped without settings or when the flags have neither SAMPLE_START (0x4) nor
    SAMPLE_THROUGH_ALWAYS (0x10), sampled when the engine traces it, and only recorded when it does not.
   */
  lemma OtherSpansFollowEngine(w: World, filters: seq<UrlFilter>, parent: SpanContext, h: Header, dice: int, now: int)
    requires !parent.IsValid() || parent.remote
    ensures var (v, d) := Sample(w, filters, RequestOf(parent, h, dice, now));
            var (u, r) := ShouldSampleSpec(w, filters, parent, h, dice, now);
            && u == v
            && r.decision == (if w.settings.None? || w.settings.value.flags & 0x14 == 0 then Drop
                              else if d.trace then RecordAndSample else RecordOnly)
            && r.traceState == HydrateTraceState(parent, h, d.xTraceOptsRsp)
            && r.attributes == (if r.decision == RecordAndSample then AttributesOf(h, r.traceState, d) else map[])
  {
    if w.settings.Some? {
      DecisionsTell(w.settings.value, w.counts, TraceUnknown, RequestOf(parent, h, dice, now));
      UrlModeTells(w.settings.value, TraceUnknown);
    }
    hide SampleWith;
    hide MergeUrl;
    hide HydrateTraceState;
    hide AttributesOf;
    hide FirstMatch;
    hide GetSwTraceState;
    hide GetTtMode;
  }

  /**
    A request continues a trace exactly when its parent is valid and the parent's sw entry has the printed
    form, whoever wrote it; then the decision is the one printed.
   */
  lemma ContinuedIff(parent: SpanContext, h: Header, dice: int, now: int)
    ensures var req := RequestOf(parent, h, dice, now);
            && (req.continued <==> parent.IsValid() && exists id: SpanId, flags: Byte :: Get(parent.traceState, "sw") == SwFromCtx(id, flags))
            && req.swState.isValid == req.continued && req.dice == dice && req.now == now && req.url == ""
    ensures forall id: SpanId, flags: Byte :: parent.IsValid() && Get(parent.traceState, "sw") == SwFromCtx(id, flags) ==>
              RequestOf(parent, h, dice, now).swState.flags == flags
  {
    AcceptsExactlyPrinted(Get(parent.traceState, "sw"));
    forall id: SpanId, flags: Byte | parent.IsValid() && Get(parent.traceState, "sw") == SwFromCtx(id, flags)
      ensures RequestOf(parent, h, dice, now).swState.flags == flags
    {
      PrintThenParse(id, flags);
    }
    hide SwFromCtx;
    hide ParseSwTraceState;
  }

  /** A span context is valid when its trace id and its span id both have a byte that is not zero. */
  lemma ValidContexts(sc: SpanContext)
    ensures !sc.IsValid() <==> (forall i :: 0 <= i < |sc.traceId| ==> sc.traceId[i] == 0) || sc.spanId == [0, 0, 0, 0, 0, 0, 0, 0]
  {
    if forall i :: 0 <= i < 8 ==> sc.spanId[i] == 0 {
      assert sc.spanId == [0, 0, 0, 0, 0, 0, 0, 0];
    }
  }

  /** Which trigger-trace mode a header asks for: relaxed with an accepted signature, strict without one. */
  lemma HeaderModeTells(w: World, check: Check, opts: string, sig: string)
    ensures var h := HeaderFor(w, check, opts, sig);
            GetTtMode(h) ==
              if !Parse(opts).triggerTrace then NotPresent
              else if sig == "" then Strict
              else if h.sigState == ValidSignature then Relaxed
              else TriggerTraceMode.Invalid
  {
    hide Parse;
    hide ValidateSignature;
  }

  /** The text that answers a header, told from its signature and the answer of the engine. */
  lemma ResponseTells(w: World, check: Check, opts: string, sig: string, rsp: string)
    ensures var stamp := Parse(opts).timestamp * 1000000000;
            OptionsResponse(HeaderFor(w, check, opts, sig), rsp) ==
              if sig == "" then "trigger-trace=" + rsp
              else if stamp < check.now1 - 300000000000 || check.now2 + 300000000000 < stamp then "auth=" + "bad-timestamp"
              else if w.settings.None? || w.settings.value.triggerToken == "" then "auth=" + "no-signature-key"
              else if check.hmac(w.settings.value.triggerToken, opts) != sig then "auth=" + "bad-signature"
              else "auth=" + "ok" + ";" + "trigger-trace=" + rsp
  {
    StatusTells(Verifier(check.now1, check.now2, TriggerTraceToken(w), check.hmac), opts, sig);
    hide Parse;
    hide ParseHeader;
    hide AuthStatus.Msg;
  }

  /** The trace state of the new span is the parent's, or empty without a valid parent, but for the answer to a header. */
  lemma TraceStateKept(parent: SpanContext, h: Header, rsp: string)
    ensures var ts := HydrateTraceState(parent, h, rsp);
            var was := if parent.IsValid() then parent.traceState else [];
            && (h.opts == "" ==> ts == was)
            && Capture(ts) == Capture(was) && Get(ts, "sw") == Get(was, "sw")
  {
    var was := if parent.IsValid() then parent.traceState else [];
    assert "sw"[0] == 's' && XTRACE_OPT_RESP_KEY[0] == 'x';
    InsertLaws(was, XTRACE_OPT_RESP_KEY, Encode(OptionsResponse(h, rsp)), "sw");
    var ts := HydrateTraceState(parent, h, rsp);
    DeleteLaws(ts, SW, XTRACE_OPT_RESP_KEY);
    DeleteLaws(was, SW, XTRACE_OPT_RESP_KEY);
    hide Encode;
    hide OptionsResponse;
    hide Delete;
  }

  // ---------- spans below the first one of a service ----------

  predicate HasSpanId(h: Hop) {
    exists i :: 0 <= i < 8 && h.spanId[i] != 0
  }

  /** The context of a span that the sampler has decided on. */
  function SpanOf(parent: SpanContext, spanId: SpanId, r: SamplingResult): SpanContext {
    SpanContext(parent.traceId, spanId, if r.decision == RecordAndSample then 1 else 0, r.traceState, false)
  }

  /** A chain of spans inside one service, each the child of the one before, with what the sampler returns for each. */
  function Nest(parent: SpanContext, spans: seq<Hop>): seq<SamplingResult>
    decreases spans
  {
    if spans == [] then []
    else
      var r := Handle(spans[0], parent);
      [r] + Nest(SpanOf(parent, spans[0].spanId, r), spans[1..])
  }

  /** The context of the innermost span. */
  function Innermost(parent: SpanContext, spans: seq<Hop>): SpanContext
    decreases spans
  {
    if spans == [] then parent
    else Innermost(SpanOf(parent, spans[0].spanId, Handle(spans[0], parent)), spans[1..])
  }

  /**
    Every span below a local span, at any depth and in whatever state the engine is, has its decision and its
    trace state, and an injection from the innermost one sends the same decision on.
   */
  lemma {:induction false} SpansBelowFollow(parent: SpanContext, spans: seq<Hop>)
    requires parent.IsValid() && !parent.remote
    requires forall k :: 0 <= k < |spans| ==> HasSpanId(spans[k])
    ensures var rs := Nest(parent, spans);
            |rs| == |spans| && forall k :: 0 <= k < |rs| ==>
              rs[k] == SamplingResult(if parent.traceFlags % 2 == 1 then RecordAndSample else Drop, parent.traceState, map[])
    ensures var sc := Innermost(parent, spans);
            && sc.traceId == parent.traceId && sc.IsValid() && !sc.remote && sc.traceState == parent.traceState
            && (sc.traceFlags % 2 == 1 <==> parent.traceFlags % 2 == 1)
    decreases spans
  {
    hide Handle;
    hide HasSpanId;
    hide SpanContext.IsValid;
    if spans != [] {
      ChildFollows(parent, spans[0]);
      SpansBelowFollow(SpanOf(parent, spans[0].spanId, Handle(spans[0], parent)), spans[1..]);
    }
  }

  lemma ChildFollows(parent: SpanContext, h: Hop)
    requires parent.IsValid() && !parent.remote && HasSpanId(h)
    ensures Handle(h, parent) == SamplingResult(if parent.traceFlags % 2 == 1 then RecordAndSample else Drop, parent.traceState, map[])
    ensures SpanOf(parent, h.spanId, Handle(h, parent)).IsValid()
  {
    LocalChildFollowsParent(h.world, h.filters, parent, HeaderFor(h.world, h.check, h.opts, h.sig), h.dice, h.now);
    hide ShouldSampleSpec;
    hide HeaderFor;
    var i :| 0 <= i < 8 && h.spanId[i] != 0;
    assert SpanOf(parent, h.spanId, Handle(h, parent)).spanId[i] != 0;
  }

  /** What the next service reads from the headers of a span. */
  lemma ReadsDecision(sc: SpanContext, header: TraceState)
    requires sc.IsValid()
    ensures var sw := GetSwTraceState(Extract(Inject(sc, header)));
            sw.isValid && (IsSampled(sw.flags) <==> sc.traceFlags % 2 == 1)
  {
    InjectedHeader(sc, header);
    PrintThenParse(sc.spanId, sc.traceFlags);
    hide SwFromCtx;
    hide ParseSwTraceState;
  }

  /** So the next service reads the decision of the first span of this one, from whichever span below it the request is sent. */
  lemma SendFromBelow(first: SpanContext, spans: seq<Hop>, header: TraceState)
    requires first.IsValid() && !first.remote
    requires forall k :: 0 <= k < |spans| ==> HasSpanId(spans[k])
    ensures var sw := GetSwTraceState(Extract(Inject(Innermost(first, spans), header)));
            sw.isValid && (IsSampled(sw.flags) <==> first.traceFlags % 2 == 1)
  {
    hide HasSpanId;
    hide SpanContext.IsValid;
    hide GetSwTraceState;
    hide Inject;
    hide Nest;
    hide Innermost;
    SpansBelowFollow(first, spans);
    ReadsDecision(Innermost(first, spans), header);
  }

  // ---------- what is attached to a sampled span ----------

  /** The names under which the attributes go. */
  lemma AttributeNames()
    ensures SwKeysKey.Name() == "SWKeys" && TriggeredTraceKey.Name() == "TriggeredTrace" && TraceStateKey.Name() == "sw.w3c.tracestate"
    ensures BucketCapacityKey.Name() == "BucketCapacity" && BucketRateKey.Name() == "BucketRate"
    ensures SampleRateKey.Name() == "SampleRate" && SampleSourceKey.Name() == "SampleSource"
    ensures SourceCode(SourceUnset) == -1 && SourceCode(SourceNone) == 0 && SourceCode(SourceFile) == 1 && SourceCode(SourceDefault) == 2
  {
  }

  predicate IsCustomName(k: string) {
    "custom-" <= k
  }

  lemma NamesDiffer(k: AttributeKey, l: AttributeKey)
    ensures k.Name() == l.Name() ==> k == l
    ensures !IsCustomName(k.Name())
  {
    assert k.Name()[0] != 'c';
    if k != l {
      assert k.Name()[0] != l.Name()[0] || k.Name()[1] != l.Name()[1] || |k.Name()| != |l.Name()|;
    }
  }

  /** What a key of the map says, looked up by the option or decision it stands for. */
  predicate FixedTell(h: Header, ts: TraceState, d: SampleDecision, a: AttributeMap, k: AttributeKey) {
    var n := k.Name();
    match k
    case SwKeysKey => (n in a <==> h.options.swKeys != "") && (n in a ==> a[n] == StringValue(h.options.swKeys))
    case TriggeredTraceKey => (n in a <==> h.options.triggerTrace) && (n in a ==> a[n] == StringValue("true"))
    case TraceStateKey => (n in a <==> Capture(ts) != []) && (n in a ==> a[n] == StateValue(Capture(ts)))
    case BucketCapacityKey => n in a && a[n] == RealValue(d.bucketCap)
    case BucketRateKey => n in a && a[n] == RealValue(d.bucketRate)
    case SampleRateKey => n in a && a[n] == IntValue(d.rate)
    case SampleSourceKey => n in a && a[n] == IntValue(SourceCode(d.source))
  }

  lemma FixedAttributes(h: Header, ts: TraceState, d: SampleDecision, k: AttributeKey)
    requires forall c :: c in h.options.customKVs ==> IsCustomName(c)
    ensures FixedTell(h, ts, d, AttributesOf(h, ts, d), k)
  {
    NamesDiffer(k, SwKeysKey);
    NamesDiffer(k, TriggeredTraceKey);
    NamesDiffer(k, TraceStateKey);
    NamesDiffer(k, BucketCapacityKey);
    NamesDiffer(k, BucketRateKey);
    NamesDiffer(k, SampleRateKey);
    NamesDiffer(k, SampleSourceKey);
    hide IsCustomName;
    hide AttributeKey.Name;
    hide Capture;
  }

  lemma CustomAttributes(h: Header, ts: TraceState, d: SampleDecision, c: string)
    requires forall k: AttributeKey :: c != k.Name()
    ensures var (a, kvs) := (AttributesOf(h, ts, d), h.options.customKVs);
            (c in a <==> c in kvs) && (c in kvs ==> a[c] == StringValue(kvs[c]))
  {
    hide AttributeKey.Name;
    hide Capture;
  }

  /**
    No option of the header can hide an attribute of the decision or of another option: each fixed key
    says what it stands for, each other key is a custom key of the header with its value.
   */
  lemma AttributesTell(v: Verifier, opts: string, sig: string, ts: TraceState, d: SampleDecision)
    ensures var h := ParseHeader(v, opts, sig);
            var a := AttributesOf(h, ts, d);
            && (forall k: AttributeKey :: FixedTell(h, ts, d, a, k))
            && (forall c :: c in h.options.customKVs ==> c in a && a[c] == StringValue(h.options.customKVs[c]))
            && (forall c :: c in a ==> c in h.options.customKVs || exists k: AttributeKey :: c == k.Name())
  {
    var h := ParseHeader(v, opts, sig);
    CustomKeysAreCustom(NO_OPTIONS, SplitRuns(opts));
    assert forall c :: c in h.options.customKVs ==> IsCustomName(c);
    hide ParseHeader;
    hide AttributesOf;
    hide FixedTell;
    hide AttributeKey.Name;
    forall k: AttributeKey
      ensures FixedTell(h, ts, d, AttributesOf(h, ts, d), k) && !IsCustomName(k.Name())
    {
      FixedAttributes(h, ts, d, k);
      NamesDiffer(k, k);
    }
    hide IsCustomName;
    forall c: string | forall k: AttributeKey :: c != k.Name()
      ensures (c in AttributesOf(h, ts, d) <==> c in h.options.customKVs)
      ensures c in h.options.customKVs ==> AttributesOf(h, ts, d)[c] == StringValue(h.options.customKVs[c])
    {
      CustomAttributes(h, ts, d, c);
    }
  }

  // ---------- the answer to X-Trace-Options survives ----------

  predicate Unmarked(s: string) {
    '.' !in s && '#' !in s
  }

  lemma JoinUnmarked(s: string, t: string)
    requires Unmarked(s) && Unmarked(t)
    ensures Unmarked(s + t)
  {
  }

  lemma ShortAnswersUnmarked()
    ensures Unmarked(TT_OK) && Unmarked(TT_IGNORED) && Unmarked("")
    ensures Unmarked("trigger-") && Unmarked("tracing-") && Unmarked("settings-") && Unmarked("rate-") && Unmarked("not-")
  {
  }

  lemma AnswerWordsUnmarked()
    ensures Unmarked("disabled") && Unmarked("available") && Unmarked("exceeded") && Unmarked("requested")
  {
  }

  lemma RateAnswersUnmarked()
    ensures Unmarked(TT_RATE_EXCEEDED) && Unmarked(TT_NOT_REQUESTED)
  {
    ShortAnswersUnmarked();
    AnswerWordsUnmarked();
    hide Unmarked;
    JoinUnmarked("rate-", "exceeded");
    JoinUnmarked("not-", "requested");
    assert "rate-" + "exceeded" == TT_RATE_EXCEEDED && "not-" + "requested" == TT_NOT_REQUESTED;
  }

  lemma DisabledAnswersUnmarked()
    ensures Unmarked(TT_TRACING_DISABLED) && Unmarked(TT_TRIGGER_TRACING_DISABLED)
  {
    ShortAnswersUnmarked();
    AnswerWordsUnmarked();
    hide Unmarked;
    JoinUnmarked("tracing-", "disabled");
    JoinUnmarked("trigger-", "tracing-disabled");
    assert "tracing-" + "disabled" == TT_TRACING_DISABLED && "trigger-" + "tracing-disabled" == TT_TRIGGER_TRACING_DISABLED;
  }

  lemma SettingsAnswerUnmarked()
    ensures Unmarked(TT_SETTINGS_NOT_AVAILABLE)
  {
    ShortAnswersUnmarked();
    AnswerWordsUnmarked();
    hide Unmarked;
    JoinUnmarked("not-", "available");
    JoinUnmarked("settings-", "not-available");
    assert "not-" + "available" == "not-available" && "settings-" + "not-available" == TT_SETTINGS_NOT_AVAILABLE;
  }

  lemma TriggerTraceAnswersUnmarked()
    ensures Unmarked(TT_OK) && Unmarked(TT_RATE_EXCEEDED) && Unmarked(TT_NOT_REQUESTED) && Unmarked(TT_IGNORED) && Unmarked("")
    ensures Unmarked(TT_TRACING_DISABLED) && Unmarked(TT_TRIGGER_TRACING_DISABLED) && Unmarked(TT_SETTINGS_NOT_AVAILABLE)
  {
    hide Unmarked;
    ShortAnswersUnmarked();
    RateAnswersUnmarked();
    DisabledAnswersUnmarked();
    SettingsAnswerUnmarked();
  }

  lemma AuthAnswersUnmarked(a: AuthStatus)
    ensures Unmarked(a.Msg()) && Unmarked("auth=") && Unmarked("trigger-trace=") && Unmarked(";")
  {
  }

  lemma DecisionsAnswerUnmarked(w: World, filters: seq<UrlFilter>, req: Request)
    ensures Unmarked(Sample(w, filters, req).1.xTraceOptsRsp)
  {
    TriggerTraceAnswersUnmarked();
    hide Unmarked;
    hide CountRequest;
    hide MergeUrl;
    hide Answer;
    hide TriggerTraceEnabled;
    hide SamplingSettings.Enabled;
    hide Roll;
  }

  /** Whatever the request and the engine, the response stored in the trace state reads back unchanged. */
  lemma ResponseReadsBack(w: World, filters: seq<UrlFilter>, parent: SpanContext, v: Verifier, opts: string, sig: string, dice: int, now: int)
    requires opts != ""
    ensures var h := ParseHeader(v, opts, sig);
            var rsp := Sample(w, filters, RequestOf(parent, h, dice, now)).1.xTraceOptsRsp;
            GetInternalState(HydrateTraceState(parent, h, rsp), XTRACE_OPT_RESP) == Some(OptionsResponse(h, rsp))
  {
    hide Sample;
    hide Parse;
    hide ValidateSignature;
    hide Encode;
    hide Decode;
    var h := ParseHeader(v, opts, sig);
    var rsp := Sample(w, filters, RequestOf(parent, h, dice, now)).1.xTraceOptsRsp;
    DecisionsAnswerUnmarked(w, filters, RequestOf(parent, h, dice, now));
    AuthAnswersUnmarked(h.authStatus);
    JoinUnmarked("trigger-trace=", rsp);
    JoinUnmarked("auth=", h.authStatus.Msg());
    JoinUnmarked("auth=" + h.authStatus.Msg(), ";");
    JoinUnmarked("auth=" + h.authStatus.Msg() + ";", "trigger-trace=");
    JoinUnmarked("auth=" + h.authStatus.Msg() + ";" + "trigger-trace=", rsp);
    var full := OptionsResponse(h, rsp);
    WithoutMarksIsUnambiguous(full);
    InternalStateRoundTrip(if parent.IsValid() then parent.traceState else [], XTRACE_OPT_RESP, full);
  }

  /** Through the sampler a signature is checked with the key of the current settings, and refused without one. */
  lemma SignatureNeedsCurrentKey(w: World, check: Check, opts: string, sig: string)
    ensures HeaderFor(w, check, opts, sig).sigState == ValidSignature <==>
              && sig != ""
              && check.now1 - 300000000000 <= Parse(opts).timestamp * 1000000000 <= check.now2 + 300000000000
              && w.settings.Some? && w.settings.value.triggerToken != ""
              && check.hmac(w.settings.value.triggerToken, opts) == sig
  {
    SignatureValidIff(Verifier(check.now1, check.now2, TriggerTraceToken(w), check.hmac), opts, sig);
    hide ParseHeader;
    hide Parse;
  }

  // ---------- what is counted and what is sampled ----------

  /** The engine counts the request as traced although its flags enable neither start nor always-through. */
  predicate CountedRegardless(g: Generation, req: Request) {
    if IsTriggered(req) then
      req.triggerTrace != TriggerTraceMode.Invalid && TriggerTraceEnabled(g.flags)
      && BucketFor(g, req.triggerTrace).Consume(1.0, req.now).granted
    else
      req.continued && IsSampled(req.swState.flags) && Has(g.flags, FLAG_SAMPLE_THROUGH) && ShouldSample(g.value, req.dice)
  }

  /**
    A request of a remote or missing parent is counted as traced exactly when its span is sampled, with
    one family of exceptions: flags with neither SAMPLE_START nor SAMPLE_THROUGH_ALWAYS, and a request
    that is triggered, allowed and granted a token, or that continues a sampled trace which
    SAMPLE_THROUGH and the dice let through.
   */
  lemma CountedIsSampledIff(w: World, filters: seq<UrlFilter>, parent: SpanContext, h: Header, dice: int, now: int)
    requires !IsLocal(parent)
    ensures var (v, r) := ShouldSampleSpec(w, filters, parent, h, dice, now);
            ((v.counts.traced > w.counts.traced <==> r.decision == RecordAndSample) <==>
               || w.settings.None?
               || SamplingSettings.Enabled(w.settings.value.flags)
               || !CountedRegardless(w.settings.value, RequestOf(parent, h, dice, now)))
  {
    hide HydrateTraceState;
    hide AttributesOf;
    hide ParseSwTraceState;
    hide Has;
    hide TriggerTraceEnabled;
    hide ShouldSample;
    hide FirstMatch;
    hide Bucket.Consume;
    hide IsSampled;
    if w.settings.Some? {
      EnabledByThrough(w.settings.value.flags);
    }
    hide SamplingSettings.Enabled;
  }

  lemma EnabledByThrough(f: Flags)
    ensures SamplingSettings.Enabled(f) <==> Has(f, FLAG_SAMPLE_START) || Has(f, FLAG_SAMPLE_THROUGH_ALWAYS)
  {
    assert f & (FLAG_SAMPLE_START | FLAG_SAMPLE_THROUGH_ALWAYS) == (f & FLAG_SAMPLE_START) | (f & FLAG_SAMPLE_THROUGH_ALWAYS);
  }

  /**
    With TRIGGER_TRACE alone a triggered request takes a token, is counted as traced and as triggered and
    answered with ok, and yet its span is dropped.
   */
  lemma TriggerOnlyIsCountedButDropped(w: World, filters: seq<UrlFilter>, parent: SpanContext, h: Header, dice: int, now: int)
    requires !IsLocal(parent) && w.settings.Some?
    requires var req := RequestOf(parent, h, dice, now);
             IsTriggered(req) && req.triggerTrace.Enabled() && BucketFor(w.settings.value, req.triggerTrace).Consume(1.0, now).granted
    requires TriggerTraceEnabled(w.settings.value.flags) && !SamplingSettings.Enabled(w.settings.value.flags)
    ensures var req := RequestOf(parent, h, dice, now);
            var (v, r) := ShouldSampleSpec(w, filters, parent, h, dice, now);
            && r.decision == Drop
            && v.counts.traced == w.counts.traced + 1 && v.counts.ttraced == w.counts.ttraced + 1
            && Sample(w, filters, req).1.xTraceOptsRsp == TT_OK
            && v.settings.Some?
            && BucketFor(v.settings.value, req.triggerTrace) == BucketFor(w.settings.value, req.triggerTrace).Consume(1.0, now).bucket
  {
    hide HydrateTraceState;
    hide AttributesOf;
    hide GetSwTraceState;
    hide TriggerTraceEnabled;
    hide SamplingSettings.Enabled;
    hide FirstMatch;
    hide Bucket.Consume;
  }

  lemma BareFlagHeader(v: Verifier)
    ensures GetTtMode(ParseHeader(v, TRIGGER_TRACE_KEY, "")) == Strict
  {
    FlagOptionSetsFlag();
    hide Parse;
  }

  /** It happens with the remote flag string TRIGGER_TRACE, an unsigned header of the bare flag, and a bucket of one token. */
  lemma TriggerOnlyHappens(check: Check)
    ensures var args := UpdateArgs("TRIGGER_TRACE", 0, 0, "", 0.0, 0.0, 0.0, 0.0, 1.0, 1.0);
            var w := Install(World(None, NO_COUNTS), args, LocalConfig(false, 0, "", true), 0);
            var (v, r) := ShouldSampleSpec(w, [], NO_SPAN, HeaderFor(w, check, TRIGGER_TRACE_KEY, ""), 0, 1000000000);
            r.decision == Drop && v.counts.traced == 1 && v.counts.ttraced == 1
  {
    var args := UpdateArgs("TRIGGER_TRACE", 0, 0, "", 0.0, 0.0, 0.0, 0.0, 1.0, 1.0);
    var w := Install(World(None, NO_COUNTS), args, LocalConfig(false, 0, "", true), 0);
    SingleFlags();
    OneTokenIsGranted();
    hide ParseFlags;
    hide ParseHeader;
    hide Bucket.Consume;
    BareFlagHeader(Verifier(check.now1, check.now2, TriggerTraceToken(w), check.hmac));
    TriggerOnlyIsCountedButDropped(w, [], NO_SPAN, HeaderFor(w, check, TRIGGER_TRACE_KEY, ""), 0, 1000000000);
    hide ShouldSampleSpec;
  }

  // ---------- filters and the trigger-trace switch ----------

  /** The sampler puts no URL to the engine, so transaction filters never matter to it. */
  lemma FiltersDoNotMatter(
      w: World, filters: seq<UrlFilter>, others: seq<UrlFilter>, parent: SpanContext, h: Header, dice: int, now: int)
    ensures ShouldSampleSpec(w, filters, parent, h, dice, now) == ShouldSampleSpec(w, others, parent, h, dice, now)
  {
    hide FirstMatch;
    hide SampleWith;
    hide AttributesOf;
    hide HydrateTraceState;
  }

  predicate SwitchedOff(w: World) {
    w.settings.Some? ==> !TriggerTraceEnabled(w.settings.value.flags)
  }

  lemma StepStaysSwitchedOff(w: World, filters: seq<UrlFilter>, event: Event)
    requires SwitchedOff(w) && (event.Update? ==> !event.local.triggerTrace)
    ensures SwitchedOff(Apply(w, filters, event))
  {
    hide TriggerTraceEnabled;
    match event
    case Arrive(req) =>
      if w.settings.Some? {
        ChosenIsAttempt(w.settings.value, w.counts, filters, req);
        hide Chosen;
        hide IsAttempt;
        hide Sample;
      } else {
        WithoutSettings(w, filters, req);
      }
    case Update(args, local, now) => MergedSwitchedOff(Received(args, now), local);
    case _ =>
  }

  lemma MergedSwitchedOff(g: Generation, local: LocalConfig)
    requires !local.triggerTrace
    ensures !TriggerTraceEnabled(MergeLocal(g, local).flags)
  {
    hide ModeFlags;
    hide NewTracingMode;
    hide Meet;
    hide Has;
    forall f: Flags
      ensures !TriggerTraceEnabled(SamplingSettings.Clear(f, FLAG_TRIGGER_TRACE))
    {
      TriggerTraceLaws(f, TraceUnknown);
    }
    hide TriggerTraceEnabled;
    hide SamplingSettings.Clear;
  }

  /**
    With the local switch off in every update, no triggered request is ever traced through the sampler,
    whatever the filters, the remote settings and the course of events.
   */
  lemma {:induction false} SwitchedOffNeverTriggers(
      w: World, filters: seq<UrlFilter>, events: seq<Event>, parent: SpanContext, h: Header, dice: int, now: int)
    requires SwitchedOff(w) && forall i :: 0 <= i < |events| && events[i].Update? ==> !events[i].local.triggerTrace
    requires !IsLocal(parent) && IsTriggered(RequestOf(parent, h, dice, now))
    ensures ShouldSampleSpec(ApplyAll(w, filters, events), filters, parent, h, dice, now).1.decision != RecordAndSample
    decreases events
  {
    if events == [] {
      NotTriggered(w, filters, parent, h, dice, now);
    } else {
      StepStaysSwitchedOff(w, filters, events[0]);
      SwitchedOffNeverTriggers(Apply(w, filters, events[0]), filters, events[1..], parent, h, dice, now);
    }
  }

  lemma NotTriggered(w: World, filters: seq<UrlFilter>, parent: SpanContext, h: Header, dice: int, now: int)
    requires SwitchedOff(w) && !IsLocal(parent) && IsTriggered(RequestOf(parent, h, dice, now))
    ensures ShouldSampleSpec(w, filters, parent, h, dice, now).1.decision != RecordAndSample
  {
    hide HydrateTraceState;
    hide AttributesOf;
    hide GetSwTraceState;
    hide TriggerTraceEnabled;
    hide SamplingSettings.Enabled;
    hide FirstMatch;
    hide Bucket.Consume;
  }

  // ---------- injection ----------

  /** The outgoing headers: traceparent and, possibly empty, tracestate. */
  datatype Carrier = Carrier(traceId: seq<Byte>, spanId: SpanId, traceFlags: Byte, traceState: TraceState)

  /**
    Injection into a carrier with that tracestate header, parsed. Without a header an invalid span context
    adds nothing.
   */
  function Inject(sc: SpanContext, header: TraceState): Carrier {
    if header == [] && !sc.IsValid() then Carrier(sc.traceId, sc.spanId, sc.traceFlags, header)
    else
      var ts := SetSw(header, SwFromCtx(sc.spanId, sc.traceFlags));
      Carrier(sc.traceId, sc.spanId, sc.traceFlags, RemoveInternalState(ts, XTRACE_OPT_RESP).0)
  }

  function Extract(c: Carrier): SpanContext {
    SpanContext(c.traceId, c.spanId, c.traceFlags, c.traceState, true)
  }

  /**
    An injected header says exactly what the span decided, keeps the entries of other vendors as they
    are and in order, and does not carry the response to X-Trace-Options any further. Only an invalid
    span into a carrier without a tracestate header injects nothing.
   */
  lemma InjectedHeader(sc: SpanContext, header: TraceState)
    ensures var ts := Inject(sc, header).traceState;
            if sc.IsValid() || header != [] then
              && GetSw(ts) == SwFromCtx(sc.spanId, sc.traceFlags)
              && Get(ts, XTRACE_OPT_RESP_KEY) == ""
              && Capture(ts) == Capture(header)
            else ts == []
  {
    var val := SwFromCtx(sc.spanId, sc.traceFlags);
    var ts := SetSw(header, val);
    assert SW[0] == 's' && XTRACE_OPT_RESP_KEY[0] == 'x';
    InsertLaws(header, SW, val, XTRACE_OPT_RESP_KEY);
    DeleteLaws(ts, XTRACE_OPT_RESP_KEY, SW);
    DeleteLaws(ts, SW, XTRACE_OPT_RESP_KEY);
    DeleteLaws(Delete(ts, SW), XTRACE_OPT_RESP_KEY, SW);
  }

  // ---------- chains of services ----------

  /**
    One service of a chain, in whatever state it is when the request arrives: its engine, its filters,
    the X-Trace-Options it receives, the number it rolls, the time, the id of its span, and what other
    vendors on the way to the next service do to the tracestate header.
   */
  datatype Hop = Hop(
    world: World, filters: seq<UrlFilter>, opts: string, sig: string, check: Check, dice: int, now: int,
    spanId: SpanId, transit: TraceState -> TraceState)

  /** Others leave the sw entry alone, as section 3.5 of W3C Trace Context asks of them, and span ids are not zero. */
  ghost predicate Sound(h: Hop) {
    HasSpanId(h) && forall ts :: GetSw(h.transit(ts)) == GetSw(ts)
  }

  function Handle(h: Hop, parent: SpanContext): SamplingResult {
    ShouldSampleSpec(h.world, h.filters, parent, HeaderFor(h.world, h.check, h.opts, h.sig), h.dice, h.now).1
  }

  /** What the next service receives. */
  function Send(h: Hop, traceId: seq<Byte>, r: SamplingResult): Carrier {
    // The standard propagator has put the span's own trace state into the header.
    var c := Inject(SpanContext(traceId, h.spanId, if r.decision == RecordAndSample then 1 else 0, r.traceState, false), r.traceState);
    c.(traceState := h.transit(c.traceState))
  }

  /** Which services of a chain record and sample, given what the first one receives. */
  function Traced(hops: seq<Hop>, traceId: seq<Byte>, parent: SpanContext): seq<bool>
    decreases hops
  {
    if hops == [] then []
    else
      var r := Handle(hops[0], parent);
      [r.decision == RecordAndSample] + Traced(hops[1..], traceId, Extract(Send(hops[0], traceId, r)))
  }

  /** A service passes a sampled decision on, told from its settings and its dice alone. */
  predicate Passes(h: Hop) {
    h.world.settings.Some? &&
    var g := h.world.settings.value;
    SamplingSettings.Enabled(g.flags) &&
    (Has(g.flags, FLAG_SAMPLE_THROUGH_ALWAYS) || (Has(g.flags, FLAG_SAMPLE_THROUGH) && ShouldSample(g.value, h.dice)))
  }

  predicate NonZero(traceId: seq<Byte>) {
    exists i :: 0 <= i < |traceId| && traceId[i] != 0
  }

  lemma HandleContinued(h: Hop, parent: SpanContext)
    requires parent.remote && GetSwTraceState(parent).isValid
    ensures Handle(h, parent).decision == RecordAndSample <==> IsSampled(GetSwTraceState(parent).flags) && Passes(h)
  {
    hide ParseHeader;
    hide HydrateTraceState;
    hide ParseSwTraceState;
    hide Has;
    hide ShouldSample;
    hide SamplingSettings.Enabled;
    hide FirstMatch;
  }

  lemma SendCarriesDecision(h: Hop, traceId: seq<Byte>, r: SamplingResult)
    requires Sound(h) && NonZero(traceId)
    ensures var sw := GetSwTraceState(Extract(Send(h, traceId, r)));
            sw.isValid && (IsSampled(sw.flags) <==> r.decision == RecordAndSample)
  {
    var flags: Byte := if r.decision == RecordAndSample then 1 else 0;
    var sc := SpanContext(traceId, h.spanId, flags, r.traceState, false);
    InjectedHeader(sc, r.traceState);
    PrintThenParse(h.spanId, flags);
    assert GetSw(Send(h, traceId, r).traceState) == GetSw(Inject(sc, r.traceState).traceState);
    hide SwFromCtx;
    hide ParseSwTraceState;
  }

  ghost predicate AllPass(hops: seq<Hop>, i: int, j: int) {
    forall k :: i <= k < j && 0 <= k < |hops| ==> Passes(hops[k])
  }

  /** From a valid incoming decision on: a service traces exactly when that decision is sampled and every service up to and including itself passes. */
  lemma {:induction false} TracedFromDecision(hops: seq<Hop>, traceId: seq<Byte>, parent: SpanContext)
    requires NonZero(traceId) && forall k :: 0 <= k < |hops| ==> Sound(hops[k])
    requires parent.remote && GetSwTraceState(parent).isValid
    ensures var t := Traced(hops, traceId, parent);
            |t| == |hops| && forall i :: 0 <= i < |hops| ==>
              (t[i] <==> IsSampled(GetSwTraceState(parent).flags) && AllPass(hops, 0, i + 1))
    decreases hops
  {
    hide Passes;
    hide Sound;
    hide GetSwTraceState;
    hide Handle;
    hide Send;
    if hops != [] {
      var r := Handle(hops[0], parent);
      var next := Extract(Send(hops[0], traceId, r));
      HandleContinued(hops[0], parent);
      SendCarriesDecision(hops[0], traceId, r);
      TracedFromDecision(hops[1..], traceId, next);
      forall i | 0 <= i < |hops|
        ensures Traced(hops, traceId, parent)[i] <==> IsSampled(GetSwTraceState(parent).flags) && AllPass(hops, 0, i + 1)
      {
        ShiftPass(hops, i);
        if i > 0 {
          assert Traced(hops, traceId, parent)[i] == Traced(hops[1..], traceId, next)[i - 1];
        }
      }
    }
  }

  lemma ShiftPass(hops: seq<Hop>, i: nat)
    requires i < |hops|
    ensures AllPass(hops, 0, i + 1) <==> Passes(hops[0]) && AllPass(hops[1..], 0, i)
  {
    hide Passes;
    if AllPass(hops[1..], 0, i) && Passes(hops[0]) {
      forall k | 0 <= k < i + 1 && 0 <= k < |hops|
        ensures Passes(hops[k])
      {
        if k > 0 {
          assert hops[k] == hops[1..][k - 1];
        }
      }
    }
    if AllPass(hops, 0, i + 1) {
      forall k | 0 <= k < i && 0 <= k < |hops[1..]|
        ensures Passes(hops[1..][k])
      {
        assert hops[1..][k] == hops[k + 1];
      }
    }
  }

  /**
    The decision of a whole trace: for any number of services in any state, a service traces exactly when
    the root does and every later service up to and including itself passes.
   */
  lemma {:induction false} ChainDecision(hops: seq<Hop>, traceId: seq<Byte>, parent: SpanContext)
    requires NonZero(traceId) && hops != [] && forall k :: 0 <= k < |hops| ==> Sound(hops[k])
    ensures var t := Traced(hops, traceId, parent);
            |t| == |hops| && forall i :: 0 <= i < |hops| ==> (t[i] <==> t[0] && AllPass(hops, 1, i + 1))
  {
    hide Passes;
    hide Sound;
    hide GetSwTraceState;
    hide Handle;
    hide Send;
    var r := Handle(hops[0], parent);
    var next := Extract(Send(hops[0], traceId, r));
    SendCarriesDecision(hops[0], traceId, r);
    TracedFromDecision(hops[1..], traceId, next);
    forall i | 0 <= i < |hops|
      ensures Traced(hops, traceId, parent)[i] <==> Traced(hops, traceId, parent)[0] && AllPass(hops, 1, i + 1)
    {
      assert AllPass(hops, 1, i + 1) <==> AllPass(hops[1..], 0, i) by {
        TailPass(hops, i);
      }
      if i > 0 {
        assert Traced(hops, traceId, parent)[i] == Traced(hops[1..], traceId, next)[i - 1];
      }
    }
  }

  lemma TailPass(hops: seq<Hop>, i: nat)
    requires i < |hops|
    ensures AllPass(hops, 1, i + 1) <==> AllPass(hops[1..], 0, i)
  {
    hide Passes;
    assert forall k :: 0 <= k < |hops[1..]| ==> hops[1..][k] == hops[k + 1];
    if AllPass(hops[1..], 0, i) {
      forall k | 1 <= k < i + 1 && 0 <= k < |hops|
        ensures Passes(hops[k])
      {
        assert hops[k] == hops[1..][k - 1];
      }
    }
  }

  ghost predicate AlwaysThrough(h: Hop) {
    h.world.settings.Some? && Has(h.world.settings.value.flags, FLAG_SAMPLE_THROUGH_ALWAYS)
  }

  lemma AlwaysThroughPasses(h: Hop)
    requires AlwaysThrough(h)
    ensures Passes(h)
  {
    var f := h.world.settings.value.flags;
    assert f & FLAG_SAMPLE_THROUGH_ALWAYS != 0 ==> f & (FLAG_SAMPLE_START | FLAG_SAMPLE_THROUGH_ALWAYS) != 0;
  }

  /** If every later service has SAMPLE_THROUGH_ALWAYS, the whole trace follows the root. */
  lemma {:induction false} EveryServiceFollowsRoot(hops: seq<Hop>, traceId: seq<Byte>, parent: SpanContext)
    requires NonZero(traceId) && hops != [] && forall k :: 0 <= k < |hops| ==> Sound(hops[k])
    requires forall k :: 1 <= k < |hops| ==> AlwaysThrough(hops[k])
    ensures var t := Traced(hops, traceId, parent);
            |t| == |hops| && forall i :: 0 <= i < |hops| ==> t[i] == t[0]
  {
    ChainDecision(hops, traceId, parent);
    forall k | 1 <= k < |hops|
      ensures Passes(hops[k])
    {
      AlwaysThroughPasses(hops[k]);
    }
    hide Passes;
    hide Traced;
  }

  /** No service reached with a valid unsampled decision traces, whatever any settings or headers say. */
  lemma {:induction false} UnsampledStaysUnsampled(hops: seq<Hop>, traceId: seq<Byte>, parent: SpanContext)
    requires NonZero(traceId) && forall k :: 0 <= k < |hops| ==> Sound(hops[k])
    requires parent.remote && GetSwTraceState(parent).isValid && !IsSampled(GetSwTraceState(parent).flags)
    ensures Traced(hops, traceId, parent) == seq(|hops|, _ => false)
  {
    TracedFromDecision(hops, traceId, parent);
  }

  /**
    A service whose flags have SAMPLE_THROUGH but neither SAMPLE_START nor SAMPLE_THROUGH_ALWAYS counts a
    continued trace as traced and as through, and yet drops its span.
   */
  lemma ThroughOnlyIsCountedButDropped(h: Hop, parent: SpanContext)
    requires parent.remote && GetSwTraceState(parent).isValid && IsSampled(GetSwTraceState(parent).flags)
    requires h.world.settings.Some? && ShouldSample(h.world.settings.value.value, h.dice)
    requires Has(h.world.settings.value.flags, FLAG_SAMPLE_THROUGH) && !SamplingSettings.Enabled(h.world.settings.value.flags)
    ensures var (w, r) := ShouldSampleSpec(h.world, h.filters, parent, HeaderFor(h.world, h.check, h.opts, h.sig), h.dice, h.now);
            && r.decision == Drop
            && w.counts.traced == h.world.counts.traced + 1 && w.counts.through == h.world.counts.through + 1
  {
    var f := h.world.settings.value.flags;
    assert !Has(f, FLAG_SAMPLE_THROUGH_ALWAYS) by {
      assert f & FLAG_SAMPLE_THROUGH_ALWAYS != 0 ==> f & (FLAG_SAMPLE_START | FLAG_SAMPLE_THROUGH_ALWAYS) != 0;
    }
    hide ParseHeader;
    hide HydrateTraceState;
    hide ParseSwTraceState;
    hide Has;
    hide ShouldSample;
    hide SamplingSettings.Enabled;
    hide FirstMatch;
  }

  const THROUGH_ONLY := UpdateArgs("SAMPLE_THROUGH", MAX_SAMPLE_RATE, 0, "", 0.0, 0.0, 0.0, 0.0, 0.0, 0.0)

  function ThroughOnlyWorld(): World {
    Install(World(None, NO_COUNTS), THROUGH_ONLY, LocalConfig(false, 0, "", true), 0)
  }

  lemma ThroughOnlySettings()
    ensures var w := ThroughOnlyWorld();
            && w.counts == NO_COUNTS && w.settings.Some? && w.settings.value.value == MAX_SAMPLE_RATE
            && Has(w.settings.value.flags, FLAG_SAMPLE_THROUGH) && !SamplingSettings.Enabled(w.settings.value.flags)
  {
    SingleFlags();
    hide ParseFlags;
    hide Fresh;
  }

  lemma SampledParent(sc: SpanContext)
    requires sc.IsValid() && IsSampled(sc.traceFlags)
    ensures var parent := Extract(Inject(sc, sc.traceState));
            parent.remote && GetSwTraceState(parent).isValid && IsSampled(GetSwTraceState(parent).flags)
  {
    InjectedHeader(sc, sc.traceState);
    PrintThenParse(sc.spanId, sc.traceFlags);
    hide SwFromCtx;
    hide ParseSwTraceState;
  }

  /** It happens with the remote flag string SAMPLE_THROUGH at the full rate, after any service that sampled. */
  lemma ThroughOnlyHappens(sc: SpanContext, hop: Hop)
    requires sc.IsValid() && IsSampled(sc.traceFlags)
    ensures var h := hop.(world := ThroughOnlyWorld());
            var parent := Extract(Inject(sc, sc.traceState));
            var (w, r) := ShouldSampleSpec(h.world, h.filters, parent, HeaderFor(h.world, h.check, h.opts, h.sig), h.dice, h.now);
            r.decision == Drop && w.counts.traced == 1 && w.counts.through == 1
  {
    ThroughOnlySettings();
    SampledParent(sc);
    hide ThroughOnlyWorld;
    hide Inject;
    hide GetSwTraceState;
    hide ShouldSampleSpec;
    hide Has;
    hide SamplingSettings.Enabled;
    hide IsSampled;
    ThroughOnlyIsCountedButDropped(hop.(world := ThroughOnlyWorld()), Extract(Inject(sc, sc.traceState)));
  }
}
