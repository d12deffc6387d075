/**
  The sampling engine of internal/oboe/oboe.go: one decision per request, and settings that are
  replaced as a whole.

  The settings pointer, the counters and the URL index are package-level or shared state in the source;
  here they belong to one object. Each method is atomic. The clock reading and the rolled number of a
  request are inputs.
 */
module Oboe {
  import opened Wrappers
  import opened Metrics
  import opened TokenBuckets
  import opened UrlFilters
  import opened SamplingSettings
  import opened W3cFormat
  import opened Text

  // ---------- values ----------

  datatype World = World(settings: Option<Generation>, counts: Counters)

  datatype Request = Request(
    continued: bool, url: string, triggerTrace: TriggerTraceMode, swState: SwTraceState, dice: int, now: int)

  datatype SampleDecision = SampleDecision(
    trace: bool, rate: int, source: SampleSource, enabled: bool, xTraceOptsRsp: string,
    bucketCap: real, bucketRate: real, diceRolled: bool)

  const TT_OK := "ok"
  const TT_RATE_EXCEEDED := "rate-exceeded"
  const TT_TRACING_DISABLED := "tracing-disabled"
  const TT_TRIGGER_TRACING_DISABLED := "trigger-tracing-disabled"
  const TT_NOT_REQUESTED := "not-requested"
  const TT_IGNORED := "ignored"
  const TT_SETTINGS_NOT_AVAILABLE := "settings-not-available"

  const NO_SETTINGS_DECISION := SampleDecision(false, 0, SourceNone, false, TT_SETTINGS_NOT_AVAILABLE, 0.0, 0.0, false)

  /** The rolled number lies in [0, MAX_SAMPLE_RATE); note the inclusive comparison. */
  predicate ShouldSample(rate: int, dice: int) {
    rate == MAX_SAMPLE_RATE || dice <= rate
  }

  // ---------- one request as a function ----------

  function BucketFor(g: Generation, mode: TriggerTraceMode): Bucket {
    match mode
    case Relaxed => g.relaxed
    case Strict => g.strict
    case _ => g.bucket
  }

  function WithBucket(g: Generation, mode: TriggerTraceMode, b: Bucket): Generation {
    match mode
    case Relaxed => g.(relaxed := b)
    case Strict => g.(strict := b)
    case _ => g.(bucket := b)
  }

  /** The dice and the incoming decision, before rate limiting: (sampled, dice rolled, unset the reported bucket). */
  function Roll(flags: Flags, rate: int, req: Request): (bool, bool, bool) {
    if !req.continued then
      if Has(flags, FLAG_SAMPLE_START) then (ShouldSample(rate, req.dice), true, false) else (false, false, false)
    else if req.swState.isValid && IsSampled(req.swState.flags) then
      if Has(flags, FLAG_SAMPLE_THROUGH_ALWAYS) then (true, false, true)
      else if Has(flags, FLAG_SAMPLE_THROUGH) then (ShouldSample(rate, req.dice), true, false)
      else (false, false, false)
    else (false, false, false)
  }

  function TriggerTraceResponse(flags: Flags, mode: TriggerTraceMode, traced: bool): string {
    if TriggerTraceEnabled(flags) && mode.Enabled() then (if traced then TT_OK else TT_RATE_EXCEEDED)
    else if mode.Invalid? then ""
    else if !SamplingSettings.Enabled(flags) then TT_TRACING_DISABLED
    else TT_TRIGGER_TRACING_DISABLED
  }

  /** A request that asks for a trigger trace and continues nothing. */
  predicate IsTriggered(req: Request) {
    req.triggerTrace.Requested() && !req.continued
  }

  function SampleTriggered(g: Generation, counts: Counters, flags: Flags, req: Request): (World, SampleDecision) {
    var sampled := req.triggerTrace != Invalid && TriggerTraceEnabled(flags);
    var c := CountRequest(BucketFor(g, req.triggerTrace), counts, sampled, false, true, true, req.now);
    // The two reported bucket values are swapped here, as in the source.
    var (cap, perSec) := BucketSetting(g, req.triggerTrace);
    (World(Some(WithBucket(g, req.triggerTrace, c.bucket)), c.counts),
     SampleDecision(c.traced, -1, SourceUnset, SamplingSettings.Enabled(flags),
                    TriggerTraceResponse(flags, req.triggerTrace, c.traced), perSec, cap, false))
  }

  function SampleOrdinary(g: Generation, counts: Counters, rate: int, flags: Flags, source: SampleSource, req: Request)
    : (World, SampleDecision)
  {
    var (sampled, rolled, unset) := Roll(flags, rate, req);
    var c := CountRequest(BucketFor(g, req.triggerTrace), counts, sampled, req.continued, sampled && !req.continued, false, req.now);
    var (cap, perSec) := BucketSetting(g, NotPresent);
    var rsp := if req.triggerTrace.Requested() then TT_IGNORED else TT_NOT_REQUESTED;
    (World(Some(WithBucket(g, req.triggerTrace, c.bucket)), c.counts),
     if unset then SampleDecision(c.traced, -1, SourceUnset, SamplingSettings.Enabled(flags), rsp, -1.0, -1.0, rolled)
     else SampleDecision(c.traced, rate, source, SamplingSettings.Enabled(flags), rsp, cap, perSec, rolled))
  }

  function SampleWith(g: Generation, counts: Counters, mode: TracingMode, req: Request): (World, SampleDecision) {
    var (rate, flags, source) := MergeUrl(g, mode);
    if IsTriggered(req) then SampleTriggered(g, counts, flags, req) else SampleOrdinary(g, counts, rate, flags, source, req)
  }

  function Sample(w: World, filters: seq<UrlFilter>, req: Request): (World, SampleDecision) {
    match w.settings
    case None => (w, NO_SETTINGS_DECISION)
    case Some(g) => SampleWith(g, w.counts, Answer(filters, req.url), req)
  }

  function Install(w: World, args: UpdateArgs, local: LocalConfig, now: int): World {
    w.(settings := Some(MergeLocal(Received(args, now), local)))
  }

  function CheckTimeout(w: World, now: int): World {
    if w.settings.Some? && w.settings.value.timestamp + w.settings.value.ttl < now then w.(settings := None) else w
  }

  /** The key for signatures comes with the settings; without settings, or when it is empty, there is none. */
  function TriggerTraceToken(w: World): Option<string> {
    if w.settings.None? || w.settings.value.triggerToken == "" then None else Some(w.settings.value.triggerToken)
  }

  // ---------- what one request gets ----------

  /** The answer to X-Trace-Options, told from the effective flags, the request and whether it is traced. */
  lemma AnswersTell(w: World, filters: seq<UrlFilter>, req: Request)
    ensures var d := Sample(w, filters, req).1;
            d.xTraceOptsRsp ==
              if w.settings.None? then "settings-not-available"
              else if req.triggerTrace.NotPresent? then "not-requested"
              else if req.continued then "ignored"
              else if req.triggerTrace.Invalid? then ""
              else
                var flags := MergeUrl(w.settings.value, Answer(filters, req.url)).1;
                if flags & 0x20 != 0 then (if d.trace then "ok" else "rate-exceeded")
                else if flags & 0x14 == 0 then "tracing-disabled"
                else "trigger-tracing-disabled"
  {
    hide CountRequest;
    hide MergeUrl;
    hide Answer;
    hide Roll;
    hide BucketSetting;
    hide WithBucket;
    hide BucketFor;
  }

  /**
    Which requests are traced, when the dice are rolled, and whether tracing counts as enabled, told from the
    effective rate and flags: SAMPLE_START is 0x4, SAMPLE_THROUGH 0x8, SAMPLE_THROUGH_ALWAYS 0x10,
    TRIGGER_TRACE 0x20. The dice accept at the full rate and up to the rate.
   */
  lemma DecisionsTell(g: Generation, counts: Counters, mode: TracingMode, req: Request)
    ensures var d := SampleWith(g, counts, mode, req).1;
            var (rate, flags, _) := MergeUrl(g, mode);
            var accepts := rate == 1000000 || req.dice <= rate;
            var sampledParent := req.continued && req.swState.isValid && req.swState.flags % 2 == 1;
            && (d.enabled <==> flags & 0x14 != 0)
            && (d.diceRolled <==>
                  if req.continued then sampledParent && flags & 0x10 == 0 && flags & 0x8 != 0
                  else req.triggerTrace.NotPresent? && flags & 0x4 != 0)
            && (d.trace <==>
                  if req.continued then sampledParent && (flags & 0x10 != 0 || (flags & 0x8 != 0 && accepts))
                  else match req.triggerTrace
                    case NotPresent => flags & 0x4 != 0 && accepts && g.bucket.Consume(1.0, req.now).granted
                    case Relaxed => flags & 0x20 != 0 && g.relaxed.Consume(1.0, req.now).granted
                    case Strict => flags & 0x20 != 0 && g.strict.Consume(1.0, req.now).granted
                    case Invalid => false)
  {
    hide MergeUrl;
    hide BucketSetting;
    hide WithBucket;
    hide TriggerTraceResponse;
    hide Bucket.Consume;
  }

  /**
    What one request leaves behind: each counter, and the one bucket that is asked. The dice or the
    trigger-trace flag decide whether a bucket is asked at all; a request that is asked for and not traced
    is limited.
   */
  lemma EffectsTell(g: Generation, counts: Counters, mode: TracingMode, req: Request)
    ensures var (w, d) := SampleWith(g, counts, mode, req);
            var (rate, flags, _) := MergeUrl(g, mode);
            var asked := !req.continued &&
                         (if req.triggerTrace.NotPresent? then flags & 0x4 != 0 && (rate == 1000000 || req.dice <= rate)
                          else !req.triggerTrace.Invalid? && flags & 0x20 != 0);
            && w.counts.requested - counts.requested == 1
            && w.counts.sampled - counts.sampled == (if req.continued then 0 else 1)
            && w.counts.limited - counts.limited == (if asked && !d.trace then 1 else 0)
            && w.counts.through - counts.through == (if req.continued && d.trace then 1 else 0)
            && w.counts.ttraced - counts.ttraced == (if !req.continued && !req.triggerTrace.NotPresent? && d.trace then 1 else 0)
            && w.counts.traced - counts.traced == (if d.trace then 1 else 0)
            && w.settings == Some(
                 if !asked then g
                 else match req.triggerTrace
                   case Relaxed => g.(relaxed := g.relaxed.Consume(1.0, req.now).bucket)
                   case Strict => g.(strict := g.strict.Consume(1.0, req.now).bucket)
                   case _ => g.(bucket := g.bucket.Consume(1.0, req.now).bucket))
  {
    hide MergeUrl;
    hide BucketSetting;
    hide TriggerTraceResponse;
    hide Bucket.Consume;
    hide SamplingSettings.Enabled;
  }

  /** Settings put in place at one time are still there after a check at another exactly if their time-to-live has not run out between. */
  lemma SettingsLiveFor(w: World, args: UpdateArgs, local: LocalConfig, now: int, later: int)
    ensures var v := Install(w, args, local, now);
            CheckTimeout(v, later) == (if later - now <= args.ttl then v else World(None, w.counts))
  {
    LocalConfigurationTells(Received(args, now), local);
    ReceivedTells(args, now);
    hide Received;
    hide MergeLocal;
  }

  // ---------- where the source does not do what one would expect ----------

  /** The values a die with n faces can show. */
  function Dice(n: nat): (values: set<int>)
    ensures |values| == n && forall dice :: dice in values <==> 0 <= dice < n
  {
    if n == 0 then {} else Dice(n - 1) + {n - 1}
  }

  /**
    Of the million equally likely dice values a rate accepts one more than it names, so that a rate of
    zero still samples, except for the full rate, which accepts all.
   */
  lemma RateAcceptsOneMore(rate: nat)
    requires rate <= 1000000
    ensures |set dice | dice in Dice(1000000) && ShouldSample(rate, dice)| == if rate == 1000000 then rate else rate + 1
  {
    var accepted := if rate == MAX_SAMPLE_RATE then rate else rate + 1;
    assert (set dice | dice in Dice(MAX_SAMPLE_RATE) && ShouldSample(rate, dice)) == Dice(accepted);
  }

  /** The incoming decision is followed without rolling the dice. */
  predicate FollowsParent(flags: Flags, req: Request) {
    req.continued && req.swState.isValid && IsSampled(req.swState.flags) && Has(flags, FLAG_SAMPLE_THROUGH_ALWAYS)
  }

  /**
    A triggered request reports its bucket's rate as the capacity and its capacity as the rate; they are
    right exactly when the two are equal. A request that follows its parent reports nothing, and every
    other request the main bucket and the effective rate and source.
   */
  lemma ReportedBucket(g: Generation, counts: Counters, mode: TracingMode, req: Request)
    ensures var d := SampleWith(g, counts, mode, req).1;
            var (rate, flags, source) := MergeUrl(g, mode);
            if IsTriggered(req) then
              var b := BucketFor(g, req.triggerTrace);
              && d.bucketCap == b.ratePerSec && d.bucketRate == b.capacity && d.rate == -1 && d.source == SourceUnset
              && ((d.bucketCap, d.bucketRate) == (b.capacity, b.ratePerSec) <==> b.capacity == b.ratePerSec)
            else
              (d.bucketCap, d.bucketRate, d.rate, d.source) ==
                if FollowsParent(flags, req) then (-1.0, -1.0, -1, SourceUnset)
                else (g.bucket.capacity, g.bucket.ratePerSec, rate, source)
  {
    hide CountRequest;
    hide MergeUrl;
    hide Has;
    hide TriggerTraceEnabled;
    hide SamplingSettings.Enabled;
    hide ShouldSample;
    hide IsSampled;
  }

  /** Settings and a request for which the report is wrong. */
  lemma SwappedReportHappens()
    ensures var args := UpdateArgs("", 0, 0, "", 0.0, 0.0, 0.0, 0.0, 6.0, 1.0);
            var w := Install(World(None, NO_COUNTS), args, LocalConfig(false, 0, "", true), 0);
            var d := Sample(w, [], Request(false, "", Strict, W3cFormat.INVALID, 0, 0)).1;
            d.bucketCap == 1.0 && d.bucketRate == 6.0
  {
    var args := UpdateArgs("", 0, 0, "", 0.0, 0.0, 0.0, 0.0, 6.0, 1.0);
    var w := Install(World(None, NO_COUNTS), args, LocalConfig(false, 0, "", true), 0);
    var req := Request(false, "", Strict, W3cFormat.INVALID, 0, 0);
    ReportedBucket(w.settings.value, NO_COUNTS, TraceUnknown, req);
    hide SampleWith;
    hide ParseFlags;
    hide MergedFlags;
  }

  /**
    With trigger tracing switched off locally, a triggered request that is put to the engine directly,
    with a URL, is traced exactly when the first matching filter enables tracing, OVERRIDE did not come
    without TRIGGER_TRACE, the request is validly signed or unsigned, and its bucket grants.
   */
  lemma SwitchedOffTriggersIff(w: World, args: UpdateArgs, local: LocalConfig, now: int, filters: seq<UrlFilter>, req: Request)
    requires !local.triggerTrace && IsTriggered(req)
    ensures var g := Received(args, now);
            Sample(Install(w, args, local, now), filters, req).1.trace <==>
              && Answer(filters, req.url) == TraceEnabled
              && (g.HasOverrideFlag() ==> TriggerTraceEnabled(g.flags))
              && req.triggerTrace.Enabled()
              && BucketFor(g, req.triggerTrace).Consume(1.0, req.now).granted
  {
    hide Received;
    hide Answer;
    hide Has;
    hide TriggerTraceEnabled;
    hide SamplingSettings.Enabled;
    hide Bucket.Consume;
    hide MergeUrl;
    hide MergedFlags;
    hide ParseFlags;
    TriggerTraceSwitchedOffStillOn(args, now, local, Answer(filters, req.url));
    ReceivedFlags(args, now);
  }

  lemma ReceivedFlags(args: UpdateArgs, now: int)
    ensures Received(args, now).flags == Received(args, now).originalFlags
  {
    hide ParseFlags;
  }

  /** It happens, with the empty flag string, a filter that matches everything, and a bucket of one token. */
  lemma SwitchedOffStillTriggers()
    ensures var args := UpdateArgs("", 0, 0, "", 0.0, 0.0, 0.0, 0.0, 1.0, 1.0);
            var local := LocalConfig(false, 0, "", false);
            var filters := [RegexFilter(_ => true, TraceEnabled)];
            var req := Request(false, "/", Strict, W3cFormat.INVALID, 0, 1000000000);
            Sample(Install(World(None, NO_COUNTS), args, local, 0), filters, req).1.trace
  {
    var args := UpdateArgs("", 0, 0, "", 0.0, 0.0, 0.0, 0.0, 1.0, 1.0);
    var local := LocalConfig(false, 0, "", false);
    var filters := [RegexFilter(_ => true, TraceEnabled)];
    var req := Request(false, "/", Strict, W3cFormat.INVALID, 0, 1000000000);
    assert !Received(args, 0).HasOverrideFlag() by {
      assert Split("", ',') == [""];
      assert FlagsOf([""][1..]) == FLAG_OK;
    }
    OneTokenIsGranted();
    assert filters[0].Match("/");
    assert Answer(filters, "/") == TraceEnabled;
    SwitchedOffTriggersIff(World(None, NO_COUNTS), args, local, 0, filters, req);
  }

  /** A new bucket of one token has it one second after Go's zero time. */
  lemma OneTokenIsGranted()
    ensures Fresh(1.0, 1.0).Consume(1.0, 1000000000).granted
  {
    assert Seconds(1000000000) == 1.0;
    assert Tokens(1.0, 1000000000) == 1.0;
    hide Tokens;
    assert Sub(1000000000, ZERO_TIME) == 1000000000;
    assert Fresh(1.0, 1.0) == Bucket(1.0, 1.0, 0.0, ZERO_TIME);
  }

  // ---------- the engine as the source has it ----------

  class Engine {
    var settings: Settings?
    const counts: RateCounts
    const urls: Urls

    ghost predicate Valid()
      reads this, urls
    {
      (settings != null ==> settings.Valid()) && Coherent(urls.View())
    }

    ghost function Buckets(): set<object>
      reads this
    {
      if settings == null then {} else settings.Buckets
    }

    ghost function View(): World
      reads this, settings, Buckets(), counts
    {
      World(if settings == null then None else Some(settings.View()), counts.View())
    }

    constructor (counts: RateCounts, urls: Urls)
      requires Coherent(urls.View())
      ensures Valid() && View() == World(None, counts.View()) && this.counts == counts && this.urls == urls
    {
      this.settings := null;
      this.counts := counts;
      this.urls := urls;
    }

    /** The branch of SampleRequest for triggered requests. */
    method CountTriggered(bucket: TokenBucket, flags: Flags, req: Request) returns (d: SampleDecision)
      requires settings != null && settings.Valid() && IsTriggered(req)
      requires bucket == settings.ChosenBucket(req.triggerTrace)
      modifies counts, bucket
      ensures (World(Some(settings.View()), counts.View()), d)
           == SampleTriggered(old(settings.View()), old(counts.View()), flags, req)
    {
      hide CountRequest;
      hide TriggerTraceEnabled;
      hide SamplingSettings.Enabled;
      var sampled := req.triggerTrace != Invalid && TriggerTraceEnabled(flags);
      var rsp := TT_OK;
      var ret := bucket.Count(counts, sampled, false, true, true, req.now);
      if TriggerTraceEnabled(flags) && req.triggerTrace.Enabled() {
        if !ret {
          rsp := TT_RATE_EXCEEDED;
        }
      } else if req.triggerTrace == Invalid {
        rsp := "";
      } else {
        if !SamplingSettings.Enabled(flags) {
          rsp := TT_TRACING_DISABLED;
        } else {
          rsp := TT_TRIGGER_TRACING_DISABLED;
        }
      }
      var ttCap, ttRate := settings.GetTokenBucketSetting(req.triggerTrace);
      return SampleDecision(ret, -1, SourceUnset, SamplingSettings.Enabled(flags), rsp, ttRate, ttCap, false);
    }

    /** `stored` says whether the URL cache accepted a new entry. */
    method SampleRequest(req: Request, stored: bool) returns (d: SampleDecision)
      requires Valid()
      modifies counts, urls, Buckets()
      ensures Valid() && urls.filters == old(urls.filters)
      ensures (View(), d) == Sample(old(View()), urls.filters, req)
    {
      hide CountRequest;
      hide MergeUrl;
      hide Answer;
      hide Coherent;
      hide Has;
      hide TriggerTraceEnabled;
      hide SamplingSettings.Enabled;
      hide ShouldSample;
      hide IsSampled;
      if settings == null {
        return NO_SETTINGS_DECISION;
      }
      var diceRolled, retval, doRateLimiting := false, false, false;
      var sampleRate, flags, source := settings.MergeURLSetting(urls, req.url, stored);

      var bucket := settings.bucket;
      match req.triggerTrace {
        case Relaxed => bucket := settings.triggerTraceRelaxedBucket;
        case Strict => bucket := settings.triggerTraceStrictBucket;
        case _ =>
      }

      if req.triggerTrace.Requested() && !req.continued {
        d := CountTriggered(bucket, flags, req);
        return;
      }

      hide SampleTriggered;
      hide BucketSetting;
      var unsetBucketAndSampleKVs := false;
      if !req.continued {
        if Has(flags, FLAG_SAMPLE_START) {
          diceRolled := true;
          retval := ShouldSample(sampleRate, req.dice);
          if retval {
            doRateLimiting := true;
          }
        }
      } else if req.swState.isValid {
        if IsSampled(req.swState.flags) {
          if Has(flags, FLAG_SAMPLE_THROUGH_ALWAYS) {
            unsetBucketAndSampleKVs := true;
            retval := true;
          } else if Has(flags, FLAG_SAMPLE_THROUGH) {
            diceRolled := true;
            retval := ShouldSample(sampleRate, req.dice);
          }
        } else {
          retval := false;
        }
      }

      retval := bucket.Count(counts, retval, req.continued, doRateLimiting, false, req.now);

      var rsp := TT_NOT_REQUESTED;
      if req.triggerTrace.Requested() {
        rsp := TT_IGNORED;
      }

      var bucketCap, bucketRate: real;
      if unsetBucketAndSampleKVs {
        bucketCap, bucketRate, sampleRate, source := -1.0, -1.0, -1, SourceUnset;
      } else {
        bucketCap, bucketRate := settings.GetTokenBucketSetting(NotPresent);
      }
      return SampleDecision(retval, sampleRate, source, SamplingSettings.Enabled(flags), rsp, bucketCap, bucketRate, diceRolled);
    }

    /** New settings with fresh buckets, filled from what was received. */
    method Receive(args: UpdateArgs, now: int) returns (ns: Settings)
      ensures fresh(ns) && fresh(ns.Buckets) && ns.Valid() && ns.View() == Received(args, now)
    {
      hide ParseFlags;
      hide AdjustSampleRate;
      ns := new Settings();
      ns.timestamp := now;
      ns.source := SourceDefault;
      var flags := FlagStringToBin(args.flags);
      ns.flags := flags;
      ns.originalFlags := ns.flags;
      ns.value := AdjustSampleRate(args.value);
      ns.ttl := args.ttl;
      ns.triggerToken := args.triggerToken;
      ns.bucket.SetRateCap(args.bucketRate, args.bucketCapacity);
      ns.triggerTraceRelaxedBucket.SetRateCap(args.relaxedRate, args.relaxedCapacity);
      ns.triggerTraceStrictBucket.SetRateCap(args.strictRate, args.strictCapacity);
    }

    /** Each update builds new settings, merges the local configuration and then publishes them. */
    method UpdateSetting(args: UpdateArgs, local: LocalConfig, now: int)
      requires Valid()
      modifies this
      ensures Valid() && fresh(settings) && fresh(Buckets())
      ensures View() == Install(old(View()), args, local, now)
    {
      hide Coherent;
      hide MergeLocal;
      hide Received;
      var ns := Receive(args, now);
      ns.MergeLocalSetting(local);
      settings := ns;
    }

    method CheckSettingsTimeout(now: int)
      requires Valid()
      modifies this
      ensures Valid() && View() == CheckTimeout(old(View()), now)
    {
      if settings == null {
        return;
      }
      var e := settings.timestamp + settings.ttl;
      if e < now {
        settings := null;
      }
    }

    method GetTriggerTraceToken() returns (token: Option<string>)
      requires Valid()
      ensures token == TriggerTraceToken(View())
    {
      if settings == null {
        return None;
      }
      if |settings.triggerToken| == 0 {
        return None;
      }
      return Some(settings.triggerToken);
    }

    method RemoveSetting()
      requires Valid()
      modifies this
      ensures Valid() && View() == old(View()).(settings := None)
    {
      settings := null;
    }

    /** Without settings nothing is reported and nothing is taken from the counters. */
    method FlushRateCounts() returns (summary: Option<Counters>)
      requires Valid()
      modifies counts
      ensures Valid() && summary.Some? == (settings != null)
      ensures View() == old(View()).(counts := if summary.Some? then NO_COUNTS else old(counts.View()))
      ensures summary.Some? ==> summary.value == old(counts.View())
    {
      hide Coherent;
      if settings == null {
        return None;
      }
      var flushed := counts.FlushRateCounts();
      return Some(flushed);
    }
  }
}
