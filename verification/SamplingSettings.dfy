/**
  Sampling settings: the flags and the merging of remote, local and per-URL settings of
  internal/oboe/settings.go, and the reading of remote settings in internal/oboe/oboe.go.
 */
module SamplingSettings {
  import opened Text
  import opened TokenBuckets
  import opened UrlFilters

  // ---------- flags ----------

  type Flags = bv16

  const FLAG_OK: Flags := 0x0
  const FLAG_OVERRIDE: Flags := 0x2
  const FLAG_SAMPLE_START: Flags := 0x4
  const FLAG_SAMPLE_THROUGH: Flags := 0x8
  const FLAG_SAMPLE_THROUGH_ALWAYS: Flags := 0x10
  const FLAG_TRIGGER_TRACE: Flags := 0x20

  function Meet(f: Flags, g: Flags): Flags {
    f & g
  }

  function Clear(f: Flags, g: Flags): Flags {
    f & !g
  }

  predicate Has(f: Flags, g: Flags) {
    f & g != 0
  }

  predicate Subset(f: Flags, g: Flags) {
    f & !g == 0
  }

  predicate Enabled(f: Flags) {
    f & (FLAG_SAMPLE_START | FLAG_SAMPLE_THROUGH_ALWAYS) != 0
  }

  predicate TriggerTraceEnabled(f: Flags) {
    Has(f, FLAG_TRIGGER_TRACE)
  }

  function ModeFlags(m: TracingMode): Flags {
    if m == TraceEnabled then FLAG_SAMPLE_START | FLAG_SAMPLE_THROUGH_ALWAYS | FLAG_TRIGGER_TRACE else FLAG_OK
  }

  function FlagOf(name: string): Flags {
    if name == "OVERRIDE" then FLAG_OVERRIDE
    else if name == "SAMPLE_START" then FLAG_SAMPLE_START
    else if name == "SAMPLE_THROUGH" then FLAG_SAMPLE_THROUGH
    else if name == "SAMPLE_THROUGH_ALWAYS" then FLAG_SAMPLE_THROUGH_ALWAYS
    else if name == "TRIGGER_TRACE" then FLAG_TRIGGER_TRACE
    else FLAG_OK
  }

  function FlagsOf(names: seq<string>): Flags {
    if names == [] then FLAG_OK else FlagOf(names[0]) | FlagsOf(names[1..])
  }

  function ParseFlags(s: string): Flags {
    FlagsOf(Split(s, ','))
  }

  lemma {:induction false} FlagsOfConcat(a: seq<string>, b: seq<string>)
    ensures FlagsOf(a + b) == FlagsOf(a) | FlagsOf(b)
  {
    if a == [] {
      assert a + b == b;
    } else {
      assert (a + b)[1..] == a[1..] + b;
      FlagsOfConcat(a[1..], b);
    }
  }

  /** The loop of flagStringToBin reads a comma-separated list. */
  method FlagStringToBin(flagString: string) returns (flags: Flags)
    ensures flags == ParseFlags(flagString)
  {
    flags := FLAG_OK;
    if flagString != "" {
      var names := Split(flagString, ',');
      for i := 0 to |names|
        invariant flags == FlagsOf(names[..i])
      {
        assert names[..i + 1] == names[..i] + [names[i]];
        FlagsOfConcat(names[..i], [names[i]]);
        flags := flags | FlagOf(names[i]);
      }
      assert names[..|names|] == names;
    } else {
      assert Split("", ',') == [""];
    }
  }

  lemma SomeFlagNames()
    ensures ',' !in "TRIGGER_TRACE" && FlagOf("TRIGGER_TRACE") == FLAG_TRIGGER_TRACE
    ensures ',' !in "SAMPLE_THROUGH" && FlagOf("SAMPLE_THROUGH") == FLAG_SAMPLE_THROUGH
  {
    assert "TRIGGER_TRACE"[0] == 'T' && |"TRIGGER_TRACE"| == 13;
    assert "SAMPLE_THROUGH"[0] == 'S' && |"SAMPLE_THROUGH"| == 14 && |"SAMPLE_START"| == 12;
  }

  /** Two remote flag strings of one name each. */
  lemma SingleFlags()
    ensures ParseFlags("TRIGGER_TRACE") == FLAG_TRIGGER_TRACE
    ensures ParseFlags("SAMPLE_THROUGH") == FLAG_SAMPLE_THROUGH
  {
    SomeFlagNames();
    OneFlag("TRIGGER_TRACE");
    OneFlag("SAMPLE_THROUGH");
    hide ParseFlags;
    hide FlagOf;
  }

  lemma OneFlag(name: string)
    requires ',' !in name
    ensures ParseFlags(name) == FlagOf(name)
  {
    NoSeparator(name, ',');
    assert FlagsOf([name][1..]) == FLAG_OK;
  }

  /** Joining two flag strings with a comma joins their flags, whatever the strings are. */
  lemma FlagStringsUnite(a: string, b: string)
    ensures ParseFlags(a + "," + b) == ParseFlags(a) | ParseFlags(b)
  {
    SplitConcat(a, ',', b);
    FlagsOfConcat(Split(a, ','), Split(b, ','));
  }

  /** A flag is set exactly when its name is one of the listed names, and no other bit ever is. */
  lemma {:induction false} FlagIsSetIffListed(names: seq<string>, name: string)
    requires FlagOf(name) != FLAG_OK
    ensures Has(FlagsOf(names), FlagOf(name)) <==> name in names
    ensures Subset(FlagsOf(names), ALL_FLAGS)
  {
    if names == [] {
      NoFlags(FlagOf(name));
    } else {
      FlagIsSetIffListed(names[1..], name);
      FlagsAreDistinct(names[0], name);
      UnionLaws(FlagOf(names[0]), FlagsOf(names[1..]), FlagOf(name));
      hide Has;
      hide Subset;
      hide FlagOf;
      assert names == [names[0]] + names[1..];
    }
  }

  const ALL_FLAGS: Flags := 0x3E

  lemma NoFlags(h: Flags)
    ensures !Has(FLAG_OK, h) && Subset(FLAG_OK, ALL_FLAGS)
  {
  }

  lemma UnionLaws(f: Flags, g: Flags, h: Flags)
    ensures Has(f | g, h) <==> Has(f, h) || Has(g, h)
    ensures Subset(f | g, ALL_FLAGS) <==> Subset(f, ALL_FLAGS) && Subset(g, ALL_FLAGS)
  {
    assert (f | g) & h == (f & h) | (g & h);
    assert (f & h) | (g & h) != 0 <==> f & h != 0 || g & h != 0;
  }

  lemma FlagsAreDistinct(n: string, name: string)
    requires FlagOf(name) != FLAG_OK
    ensures Has(FlagOf(n), FlagOf(name)) <==> n == name
    ensures Subset(FlagOf(n), ALL_FLAGS)
  {
    SinglesAreDistinct(FlagOf(n), FlagOf(name));
    hide Has;
    hide Subset;
  }

  predicate IsSingle(f: Flags) {
    f == FLAG_OVERRIDE || f == FLAG_SAMPLE_START || f == FLAG_SAMPLE_THROUGH || f == FLAG_SAMPLE_THROUGH_ALWAYS || f == FLAG_TRIGGER_TRACE
  }

  lemma SinglesAreDistinct(f: Flags, g: Flags)
    requires (f == FLAG_OK || IsSingle(f)) && IsSingle(g)
    ensures Has(f, g) <==> f == g
    ensures Subset(f, ALL_FLAGS)
  {
  }

  lemma NamedFlags()
    ensures FlagOf("OVERRIDE") == 0x2 && FlagOf("SAMPLE_START") == 0x4 && FlagOf("SAMPLE_THROUGH") == 0x8
    ensures FlagOf("SAMPLE_THROUGH_ALWAYS") == 0x10 && FlagOf("TRIGGER_TRACE") == 0x20
  {
    assert |"OVERRIDE"| == 8 && |"SAMPLE_START"| == 12 && |"SAMPLE_THROUGH"| == 14 && |"SAMPLE_THROUGH_ALWAYS"| == 21 && |"TRIGGER_TRACE"| == 13;
  }

  /** Which bits a flag string sets, told from the names in it. */
  lemma FlagStringBits(s: string)
    ensures var (f, names) := (ParseFlags(s), Split(s, ','));
            && (f & 0x2 != 0 <==> "OVERRIDE" in names)
            && (f & 0x4 != 0 <==> "SAMPLE_START" in names)
            && (f & 0x8 != 0 <==> "SAMPLE_THROUGH" in names)
            && (f & 0x10 != 0 <==> "SAMPLE_THROUGH_ALWAYS" in names)
            && (f & 0x20 != 0 <==> "TRIGGER_TRACE" in names)
            && f & !0x3E == 0
  {
    NamedFlags();
    hide FlagOf;
    hide FlagsOf;
    var names := Split(s, ',');
    FlagIsSetIffListed(names, "OVERRIDE");
    FlagIsSetIffListed(names, "SAMPLE_START");
    FlagIsSetIffListed(names, "SAMPLE_THROUGH");
    FlagIsSetIffListed(names, "SAMPLE_THROUGH_ALWAYS");
    FlagIsSetIffListed(names, "TRIGGER_TRACE");
  }

  // ---------- settings of one generation ----------

  datatype SampleSource = SourceUnset | SourceNone | SourceFile | SourceDefault

  datatype TriggerTraceMode = NotPresent | Invalid | Relaxed | Strict {
    predicate Enabled() {
      Relaxed? || Strict?
    }

    predicate Requested() {
      !NotPresent?
    }
  }

  /** The local sampling configuration; `samplingConfigured` says whether rate or mode were set at all. */
  datatype LocalConfig = LocalConfig(samplingConfigured: bool, sampleRate: int, tracingMode: string, triggerTrace: bool)

  /** What the remote collector sends. */
  datatype UpdateArgs = UpdateArgs(
    flags: string, value: int, ttl: int, triggerToken: string,
    bucketCapacity: real, bucketRate: real,
    relaxedCapacity: real, relaxedRate: real,
    strictCapacity: real, strictRate: real)

  datatype Generation = Generation(
    timestamp: int, flags: Flags, originalFlags: Flags, value: int, source: SampleSource, ttl: int, triggerToken: string,
    bucket: Bucket, relaxed: Bucket, strict: Bucket)
  {
    predicate HasOverrideFlag() {
      Has(originalFlags, FLAG_OVERRIDE)
    }
  }

  const MAX_SAMPLE_RATE: int := 1000000

  function AdjustSampleRate(rate: int): int {
    if rate < 0 then 0 else if rate > MAX_SAMPLE_RATE then MAX_SAMPLE_RATE else rate
  }

  /** The settings as received, before local configuration is merged in. */
  function Received(args: UpdateArgs, now: int): Generation {
    Generation(
      now, ParseFlags(args.flags), ParseFlags(args.flags), AdjustSampleRate(args.value), SourceDefault, args.ttl, args.triggerToken,
      Fresh(args.bucketRate, args.bucketCapacity),
      Fresh(args.relaxedRate, args.relaxedCapacity),
      Fresh(args.strictRate, args.strictCapacity))
  }

  /** A configured local rate replaces the remote one, except that under OVERRIDE it can only lower it. */
  predicate LocalRateWins(g: Generation, local: LocalConfig) {
    local.samplingConfigured && (g.HasOverrideFlag() ==> g.value > local.sampleRate)
  }

  function MergedFlags(g: Generation, local: LocalConfig): Flags {
    var localFlags := ModeFlags(NewTracingMode(local.tracingMode));
    var flags :=
      if !local.samplingConfigured then g.flags
      else if g.HasOverrideFlag() then Meet(g.flags, localFlags)
      else localFlags;
    if local.triggerTrace then flags else Clear(flags, FLAG_TRIGGER_TRACE)
  }

  function MergeLocal(g: Generation, local: LocalConfig): Generation {
    var wins := LocalRateWins(g, local);
    g.(value := if wins then local.sampleRate else g.value,
       source := if wins then SourceFile else g.source,
       flags := MergedFlags(g, local))
  }

  /** The rate, flags and source for a request whose URL has the given tracing mode. */
  function MergeUrl(g: Generation, mode: TracingMode): (int, Flags, SampleSource) {
    if mode == TraceUnknown then (g.value, g.flags, g.source)
    else if g.HasOverrideFlag() then (g.value, Meet(ModeFlags(mode), g.originalFlags), SourceFile)
    else (g.value, ModeFlags(mode), SourceFile)
  }

  function BucketSetting(g: Generation, mode: TriggerTraceMode): (real, real) {
    var b := match mode
      case Relaxed => g.relaxed
      case Strict => g.strict
      case _ => g.bucket;
    (b.capacity, b.ratePerSec)
  }

  class Settings {
    var timestamp: int
    var flags: Flags
    var originalFlags: Flags
    var value: int
    var source: SampleSource
    var ttl: int
    var triggerToken: string
    const bucket: TokenBucket
    const triggerTraceRelaxedBucket: TokenBucket
    const triggerTraceStrictBucket: TokenBucket

    ghost const Buckets: set<object> := {bucket, triggerTraceRelaxedBucket, triggerTraceStrictBucket}

    ghost predicate Valid() {
      && bucket != triggerTraceRelaxedBucket
      && bucket != triggerTraceStrictBucket
      && triggerTraceRelaxedBucket != triggerTraceStrictBucket
    }

    ghost function View(): Generation
      reads this, Buckets
    {
      Generation(timestamp, flags, originalFlags, value, source, ttl, triggerToken,
                 bucket.View(), triggerTraceRelaxedBucket.View(), triggerTraceStrictBucket.View())
    }

    ghost function ChosenBucket(mode: TriggerTraceMode): TokenBucket {
      match mode
      case Relaxed => triggerTraceRelaxedBucket
      case Strict => triggerTraceStrictBucket
      case _ => bucket
    }

    constructor ()
      ensures Valid() && fresh(Buckets)
      ensures View() == Generation(ZERO_TIME, FLAG_OK, FLAG_OK, 0, SourceNone, 0, "", EMPTY_BUCKET, EMPTY_BUCKET, EMPTY_BUCKET)
    {
      timestamp, flags, originalFlags, value, source, ttl, triggerToken := ZERO_TIME, FLAG_OK, FLAG_OK, 0, SourceNone, 0, "";
      bucket := new TokenBucket();
      triggerTraceRelaxedBucket := new TokenBucket();
      triggerTraceStrictBucket := new TokenBucket();
    }

    method MergeLocalSetting(local: LocalConfig)
      modifies this`value, this`flags, this`source
      ensures View() == MergeLocal(old(View()), local)
    {
      hide NewTracingMode;
      hide ModeFlags;
      hide Meet;
      hide Clear;
      hide Has;
      var hasOverrideFlag := Has(originalFlags, FLAG_OVERRIDE);
      if hasOverrideFlag && local.samplingConfigured {
        if value > local.sampleRate {
          value := local.sampleRate;
          source := SourceFile;
        }
        flags := Meet(flags, ModeFlags(NewTracingMode(local.tracingMode)));
      } else if local.samplingConfigured {
        value := local.sampleRate;
        flags := ModeFlags(NewTracingMode(local.tracingMode));
        source := SourceFile;
      }
      if !local.triggerTrace {
        flags := Clear(flags, FLAG_TRIGGER_TRACE);
      }
    }

    method MergeURLSetting(urls: Urls, url: string, stored: bool) returns (rate: int, effective: Flags, from: SampleSource)
      requires Coherent(urls.View())
      modifies urls
      ensures (rate, effective, from) == MergeUrl(View(), Answer(urls.filters, url))
      ensures Coherent(urls.View()) && urls.filters == old(urls.filters)
    {
      if url == "" {
        return value, flags, source;
      }
      var mode := urls.GetTracingMode(url, stored);
      if mode == TraceUnknown {
        return value, flags, source;
      }
      effective := ModeFlags(mode);
      if Has(originalFlags, FLAG_OVERRIDE) {
        effective := Meet(effective, originalFlags);
      }
      return value, effective, SourceFile;
    }

    method GetTokenBucketSetting(mode: TriggerTraceMode) returns (capacity: real, rate: real)
      ensures (capacity, rate) == BucketSetting(View(), mode)
    {
      var b := bucket;
      match mode {
        case Relaxed => b := triggerTraceRelaxedBucket;
        case Strict => b := triggerTraceStrictBucket;
        case _ =>
      }
      return b.capacity, b.ratePerSec;
    }
  }

  // ---------- what merging does, flag by flag ----------

  /** A remote rate within the range is taken as it is, another one as the nearer end. */
  lemma RateIsClamped(rate: int)
    ensures var r := AdjustSampleRate(rate);
            0 <= r <= 1000000 && (0 <= rate <= 1000000 ==> r == rate) && (rate < 0 ==> r == 0) && (1000000 < rate ==> r == 1000000)
  {
  }

  lemma ModesAllow(mode: string)
    ensures ModeFlags(NewTracingMode(mode)) == if mode == "enabled" then 0x34 else 0x0
  {
    assert "enabled"[0] == 'e' && "disabled"[0] == 'd';
  }

  lemma ClearsTriggerTrace(f: Flags)
    ensures Clear(f, FLAG_TRIGGER_TRACE) & 0x20 == 0 && Clear(f, FLAG_TRIGGER_TRACE) & !0x20 == f & !0x20
    ensures Clear(0x34, FLAG_TRIGGER_TRACE) == 0x14 && Clear(0x0, FLAG_TRIGGER_TRACE) == 0x0
    ensures Clear(f, FLAG_TRIGGER_TRACE) == f & 0xFFDF
    ensures Clear(f & 0x34, FLAG_TRIGGER_TRACE) == f & 0x14 && Clear(f & 0x0, FLAG_TRIGGER_TRACE) == 0x0
  {
  }

  /**
    What local configuration makes of received settings. Without OVERRIDE (0x2) it replaces rate and flags:
    SAMPLE_START (0x4) and SAMPLE_THROUGH_ALWAYS (0x10) exactly when the mode is enabled, and TRIGGER_TRACE
    (0x20) exactly when also the switch is on. With OVERRIDE it only takes away: the lower rate counts, and
    of the flags received those that the mode and the switch allow. When none is configured, only the
    switch counts. Nothing else changes.
   */
  lemma LocalConfigurationTells(g: Generation, local: LocalConfig)
    ensures var m := MergeLocal(g, local);
            var allowed: Flags := if local.tracingMode != "enabled" then 0x0 else if local.triggerTrace then 0x34 else 0x14;
            && (if !local.samplingConfigured then
                  m.flags == (if local.triggerTrace then g.flags else g.flags & 0xFFDF) && m.value == g.value && m.source == g.source
                else if g.originalFlags & 0x2 == 0 then
                  m.flags == allowed && m.value == local.sampleRate && m.source == SourceFile
                else
                  && m.flags == g.flags & allowed
                  && (if local.sampleRate < g.value then m.value == local.sampleRate && m.source == SourceFile
                      else m.value == g.value && m.source == g.source))
            && m == g.(flags := m.flags, value := m.value, source := m.source)
  {
    var allowed: Flags := if local.tracingMode != "enabled" then 0x0 else if local.triggerTrace then 0x34 else 0x14;
    FlagsMerged(g, local, allowed);
    hide MergedFlags;
  }

  lemma FlagsMerged(g: Generation, local: LocalConfig, allowed: Flags)
    requires allowed == if local.tracingMode != "enabled" then 0x0 else if local.triggerTrace then 0x34 else 0x14
    ensures MergedFlags(g, local) ==
              if !local.samplingConfigured then (if local.triggerTrace then g.flags else g.flags & 0xFFDF)
              else if g.originalFlags & 0x2 == 0 then allowed
              else g.flags & allowed
  {
    ModesAllow(local.tracingMode);
    ClearsTriggerTrace(g.flags);
    hide ModeFlags;
    hide NewTracingMode;
    hide Clear;
    assert g.flags & 0x0 == 0x0;
  }

  /** What a URL's tracing mode makes of the settings; an unknown mode, or no URL, changes nothing. */
  lemma UrlModeTells(g: Generation, mode: TracingMode)
    ensures MergeUrl(g, TraceUnknown) == (g.value, g.flags, g.source)
    ensures MergeUrl(g, TraceDisabled) == (g.value, 0x0, SourceFile)
    ensures MergeUrl(g, TraceEnabled) == (g.value, if g.originalFlags & 0x2 == 0 then 0x34 else g.originalFlags & 0x34, SourceFile)
  {
    MeetCommutes(0x34, g.originalFlags);
    MeetCommutes(0x0, g.originalFlags);
    assert g.originalFlags & 0x0 == 0x0;
  }

  /** Settings as received: each bucket has its own rate and capacity, and flags are kept twice. */
  lemma ReceivedTells(args: UpdateArgs, now: int)
    ensures var g := Received(args, now);
            && g.timestamp == now && g.ttl == args.ttl && g.triggerToken == args.triggerToken && g.source == SourceDefault
            && g.value == AdjustSampleRate(args.value) && g.flags == ParseFlags(args.flags) == g.originalFlags
            && g.bucket.ratePerSec == args.bucketRate && g.bucket.capacity == args.bucketCapacity
            && g.relaxed.ratePerSec == args.relaxedRate && g.relaxed.capacity == args.relaxedCapacity
            && g.strict.ratePerSec == args.strictRate && g.strict.capacity == args.strictCapacity
  {
    hide ParseFlags;
    hide AdjustSampleRate;
  }

  // ---------- precedence laws ----------

  lemma MeetTwice(f: Flags, m: Flags)
    ensures Meet(Meet(f, m), m) == Meet(f, m)
  {
  }

  lemma ClearTwice(f: Flags, t: Flags)
    ensures Clear(Clear(f, t), t) == Clear(f, t)
  {
  }

  lemma ClearThenMeet(f: Flags, m: Flags, t: Flags)
    ensures Meet(Clear(f, t), m) == Clear(Meet(f, m), t)
  {
  }

  lemma MeetNarrows(f: Flags, m: Flags)
    ensures Subset(Meet(f, m), f)
  {
  }

  lemma MeetCommutes(f: Flags, m: Flags)
    ensures Meet(f, m) == Meet(m, f) && Meet(f, f) == f
  {
  }

  lemma ClearNarrows(f: Flags, g: Flags, t: Flags)
    requires Subset(g, f)
    ensures Subset(Clear(g, t), f)
  {
  }

  /** Merging the local configuration again changes nothing. */
  lemma MergeLocalIsIdempotent(g: Generation, local: LocalConfig)
    ensures MergeLocal(MergeLocal(g, local), local) == MergeLocal(g, local)
  {
    hide NewTracingMode;
    hide ModeFlags;
    hide Meet;
    hide Clear;
    hide Has;
    var f, m := g.flags, ModeFlags(NewTracingMode(local.tracingMode));
    MeetTwice(f, m);
    ClearThenMeet(Meet(f, m), m, FLAG_TRIGGER_TRACE);
    ClearTwice(f, FLAG_TRIGGER_TRACE);
    ClearTwice(m, FLAG_TRIGGER_TRACE);
    ClearTwice(Meet(f, m), FLAG_TRIGGER_TRACE);
  }

  /** With OVERRIDE the local configuration only takes flags away and only lowers the rate. */
  lemma LocalContainment(g: Generation, local: LocalConfig)
    requires g.HasOverrideFlag() && g.flags == g.originalFlags
    ensures var m := MergeLocal(g, local);
            m.originalFlags == g.originalFlags && m.value <= g.value && Subset(m.flags, g.originalFlags)
  {
    hide NewTracingMode;
    hide ModeFlags;
    hide Meet;
    hide Clear;
    hide Has;
    hide Subset;
    var f := g.flags;
    var m := ModeFlags(NewTracingMode(local.tracingMode));
    MeetNarrows(f, m);
    MeetNarrows(f, f);
    MeetCommutes(f, f);
    ClearNarrows(f, f, FLAG_TRIGGER_TRACE);
    ClearNarrows(f, Meet(f, m), FLAG_TRIGGER_TRACE);
  }

  /** With OVERRIDE a URL filter adds no flag to those that were sent and leaves the rate alone. */
  lemma UrlContainment(g: Generation, mode: TracingMode)
    requires g.HasOverrideFlag() && Subset(g.flags, g.originalFlags)
    ensures var (rate, flags, _) := MergeUrl(g, mode);
            rate == g.value && Subset(flags, g.originalFlags)
  {
    hide ModeFlags;
    hide Meet;
    hide Has;
    hide Subset;
    MeetNarrows(g.originalFlags, ModeFlags(mode));
    MeetCommutes(g.originalFlags, ModeFlags(mode));
  }

  /**
    An OVERRIDE sent by the collector bounds every effective setting: neither local configuration nor any
    URL filter adds a flag that was not sent, or raises the rate above the clamped rate that was sent.
   */
  lemma OverrideContainment(args: UpdateArgs, now: int, local: LocalConfig, mode: TracingMode)
    requires Has(ParseFlags(args.flags), FLAG_OVERRIDE)
    ensures var (rate, flags, _) := MergeUrl(MergeLocal(Received(args, now), local), mode);
            rate <= AdjustSampleRate(args.value) && Subset(flags, ParseFlags(args.flags))
  {
    hide ParseFlags;
    hide MergeLocal;
    hide MergeUrl;
    hide Has;
    hide Subset;
    hide Fresh;
    LocalContainment(Received(args, now), local);
    UrlContainment(MergeLocal(Received(args, now), local), mode);
  }

  lemma TriggerTraceLaws(f: Flags, m: TracingMode)
    ensures !TriggerTraceEnabled(Clear(f, FLAG_TRIGGER_TRACE))
    ensures TriggerTraceEnabled(ModeFlags(m)) <==> m == TraceEnabled
    ensures TriggerTraceEnabled(Meet(ModeFlags(m), f)) <==> m == TraceEnabled && TriggerTraceEnabled(f)
  {
  }

  /**
    Switching trigger tracing off locally does not always win: a URL filter with mode enabled turns it
    back on, unless OVERRIDE was sent without TRIGGER_TRACE. This is exactly when it happens.
   */
  lemma TriggerTraceSwitchedOffStillOn(args: UpdateArgs, now: int, local: LocalConfig, mode: TracingMode)
    requires !local.triggerTrace
    ensures var g := Received(args, now);
            var (_, flags, _) := MergeUrl(MergeLocal(g, local), mode);
            TriggerTraceEnabled(flags) <==> mode == TraceEnabled && (g.HasOverrideFlag() ==> TriggerTraceEnabled(g.originalFlags))
  {
    hide ParseFlags;
    hide NewTracingMode;
    hide ModeFlags;
    hide Meet;
    hide Clear;
    hide Has;
    hide TriggerTraceEnabled;
    hide Fresh;
    var f, m := ParseFlags(args.flags), ModeFlags(NewTracingMode(local.tracingMode));
    TriggerTraceLaws(f, mode);
    TriggerTraceLaws(m, mode);
    TriggerTraceLaws(Meet(f, m), mode);
  }
}
