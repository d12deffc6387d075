/**
  Laws of whole runs of the sampling engine: token accounting, the bound per settings generation, and
  what raising the sample rate does (internal/oboe/oboe.go with internal/oboe/token_bucket.go).
 */
module Runs {
  import opened Wrappers
  import opened Metrics
  import opened TokenBuckets
  import opened UrlFilters
  import opened SamplingSettings
  import opened Oboe

  /** Everything that can happen to the engine, in any order. */
  datatype Event =
    | Arrive(req: Request)
    | Update(args: UpdateArgs, local: LocalConfig, now: int)
    | Remove
    | Timeout(now: int)
    | Flush

  function Apply(w: World, filters: seq<UrlFilter>, event: Event): World {
    match event
    case Arrive(req) => Sample(w, filters, req).0
    case Update(args, local, now) => Install(w, args, local, now)
    case Remove => w.(settings := None)
    case Timeout(now) => CheckTimeout(w, now)
    case Flush => if w.settings.Some? then w.(counts := NO_COUNTS) else w
  }

  /** An event is what the engine does with it. */
  method Perform(engine: Engine, event: Event, stored: bool)
    requires engine.Valid()
    modifies engine, engine.counts, engine.urls, engine.Buckets()
    ensures engine.Valid() && engine.urls.filters == old(engine.urls.filters)
    ensures engine.View() == Apply(old(engine.View()), engine.urls.filters, event)
  {
    hide Sample;
    hide Coherent;
    match event
    case Arrive(req) =>
      var _ := engine.SampleRequest(req, stored);
    case Update(args, local, now) => engine.UpdateSetting(args, local, now);
    case Remove => engine.RemoveSetting();
    case Timeout(now) => engine.CheckSettingsTimeout(now);
    case Flush =>
      var _ := engine.FlushRateCounts();
  }

  function ApplyAll(w: World, filters: seq<UrlFilter>, events: seq<Event>): World
    decreases events
  {
    if events == [] then w else ApplyAll(Apply(w, filters, events[0]), filters, events[1..])
  }

  // ---------- tracing disabled ----------

  predicate DisabledLocally(local: LocalConfig) {
    local.samplingConfigured && local.tracingMode == "disabled"
  }

  ghost predicate NoFlags(w: World) {
    w.settings.Some? ==> w.settings.value.flags == 0x0
  }

  lemma DisabledMeansNoFlags(w: World, args: UpdateArgs, local: LocalConfig, now: int)
    requires DisabledLocally(local)
    ensures NoFlags(Install(w, args, local, now))
  {
    assert "enabled"[0] == 'e' && "disabled"[0] == 'd';
    LocalConfigurationTells(Received(args, now), local);
    assert Received(args, now).flags & 0x0 == 0x0;
    hide Received;
    hide MergeLocal;
  }

  lemma RequestsLeaveFlags(w: World, filters: seq<UrlFilter>, req: Request)
    requires NoFlags(w)
    ensures NoFlags(Sample(w, filters, req).0)
    ensures Answer(filters, req.url) != TraceEnabled ==> !Sample(w, filters, req).1.trace && !Sample(w, filters, req).1.enabled
  {
    if w.settings.Some? {
      var (g, mode) := (w.settings.value, Answer(filters, req.url));
      EffectsTell(g, w.counts, mode, req);
      DecisionsTell(g, w.counts, mode, req);
      UrlModeTells(g, mode);
      hide SampleWith;
      hide MergeUrl;
      hide Bucket.Consume;
    }
  }

  /**
    With tracing configured as disabled in every update, no request is ever traced unless a URL filter
    enables it, whatever the collector sends and whatever happens before.
   */
  lemma {:induction false} DisabledNeverTraces(w: World, filters: seq<UrlFilter>, events: seq<Event>, req: Request)
    requires NoFlags(w) && forall i :: 0 <= i < |events| && events[i].Update? ==> DisabledLocally(events[i].local)
    requires Answer(filters, req.url) != TraceEnabled
    ensures !Sample(ApplyAll(w, filters, events), filters, req).1.trace
    decreases events
  {
    hide Sample;
    hide Install;
    if events == [] {
      RequestsLeaveFlags(w, filters, req);
    } else {
      match events[0] {
        case Arrive(first) => RequestsLeaveFlags(w, filters, first);
        case Update(args, local, now) => DisabledMeansNoFlags(w, args, local, now);
        case _ =>
      }
      DisabledNeverTraces(Apply(w, filters, events[0]), filters, events[1..], req);
    }
  }

  // ---------- token accounting ----------

  /** Seen from outside: after a refill at `now` exactly one token is gone. */
  ghost predicate LostToken(before: Bucket, after: Bucket, now: int) {
    after == before.Update(now).(available := before.Update(now).available - 1.0)
  }

  lemma UntouchedLostNothing(b: Bucket, now: int)
    ensures !LostToken(b, b, now)
  {
    hide Tokens;
  }

  lemma CountingSpends(b: Bucket, c: Counters, sampled: bool, hasMetadata: bool, rateLimit: bool, isTriggerTrace: bool, now: int)
    ensures var r := CountRequest(b, c, sampled, hasMetadata, rateLimit, isTriggerTrace, now);
            LostToken(b, r.bucket, now) <==> rateLimit && r.traced
  {
    UntouchedLostNothing(b, now);
    hide Tokens;
  }

  /** The counters of a run, flushed or not, and the tokens its buckets were seen to lose. */
  datatype Ledger = Ledger(world: World, reported: Counters, main: nat, relaxed: nat, strict: nat, continued: nat)

  function Totals(l: Ledger): Counters {
    l.reported.Plus(l.world.counts)
  }

  ghost function Post(l: Ledger, filters: seq<UrlFilter>, event: Event): Ledger {
    var w := Apply(l.world, filters, event);
    match event
    case Arrive(req) =>
      if l.world.settings.Some? && w.settings.Some? then
        var (g, h) := (l.world.settings.value, w.settings.value);
        l.(world := w,
           main := l.main + Unit(LostToken(g.bucket, h.bucket, req.now)),
           relaxed := l.relaxed + Unit(LostToken(g.relaxed, h.relaxed, req.now)),
           strict := l.strict + Unit(LostToken(g.strict, h.strict, req.now)),
           continued := l.continued + Unit(req.continued))
      else l.(world := w)
    case Flush => l.(world := w, reported := if w.settings.Some? then l.reported.Plus(l.world.counts) else l.reported)
    case _ => l.(world := w)
  }

  ghost function PostAll(l: Ledger, filters: seq<UrlFilter>, events: seq<Event>): Ledger
    decreases events
  {
    if events == [] then l else PostAll(Post(l, filters, events[0]), filters, events[1..])
  }

  const OPENING := Ledger(World(None, NO_COUNTS), NO_COUNTS, 0, 0, 0, 0)

  /**
    Traced minus through is every token lost; triggered traces are the tokens of the two trigger-trace
    buckets, so the rest are tokens of the main bucket; requested minus sampled are the continued
    requests; and every sampled request is limited or pays at most once.
   */
  ghost predicate Balanced(l: Ledger) {
    var t := Totals(l);
    && t.traced - t.through == l.main + l.relaxed + l.strict
    && t.ttraced == l.relaxed + l.strict
    && t.traced - t.through - t.ttraced == l.main
    && t.requested - t.sampled == l.continued
    && t.limited + l.main + l.relaxed + l.strict <= t.sampled
  }

  lemma ArrivalBalances(l: Ledger, filters: seq<UrlFilter>, req: Request)
    requires Balanced(l)
    ensures Balanced(Post(l, filters, Arrive(req)))
    ensures req.continued ==>
              var p := Post(l, filters, Arrive(req));
              p.main == l.main && p.relaxed == l.relaxed && p.strict == l.strict
  {
    hide LostToken;
    hide Bucket.Update;
    hide Bucket.Consume;
    hide MergeUrl;
    hide Answer;
    hide TriggerTraceEnabled;
    hide Has;
    hide SamplingSettings.Enabled;
    hide ShouldSample;
    if l.world.settings.Some? {
      var g := l.world.settings.value;
      UntouchedLostNothing(g.bucket, req.now);
      UntouchedLostNothing(g.relaxed, req.now);
      UntouchedLostNothing(g.strict, req.now);
      var (rate, flags, _) := MergeUrl(g, Answer(filters, req.url));
      var b := BucketFor(g, req.triggerTrace);
      if IsTriggered(req) {
        CountingSpends(b, l.world.counts, req.triggerTrace != Invalid && TriggerTraceEnabled(flags), false, true, true, req.now);
      } else {
        var sampled := Roll(flags, rate, req).0;
        CountingSpends(b, l.world.counts, sampled, req.continued, sampled && !req.continued, false, req.now);
      }
    }
  }

  lemma {:induction false} RunBalances(l: Ledger, filters: seq<UrlFilter>, events: seq<Event>)
    requires Balanced(l)
    ensures Balanced(PostAll(l, filters, events))
    decreases events
  {
    if events != [] {
      if events[0].Arrive? {
        ArrivalBalances(l, filters, events[0].req);
      }
      RunBalances(Post(l, filters, events[0]), filters, events[1..]);
    }
  }

  lemma NothingCountedBalances(l: Ledger)
    requires Totals(l) == NO_COUNTS && l.main == l.relaxed == l.strict == l.continued == 0
    ensures Balanced(l)
  {
    hide Totals;
  }

  /**
    Over every run of requests, settings updates, removals, expiries and flushes, the counters account
    for the tokens the buckets were seen to lose.
   */
  lemma {:induction false} TokensAreAccountedFor(filters: seq<UrlFilter>, events: seq<Event>)
    ensures Balanced(PostAll(OPENING, filters, events))
  {
    hide Balanced;
    NothingCountedBalances(OPENING);
    hide PostAll;
    RunBalances(OPENING, filters, events);
  }

  // ---------- one generation at a time ----------

  /** One of the three buckets of a generation; the main one is that of requests without trigger-trace. */
  type BucketMode = mode: TriggerTraceMode | mode != Invalid witness NotPresent

  /** A bucket's settings in one generation and the times at which it was asked for a token. */
  datatype Use = Use(rate: real, capacity: real, attempts: seq<int>)

  datatype Book = Book(world: World, uses: seq<Use>, newTraces: nat)

  function FirstUse(args: UpdateArgs, mode: BucketMode): Use {
    match mode
    case Relaxed => Use(args.relaxedRate, args.relaxedCapacity, [])
    case Strict => Use(args.strictRate, args.strictCapacity, [])
    case _ => Use(args.bucketRate, args.bucketCapacity, [])
  }

  /** A trace that this service starts on a roll of the dice. */
  predicate IsNewTrace(req: Request, d: SampleDecision) {
    d.trace && d.diceRolled && !req.continued
  }

  /** The dice chose the request, so the main bucket is asked. */
  predicate IsAttempt(req: Request, d: SampleDecision) {
    d.diceRolled && !req.continued && ShouldSample(d.rate, req.dice)
  }

  /** The answer says that a bucket for triggered requests was asked. */
  predicate AnswersTriggered(rsp: string) {
    rsp == TT_OK || rsp == TT_RATE_EXCEEDED
  }

  /** The request asks that bucket for a token, told from the request and the decision. */
  predicate IsAttemptOn(mode: BucketMode, req: Request, d: SampleDecision) {
    if mode.NotPresent? then IsAttempt(req, d)
    else IsTriggered(req) && req.triggerTrace == mode && AnswersTriggered(d.xTraceOptsRsp)
  }

  /** The request starts a trace that the bucket has to pay for. */
  predicate IsTraceOn(mode: BucketMode, req: Request, d: SampleDecision) {
    if mode.NotPresent? then IsNewTrace(req, d) else IsTriggered(req) && req.triggerTrace == mode && d.trace
  }

  ghost function Enter(b: Book, mode: BucketMode, filters: seq<UrlFilter>, event: Event): Book {
    var w := Apply(b.world, filters, event);
    match event
    case Arrive(req) =>
      var d := Sample(b.world, filters, req).1;
      Book(w,
           if IsAttemptOn(mode, req, d) && b.uses != [] then
             b.uses[|b.uses| - 1 := b.uses[|b.uses| - 1].(attempts := b.uses[|b.uses| - 1].attempts + [req.now])]
           else b.uses,
           b.newTraces + Unit(IsTraceOn(mode, req, d)))
    case Update(args, _, _) => Book(w, b.uses + [FirstUse(args, mode)], b.newTraces)
    case _ => b.(world := w)
  }

  ghost function EnterAll(b: Book, mode: BucketMode, filters: seq<UrlFilter>, events: seq<Event>): Book
    decreases events
  {
    if events == [] then b else EnterAll(Enter(b, mode, filters, events[0]), mode, filters, events[1..])
  }

  function GrantsOf(uses: seq<Use>): nat {
    if uses == [] then 0
    else GrantsOf(uses[..|uses| - 1]) + Grants(Fresh(uses[|uses| - 1].rate, uses[|uses| - 1].capacity), uses[|uses| - 1].attempts)
  }

  /** Capacity plus rate times elapsed time, added over the generations. */
  function Allowance(uses: seq<Use>): real {
    if uses == [] then 0.0
    else
      var u := uses[|uses| - 1];
      Allowance(uses[..|uses| - 1]) + (Pos(u.capacity) + Tokens(Pos(u.rate), ForwardMoves(u.attempts)))
  }

  ghost predicate Tracks(b: Book, mode: BucketMode) {
    && b.newTraces == GrantsOf(b.uses)
    && (b.world.settings.Some? ==>
          b.uses != [] && var u := b.uses[|b.uses| - 1];
          BucketFor(b.world.settings.value, mode) == After(Fresh(u.rate, u.capacity), u.attempts))
  }

  lemma AfterOneMore(b: Bucket, ts: seq<int>, now: int)
    ensures After(b, ts + [now]) == After(b, ts).Consume(1.0, now).bucket
    ensures Grants(b, ts + [now]) == Grants(b, ts) + Unit(After(b, ts).Consume(1.0, now).granted)
  {
    hide Bucket.Consume;
    RunSplits(b, ts, [now]);
    assert After(After(b, ts), [now]) == After(After(b, ts).Consume(1.0, now).bucket, []);
    assert Grants(After(b, ts), [now]) == Unit(After(b, ts).Consume(1.0, now).granted) + Grants(After(b, ts).Consume(1.0, now).bucket, []);
  }

  /** A request moves the main bucket exactly when it is an attempt, and starts a trace exactly when that is granted. */
  lemma ArrivalUsesMainBucket(w: World, filters: seq<UrlFilter>, req: Request)
    requires w.settings.Some?
    ensures var (v, d) := Sample(w, filters, req);
            var b := w.settings.value.bucket;
            && v.settings.Some?
            && v.settings.value.bucket == (if IsAttempt(req, d) then b.Consume(1.0, req.now).bucket else b)
            && (IsNewTrace(req, d) <==> IsAttempt(req, d) && b.Consume(1.0, req.now).granted)
  {
    hide Bucket.Consume;
    hide MergeUrl;
    hide Answer;
    hide TriggerTraceEnabled;
    hide Has;
    hide SamplingSettings.Enabled;
    hide ShouldSample;
  }

  /** What the answer to a triggered request says about the flags. */
  lemma TriggeredAnswer(flags: Flags, mode: TriggerTraceMode, traced: bool)
    requires mode.Requested()
    ensures AnswersTriggered(TriggerTraceResponse(flags, mode, traced)) <==> TriggerTraceEnabled(flags) && mode.Enabled()
  {
    assert TT_OK[0] == 'o' && TT_RATE_EXCEEDED[0] == 'r' && TT_TRACING_DISABLED[0] == 't' && TT_TRIGGER_TRACING_DISABLED[0] == 't';
  }

  /** The same for a bucket for triggered requests: it is asked exactly when the answer says so. */
  lemma ArrivalUsesTriggerBucket(w: World, mode: BucketMode, filters: seq<UrlFilter>, req: Request)
    requires w.settings.Some? && !mode.NotPresent?
    ensures var (v, d) := Sample(w, filters, req);
            var b := BucketFor(w.settings.value, mode);
            && v.settings.Some?
            && BucketFor(v.settings.value, mode) == (if IsAttemptOn(mode, req, d) then b.Consume(1.0, req.now).bucket else b)
            && (IsTraceOn(mode, req, d) <==> IsAttemptOn(mode, req, d) && b.Consume(1.0, req.now).granted)
  {
    if IsTriggered(req) {
      var g := w.settings.value;
      var flags := MergeUrl(g, Answer(filters, req.url)).1;
      TriggeredAnswer(flags, req.triggerTrace, Sample(w, filters, req).1.trace);
    }
    hide Bucket.Consume;
    hide MergeUrl;
    hide Answer;
    hide TriggerTraceEnabled;
    hide Has;
    hide SamplingSettings.Enabled;
    hide ShouldSample;
    hide TriggerTraceResponse;
    hide AnswersTriggered;
  }

  lemma ArrivalUsesBucket(w: World, mode: BucketMode, filters: seq<UrlFilter>, req: Request)
    requires w.settings.Some?
    ensures var (v, d) := Sample(w, filters, req);
            var b := BucketFor(w.settings.value, mode);
            && v.settings.Some?
            && BucketFor(v.settings.value, mode) == (if IsAttemptOn(mode, req, d) then b.Consume(1.0, req.now).bucket else b)
            && (IsTraceOn(mode, req, d) <==> IsAttemptOn(mode, req, d) && b.Consume(1.0, req.now).granted)
  {
    hide Sample;
    hide Bucket.Consume;
    if mode.NotPresent? {
      ArrivalUsesMainBucket(w, filters, req);
    } else {
      ArrivalUsesTriggerBucket(w, mode, filters, req);
    }
  }

  lemma FirstUseIsUnused(args: UpdateArgs, mode: BucketMode)
    ensures var u := FirstUse(args, mode);
            u.attempts == [] && After(Fresh(u.rate, u.capacity), u.attempts) == Fresh(u.rate, u.capacity)
            && Grants(Fresh(u.rate, u.capacity), u.attempts) == 0
  {
    hide Fresh;
  }

  lemma InstalledBucket(args: UpdateArgs, local: LocalConfig, now: int, mode: BucketMode)
    ensures var u := FirstUse(args, mode);
            BucketFor(MergeLocal(Received(args, now), local), mode) == Fresh(u.rate, u.capacity)
  {
    hide Fresh;
    hide ParseFlags;
    hide MergedFlags;
  }

  lemma WithoutSettings(w: World, filters: seq<UrlFilter>, req: Request)
    requires w.settings.None?
    ensures Sample(w, filters, req) == (w, NO_SETTINGS_DECISION)
    ensures NO_SETTINGS_DECISION == SampleDecision(false, 0, SourceNone, false, "settings-not-available", 0.0, 0.0, false)
  {
  }

  lemma NoSettingsNoAttempt(mode: BucketMode, req: Request)
    ensures !IsAttemptOn(mode, req, NO_SETTINGS_DECISION) && !IsTraceOn(mode, req, NO_SETTINGS_DECISION)
  {
    assert TT_OK[0] == 'o' && TT_RATE_EXCEEDED[0] == 'r' && TT_SETTINGS_NOT_AVAILABLE[0] == 's';
  }

  lemma EntryTracks(b: Book, mode: BucketMode, filters: seq<UrlFilter>, event: Event)
    requires Tracks(b, mode)
    ensures Tracks(Enter(b, mode, filters, event), mode)
  {
    hide Bucket.Consume;
    hide Sample;
    hide Received;
    hide MergeLocal;
    hide Fresh;
    hide FirstUse;
    hide BucketFor;
    hide IsAttemptOn;
    hide IsTraceOn;
    match event
    case Arrive(req) =>
      if b.world.settings.Some? {
        var u := b.uses[|b.uses| - 1];
        ArrivalUsesBucket(b.world, mode, filters, req);
        AfterOneMore(Fresh(u.rate, u.capacity), u.attempts, req.now);
        var uses := Enter(b, mode, filters, event).uses;
        assert uses[..|uses| - 1] == b.uses[..|b.uses| - 1];
      } else {
        WithoutSettings(b.world, filters, req);
        NoSettingsNoAttempt(mode, req);
      }
    case Update(args, local, now) =>
      InstalledBucket(args, local, now, mode);
      FirstUseIsUnused(args, mode);
      var uses := Enter(b, mode, filters, event).uses;
      assert uses[..|uses| - 1] == b.uses;
    case _ =>
  }

  lemma {:induction false} RunTracks(b: Book, mode: BucketMode, filters: seq<UrlFilter>, events: seq<Event>)
    requires Tracks(b, mode)
    ensures Tracks(EnterAll(b, mode, filters, events), mode)
    decreases events
  {
    hide Tracks;
    hide Enter;
    if events != [] {
      EntryTracks(b, mode, filters, events[0]);
      RunTracks(Enter(b, mode, filters, events[0]), mode, filters, events[1..]);
    }
  }

  lemma {:induction false} AllowanceCovers(uses: seq<Use>)
    ensures GrantsOf(uses) as real <= Allowance(uses)
  {
    hide Tokens;
    hide Fresh;
    if uses != [] {
      var u := uses[|uses| - 1];
      AllowanceCovers(uses[..|uses| - 1]);
      WindowedRateBound(u.rate, u.capacity, u.attempts, 0, |u.attempts|);
      assert u.attempts[..0] == [] && u.attempts[0..|u.attempts|] == u.attempts;
      assert After(Fresh(u.rate, u.capacity), []) == Fresh(u.rate, u.capacity);
    }
  }

  /**
    Over every run that mixes requests with settings updates, removals and expiries, and for each of the
    three buckets, the traces it pays for are exactly the grants that each generation's own fresh bucket
    gives on its own attempts, and so at most capacity plus rate times elapsed time, added over the
    generations.
   */
  lemma NewTracesPerGeneration(mode: BucketMode, filters: seq<UrlFilter>, events: seq<Event>)
    ensures var b := EnterAll(Book(World(None, NO_COUNTS), [], 0), mode, filters, events);
            b.newTraces == GrantsOf(b.uses) && b.newTraces as real <= Allowance(b.uses)
  {
    var start := Book(World(None, NO_COUNTS), [], 0);
    RunTracks(start, mode, filters, events);
    AllowanceCovers(EnterAll(start, mode, filters, events).uses);
  }

  // ---------- requests that finish on settings already replaced ----------

  /**
    A request in two steps. It loads the settings pointer, which changes nothing, and later finishes on the
    generation that it loaded, whatever was published or removed in between. So a request may finish on
    any generation published so far.
   */
  datatype SplitEvent =
    | Publish(args: UpdateArgs, local: LocalConfig, now: int)
    | Finish(generation: nat, req: Request)

  /** Every generation published so far, whether or not it is still in place, with the uses of one of its buckets. */
  datatype SplitBook = SplitBook(generations: seq<Generation>, counts: Counters, uses: seq<Use>, newTraces: nat)

  function EnterSplit(b: SplitBook, mode: BucketMode, filters: seq<UrlFilter>, event: SplitEvent): SplitBook
    requires |b.generations| == |b.uses|
  {
    match event
    case Publish(args, local, now) =>
      b.(generations := b.generations + [MergeLocal(Received(args, now), local)],
         uses := b.uses + [FirstUse(args, mode)])
    case Finish(k, req) =>
      if k < |b.generations| then
        var (w, d) := SampleWith(b.generations[k], b.counts, Answer(filters, req.url), req);
        SplitBook(
          if w.settings.Some? then b.generations[k := w.settings.value] else b.generations,
          w.counts,
          if IsAttemptOn(mode, req, d) then b.uses[k := b.uses[k].(attempts := b.uses[k].attempts + [req.now])] else b.uses,
          b.newTraces + Unit(IsTraceOn(mode, req, d)))
      else b
  }

  function EnterAllSplit(b: SplitBook, mode: BucketMode, filters: seq<UrlFilter>, events: seq<SplitEvent>): SplitBook
    requires |b.generations| == |b.uses|
    decreases events
  {
    if events == [] then b else EnterAllSplit(EnterSplit(b, mode, filters, events[0]), mode, filters, events[1..])
  }

  ghost predicate TracksAll(b: SplitBook, mode: BucketMode) {
    && |b.generations| == |b.uses|
    && b.newTraces == GrantsOf(b.uses)
    && forall k :: 0 <= k < |b.uses| ==> BucketFor(b.generations[k], mode) == After(Fresh(b.uses[k].rate, b.uses[k].capacity), b.uses[k].attempts)
  }

  lemma {:induction false} GrantsOfUpdated(uses: seq<Use>, k: nat, u: Use)
    requires k < |uses|
    ensures GrantsOf(uses[k := u]) + Grants(Fresh(uses[k].rate, uses[k].capacity), uses[k].attempts)
         == GrantsOf(uses) + Grants(Fresh(u.rate, u.capacity), u.attempts)
  {
    hide Grants;
    hide Fresh;
    var n := |uses| - 1;
    if k < n {
      GrantsOfUpdated(uses[..n], k, u);
      assert uses[k := u][..n] == uses[..n][k := u];
    } else {
      assert uses[k := u][..n] == uses[..n];
    }
  }

  lemma FinishTracks(b: SplitBook, mode: BucketMode, filters: seq<UrlFilter>, k: nat, req: Request)
    requires TracksAll(b, mode) && k < |b.generations|
    ensures TracksAll(EnterSplit(b, mode, filters, Finish(k, req)), mode)
  {
    hide Bucket.Consume;
    hide SampleWith;
    hide Fresh;
    hide BucketFor;
    hide IsAttemptOn;
    hide IsTraceOn;
    var u := b.uses[k];
    var w := World(Some(b.generations[k]), b.counts);
    assert Sample(w, filters, req) == SampleWith(b.generations[k], b.counts, Answer(filters, req.url), req);
    ArrivalUsesBucket(w, mode, filters, req);
    AfterOneMore(Fresh(u.rate, u.capacity), u.attempts, req.now);
    GrantsOfUpdated(b.uses, k, u.(attempts := u.attempts + [req.now]));
    hide Sample;
    hide Grants;
    hide After;
  }

  lemma PublishTracks(b: SplitBook, mode: BucketMode, filters: seq<UrlFilter>, event: SplitEvent)
    requires TracksAll(b, mode) && event.Publish?
    ensures TracksAll(EnterSplit(b, mode, filters, event), mode)
  {
    hide Fresh;
    hide Received;
    hide MergeLocal;
    hide FirstUse;
    hide BucketFor;
    InstalledBucket(event.args, event.local, event.now, mode);
    FirstUseIsUnused(event.args, mode);
    var uses := EnterSplit(b, mode, filters, event).uses;
    assert uses[..|uses| - 1] == b.uses;
  }

  lemma {:induction false} RunTracksAll(b: SplitBook, mode: BucketMode, filters: seq<UrlFilter>, events: seq<SplitEvent>)
    requires TracksAll(b, mode)
    ensures TracksAll(EnterAllSplit(b, mode, filters, events), mode)
    decreases events
  {
    hide EnterSplit;
    if events != [] {
      match events[0] {
        case Publish(_, _, _) => PublishTracks(b, mode, filters, events[0]);
        case Finish(k, req) =>
          if k < |b.generations| {
            FinishTracks(b, mode, filters, k, req);
          } else {
            FinishOnNothing(b, mode, filters, k, req);
          }
      }
      hide TracksAll;
      RunTracksAll(EnterSplit(b, mode, filters, events[0]), mode, filters, events[1..]);
    }
  }

  lemma FinishOnNothing(b: SplitBook, mode: BucketMode, filters: seq<UrlFilter>, k: nat, req: Request)
    requires |b.generations| == |b.uses| <= k
    ensures EnterSplit(b, mode, filters, Finish(k, req)) == b
  {
  }

  /**
    The bound per generation holds also when requests finish on settings that were replaced or removed
    after they loaded them: the traces that one of the three buckets pays for are the grants of each
    generation's own bucket on the attempts that reached it, whenever they did.
   */
  lemma {:induction false} NewTracesPerLoadedGeneration(mode: BucketMode, filters: seq<UrlFilter>, events: seq<SplitEvent>)
    ensures var b := EnterAllSplit(SplitBook([], NO_COUNTS, [], 0), mode, filters, events);
            b.newTraces == GrantsOf(b.uses) && b.newTraces as real <= Allowance(b.uses)
  {
    var start := SplitBook([], NO_COUNTS, [], 0);
    RunTracksAll(start, mode, filters, events);
    AllowanceCovers(EnterAllSplit(start, mode, filters, events).uses);
  }

  /** Whether an event starts a trace here rather than continuing one. */
  function StartedBy(b: SplitBook, filters: seq<UrlFilter>, event: SplitEvent): nat {
    if event.Finish? && event.generation < |b.generations| then
      Unit(!event.req.continued && SampleWith(b.generations[event.generation], b.counts, Answer(filters, event.req.url), event.req).1.trace)
    else 0
  }

  function StartedTraces(b: SplitBook, filters: seq<UrlFilter>, events: seq<SplitEvent>): nat
    requires |b.generations| == |b.uses|
    decreases events
  {
    if events == [] then 0
    else StartedBy(b, filters, events[0]) + StartedTraces(EnterSplit(b, NotPresent, filters, events[0]), filters, events[1..])
  }

  /** Every trace that is not continued is paid for by exactly one of the buckets. */
  lemma OneBucketPays(g: Generation, c: Counters, mode: TracingMode, req: Request)
    ensures var d := SampleWith(g, c, mode, req).1;
            Unit(!req.continued && d.trace) ==
              Unit(IsTraceOn(NotPresent, req, d)) + Unit(IsTraceOn(Relaxed, req, d)) + Unit(IsTraceOn(Strict, req, d))
  {
    hide Bucket.Consume;
    hide MergeUrl;
    hide TriggerTraceEnabled;
    hide Has;
    hide SamplingSettings.Enabled;
    hide ShouldSample;
    hide TriggerTraceResponse;
  }

  ghost predicate Alike(a: SplitBook, b: SplitBook) {
    a.generations == b.generations && a.counts == b.counts && |a.uses| == |a.generations| && |b.uses| == |b.generations|
  }

  lemma StepIsSum(main: SplitBook, relaxed: SplitBook, strict: SplitBook, filters: seq<UrlFilter>, event: SplitEvent)
    requires Alike(main, relaxed) && Alike(main, strict)
    ensures var (m, r, s) := (EnterSplit(main, NotPresent, filters, event), EnterSplit(relaxed, Relaxed, filters, event),
                              EnterSplit(strict, Strict, filters, event));
            && Alike(m, r) && Alike(m, s)
            && m.newTraces + r.newTraces + s.newTraces
               == main.newTraces + relaxed.newTraces + strict.newTraces + StartedBy(main, filters, event)
  {
    hide Received;
    hide MergeLocal;
    if event.Finish? && event.generation < |main.generations| {
      OneBucketPays(main.generations[event.generation], main.counts, Answer(filters, event.req.url), event.req);
    }
    hide SampleWith;
    hide IsTraceOn;
    hide IsAttemptOn;
    hide FirstUse;
  }

  lemma {:induction false} StartedIsSum(
      main: SplitBook, relaxed: SplitBook, strict: SplitBook, filters: seq<UrlFilter>, events: seq<SplitEvent>)
    requires Alike(main, relaxed) && Alike(main, strict)
    ensures EnterAllSplit(main, NotPresent, filters, events).newTraces
          + EnterAllSplit(relaxed, Relaxed, filters, events).newTraces
          + EnterAllSplit(strict, Strict, filters, events).newTraces
         == main.newTraces + relaxed.newTraces + strict.newTraces + StartedTraces(main, filters, events)
    decreases events
  {
    hide EnterSplit;
    hide StartedBy;
    if events != [] {
      StepIsSum(main, relaxed, strict, filters, events[0]);
      StartedIsSum(EnterSplit(main, NotPresent, filters, events[0]), EnterSplit(relaxed, Relaxed, filters, events[0]),
                   EnterSplit(strict, Strict, filters, events[0]), filters, events[1..]);
    }
  }

  /** All the traces that a service starts, by dice or by trigger-trace, are within the allowances of the three buckets. */
  lemma {:induction false} AllStartedTracesPerGeneration(filters: seq<UrlFilter>, events: seq<SplitEvent>)
    ensures var start := SplitBook([], NO_COUNTS, [], 0);
            StartedTraces(start, filters, events) as real
            <= Allowance(EnterAllSplit(start, NotPresent, filters, events).uses)
             + Allowance(EnterAllSplit(start, Relaxed, filters, events).uses)
             + Allowance(EnterAllSplit(start, Strict, filters, events).uses)
  {
    hide EnterAllSplit;
    hide StartedTraces;
    hide Allowance;
    hide GrantsOf;
    var start := SplitBook([], NO_COUNTS, [], 0);
    NewTracesPerLoadedGeneration(NotPresent, filters, events);
    NewTracesPerLoadedGeneration(Relaxed, filters, events);
    NewTracesPerLoadedGeneration(Strict, filters, events);
    StartedIsSum(start, start, start, filters, events);
  }

  // ---------- more generous settings ----------

  /** The traces that a sequence of requests starts by dice, under one generation. */
  function NewTraces(w: World, filters: seq<UrlFilter>, reqs: seq<Request>): nat
    decreases reqs
  {
    if reqs == [] then 0
    else
      var (v, d) := Sample(w, filters, reqs[0]);
      Unit(IsNewTrace(reqs[0], d)) + NewTraces(v, filters, reqs[1..])
  }

  /** The dice chooses the request, told from the settings and the request alone. */
  predicate Chosen(value: int, flags: Flags, originalFlags: Flags, filters: seq<UrlFilter>, req: Request) {
    var g := Generation(0, flags, originalFlags, value, SourceNone, 0, "", EMPTY_BUCKET, EMPTY_BUCKET, EMPTY_BUCKET);
    var (rate, effective, _) := MergeUrl(g, Answer(filters, req.url));
    !req.continued && req.triggerTrace.NotPresent? && Has(effective, FLAG_SAMPLE_START) && ShouldSample(rate, req.dice)
  }

  function ChosenTimes(value: int, flags: Flags, originalFlags: Flags, filters: seq<UrlFilter>, reqs: seq<Request>): seq<int> {
    if reqs == [] then []
    else
      (if Chosen(value, flags, originalFlags, filters, reqs[0]) then [reqs[0].now] else [])
      + ChosenTimes(value, flags, originalFlags, filters, reqs[1..])
  }

  lemma ChosenIsAttempt(g: Generation, c: Counters, filters: seq<UrlFilter>, req: Request)
    ensures var (w, d) := Sample(World(Some(g), c), filters, req);
            && w.settings.Some?
            && var h := w.settings.value;
            && (IsAttempt(req, d) <==> Chosen(g.value, g.flags, g.originalFlags, filters, req))
            && h.value == g.value && h.flags == g.flags && h.originalFlags == g.originalFlags
  {
    hide CountRequest;
    hide Answer;
    hide TriggerTraceEnabled;
    hide Has;
    hide Meet;
    hide ModeFlags;
    hide SamplingSettings.Enabled;
    hide ShouldSample;
  }

  lemma {:induction false} NewTracesAreGrants(g: Generation, c: Counters, filters: seq<UrlFilter>, reqs: seq<Request>)
    ensures NewTraces(World(Some(g), c), filters, reqs)
         == Grants(g.bucket, ChosenTimes(g.value, g.flags, g.originalFlags, filters, reqs))
    decreases reqs
  {
    hide Sample;
    hide Chosen;
    hide IsAttempt;
    hide IsNewTrace;
    hide Bucket.Consume;
    if reqs != [] {
      var (w, d) := Sample(World(Some(g), c), filters, reqs[0]);
      ChosenIsAttempt(g, c, filters, reqs[0]);
      ArrivalUsesMainBucket(World(Some(g), c), filters, reqs[0]);
      NewTracesAreGrants(w.settings.value, w.counts, filters, reqs[1..]);
      var rest := ChosenTimes(g.value, g.flags, g.originalFlags, filters, reqs[1..]);
      assert ([reqs[0].now] + rest)[1..] == rest;
      assert [] + rest == rest;
    }
  }

  /** A lower rate chooses a selection of what a higher rate chooses. */
  lemma {:induction false} LowerRateChoosesFewer(low: int, high: int, flags: Flags, originalFlags: Flags, filters: seq<UrlFilter>, reqs: seq<Request>)
    returns (mask: seq<bool>)
    requires low <= high
    requires forall i :: 0 <= i < |reqs| ==> 0 <= reqs[i].dice < MAX_SAMPLE_RATE
    ensures var all := ChosenTimes(high, flags, originalFlags, filters, reqs);
            |mask| == |all| && Keep(all, mask) == ChosenTimes(low, flags, originalFlags, filters, reqs)
  {
    mask := [];
    if reqs != [] {
      var rest := LowerRateChoosesFewer(low, high, flags, originalFlags, filters, reqs[1..]);
      var tail := ChosenTimes(high, flags, originalFlags, filters, reqs[1..]);
      ChosenMonotone(low, high, flags, originalFlags, filters, reqs[0]);
      if Chosen(high, flags, originalFlags, filters, reqs[0]) {
        mask := [Chosen(low, flags, originalFlags, filters, reqs[0])] + rest;
        assert ([reqs[0].now] + tail)[1..] == tail && mask[1..] == rest;
      } else {
        mask := rest;
        assert [] + tail == tail;
      }
      hide Chosen;
    }
  }

  lemma ChosenMonotone(low: int, high: int, flags: Flags, originalFlags: Flags, filters: seq<UrlFilter>, req: Request)
    requires low <= high && 0 <= req.dice < MAX_SAMPLE_RATE
    ensures Chosen(low, flags, originalFlags, filters, req) ==> Chosen(high, flags, originalFlags, filters, req)
  {
    hide Answer;
    hide Has;
    hide Meet;
    hide ModeFlags;
  }

  /**
    On the same requests, arrival times and dice, a generation whose sample rate, bucket rate and bucket
    capacity are each at least as large has started at least as many traces after every request. The
    local configuration and the flags are the same, and the clock may do anything.
   */
  lemma MoreGenerousSettingsTraceNoLess(
    args: UpdateArgs, moreValue: int, moreRate: real, moreCapacity: real, local: LocalConfig, now: int,
    filters: seq<UrlFilter>, reqs: seq<Request>)
    requires args.value <= moreValue && 0.0 <= args.bucketRate <= moreRate && args.bucketCapacity <= moreCapacity
    requires forall i :: 0 <= i < |reqs| ==> 0 <= reqs[i].dice < MAX_SAMPLE_RATE
    ensures var more := args.(value := moreValue, bucketRate := moreRate, bucketCapacity := moreCapacity);
            var w := World(None, NO_COUNTS);
            NewTraces(Install(w, args, local, now), filters, reqs) <= NewTraces(Install(w, more, local, now), filters, reqs)
  {
    hide MergeLocal;
    hide Received;
    hide NewTraces;
    hide ChosenTimes;
    hide Grants;
    hide ScheduledGrants;
    hide Tokens;
    var more := args.(value := moreValue, bucketRate := moreRate, bucketCapacity := moreCapacity);
    var g, h := MergeLocal(Received(args, now), local), MergeLocal(Received(more, now), local);
    MergingKeepsOrder(args, more, local, now);
    NewTracesAreGrants(g, NO_COUNTS, filters, reqs);
    NewTracesAreGrants(h, NO_COUNTS, filters, reqs);
    var mask := LowerRateChoosesFewer(g.value, h.value, g.flags, g.originalFlags, filters, reqs);
    var all := ChosenTimes(h.value, h.flags, h.originalFlags, filters, reqs);
    KeepingIsScheduling(g.bucket, all, mask);
    NoScheduleBeatsGreedy(h.bucket, g.bucket, MovesOf(mask), all);
  }

  lemma LocalKeepsOrder(g: Generation, h: Generation, local: LocalConfig)
    requires g.flags == h.flags && g.originalFlags == h.originalFlags && g.value <= h.value
    ensures var (m, n) := (MergeLocal(g, local), MergeLocal(h, local));
            && m.value <= n.value && m.flags == n.flags && m.originalFlags == n.originalFlags
            && m.bucket == g.bucket && n.bucket == h.bucket
  {
    hide NewTracingMode;
    hide ModeFlags;
    hide Meet;
    hide Clear;
    hide Has;
  }

  lemma MergingKeepsOrder(args: UpdateArgs, more: UpdateArgs, local: LocalConfig, now: int)
    requires args.flags == more.flags && args.value <= more.value
    ensures var (g, h) := (MergeLocal(Received(args, now), local), MergeLocal(Received(more, now), local));
            && g.value <= h.value && g.flags == h.flags && g.originalFlags == h.originalFlags
            && g.bucket == Fresh(args.bucketRate, args.bucketCapacity) && h.bucket == Fresh(more.bucketRate, more.bucketCapacity)
  {
    hide ParseFlags;
    hide MergeLocal;
    hide Fresh;
    LocalKeepsOrder(Received(args, now), Received(more, now), local);
  }
}
