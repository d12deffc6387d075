/**
  The settings updater of internal/oboe/settings_http_updater.go as a system of interleaved steps: the
  select loop, its two timers, the two one-place channels used as semaphores, and the goroutines that
  fetch settings and check their age. The goroutines' calls into internal/oboe/oboe.go are broken into
  the single reads and writes of the shared settings pointer.
 */
module Updater {
  import opened Wrappers
  import opened SamplingSettings
  import opened UrlFilters

  // ---------- states ----------

  /**
    Settings in the shared pointer, with the time at which they were put there. Each publication stores a
    new object; `number` tells them apart.
   */
  datatype Stored = Stored(settings: Generation, storedAt: int, number: nat) {
    function Expiry(): int {
      settings.timestamp + settings.ttl
    }

    /** A check that starts after this time finds these settings, or newer ones, and finds these expired. */
    function Due(): int {
      if Expiry() <= storedAt then storedAt else Expiry()
    }
  }

  /** A goroutine that fetches settings: waiting for the answer, building, about to publish, about to send, about to cancel. */
  datatype Fetcher =
    | Fetching
    | Building(received: Generation)
    | Publishing(merged: Generation)
    | Returning(keyValid: bool)
    | Cancelling

  /** A goroutine that checks the age of the settings. */
  datatype Phase =
    | Loading
    | Comparing(loaded: Option<Stored>)
    | Clearing(expired: Stored)
    | Looking
    | Sending

  /** `loadedAt` is the number of publications before its load of the pointer. */
  datatype Checker = Checker(phase: Phase, started: int, loadedAt: nat)

  datatype State = State(
    running: bool, cancelled: bool,
    updateReady: nat, ttlCheckReady: nat,
    fetchers: seq<Fetcher>, checkers: seq<Checker>,
    settings: Option<Stored>, published: nat, now: int, lastTtlTick: int)

  /** The loop is entered at time `now` with a token in each channel. */
  function Start(now: int): State {
    State(true, false, 1, 1, [], [], None, 0, now, now)
  }

  datatype Answer = NewSettings(args: UpdateArgs) | InvalidKey | Failure

  datatype Action =
    | Advance(d: nat)
    | Cancel
    | LoopStops
    | UpdateTick
    | TtlTick
    | Fetch(i: nat, answer: Answer)
    | Merge(i: nat)
    | Publish(i: nat)
    | FetcherSends(i: nat)
    | FetcherCancels(i: nat)
    | Load(i: nat)
    | Compare(i: nat)
    | Clear(i: nat)
    | Look(i: nat)
    | CheckerSends(i: nat)

  function Drop<T>(s: seq<T>, i: nat): seq<T>
    requires i < |s|
  {
    s[..i] + s[i + 1..]
  }

  function SetPhase(s: State, i: nat, phase: Phase): State
    requires i < |s.checkers|
  {
    s.(checkers := s.checkers[i := s.checkers[i].(phase := phase)])
  }

  /** One step. A step that is not possible, such as a send into a full channel, changes nothing. */
  function Next(s: State, a: Action, local: LocalConfig): State {
    match a
    case Advance(d) => s.(now := s.now + d)
    case Cancel => s.(cancelled := true)
    case LoopStops => if s.cancelled then s.(running := false) else s
    case UpdateTick =>
      if s.running && s.updateReady > 0 then s.(updateReady := s.updateReady - 1, fetchers := s.fetchers + [Fetching]) else s
    case TtlTick =>
      if !s.running then s
      else if s.ttlCheckReady > 0 then
        s.(ttlCheckReady := s.ttlCheckReady - 1, checkers := s.checkers + [Checker(Loading, s.now, 0)], lastTtlTick := s.now)
      else s.(lastTtlTick := s.now)
    case Fetch(i, answer) =>
      if i < |s.fetchers| && s.fetchers[i].Fetching? then
        s.(fetchers := s.fetchers[i := match answer
          case NewSettings(args) => Building(Received(args, s.now))
          case InvalidKey => Returning(false)
          case Failure => Returning(true)])
      else s
    case Merge(i) =>
      if i < |s.fetchers| && s.fetchers[i].Building? then
        s.(fetchers := s.fetchers[i := Publishing(MergeLocal(s.fetchers[i].received, local))])
      else s
    case Publish(i) =>
      if i < |s.fetchers| && s.fetchers[i].Publishing? then
        s.(settings := Some(Stored(s.fetchers[i].merged, s.now, s.published)), published := s.published + 1,
           fetchers := s.fetchers[i := Returning(true)])
      else s
    case FetcherSends(i) =>
      if i < |s.fetchers| && s.fetchers[i].Returning? && s.updateReady < 1 then
        s.(updateReady := s.updateReady + 1,
           fetchers := if s.fetchers[i].keyValid then Drop(s.fetchers, i) else s.fetchers[i := Cancelling])
      else s
    case FetcherCancels(i) =>
      if i < |s.fetchers| && s.fetchers[i].Cancelling? then s.(cancelled := true, fetchers := Drop(s.fetchers, i)) else s
    case Load(i) =>
      if i < |s.checkers| && s.checkers[i].phase.Loading? then
        s.(checkers := s.checkers[i := s.checkers[i].(phase := Comparing(s.settings), loadedAt := s.published)])
      else s
    case Compare(i) =>
      if i < |s.checkers| && s.checkers[i].phase.Comparing? then
        var loaded := s.checkers[i].phase.loaded;
        SetPhase(s, i, if loaded.Some? && loaded.value.Expiry() < s.now then Clearing(loaded.value) else Looking)
      else s
    case Clear(i) =>
      if i < |s.checkers| && s.checkers[i].phase.Clearing? then SetPhase(s.(settings := None), i, Looking) else s
    case Look(i) =>
      if i < |s.checkers| && s.checkers[i].phase.Looking? then SetPhase(s, i, Sending) else s
    case CheckerSends(i) =>
      if i < |s.checkers| && s.checkers[i].phase.Sending? && s.ttlCheckReady < 1 then
        s.(ttlCheckReady := s.ttlCheckReady + 1, checkers := Drop(s.checkers, i))
      else s
  }

  function Run(s: State, actions: seq<Action>, local: LocalConfig): State
    decreases actions
  {
    if actions == [] then s else Run(Next(s, actions[0], local), actions[1..], local)
  }

  // ---------- the semaphores ----------

  /** A fetch is in flight until it has put its token back. */
  function Tokens(f: Fetcher): nat {
    if f.Cancelling? then 0 else 1
  }

  function InFlight(fetchers: seq<Fetcher>): nat {
    if fetchers == [] then 0 else Tokens(fetchers[0]) + InFlight(fetchers[1..])
  }

  lemma {:induction false} InFlightConcat(a: seq<Fetcher>, b: seq<Fetcher>)
    ensures InFlight(a + b) == InFlight(a) + InFlight(b)
  {
    if a == [] {
      assert a + b == b;
    } else {
      assert (a + b)[1..] == a[1..] + b;
      InFlightConcat(a[1..], b);
    }
  }

  lemma InFlightAround(fs: seq<Fetcher>, i: nat, f: Fetcher)
    requires i < |fs|
    ensures InFlight(fs) == InFlight(Drop(fs, i)) + Tokens(fs[i])
    ensures InFlight(fs[i := f]) == InFlight(Drop(fs, i)) + Tokens(f)
  {
    assert fs == fs[..i] + ([fs[i]] + fs[i + 1..]) && fs[i := f] == fs[..i] + ([f] + fs[i + 1..]);
    InFlightConcat(fs[..i], [fs[i]] + fs[i + 1..]);
    InFlightConcat(fs[..i], [f] + fs[i + 1..]);
    InFlightConcat([fs[i]], fs[i + 1..]);
    InFlightConcat([f], fs[i + 1..]);
    InFlightConcat(fs[..i], fs[i + 1..]);
  }

  ghost predicate TokensConserved(s: State) {
    s.updateReady + InFlight(s.fetchers) == 1 && s.ttlCheckReady + |s.checkers| == 1
  }

  lemma OneInFlight(f: Fetcher)
    ensures InFlight([f]) == Tokens(f)
  {
  }

  /** The steps of a fetch before it sends keep its token with it. */
  lemma FetcherConserves(s: State, a: Action, local: LocalConfig, i: nat)
    requires i < |s.fetchers| && TokensConserved(s)
    requires (a.Fetch? && a.i == i) || a == Merge(i) || a == Publish(i)
    ensures TokensConserved(Next(s, a, local))
  {
    hide Received;
    hide MergeLocal;
    hide InFlight;
    var f := Next(s, a, local).fetchers[i];
    InFlightAround(s.fetchers, i, f);
    assert Next(s, a, local).fetchers == s.fetchers[i := f];
  }

  lemma StepConservesTokens(s: State, a: Action, local: LocalConfig)
    requires TokensConserved(s)
    ensures TokensConserved(Next(s, a, local))
  {
    hide Received;
    hide MergeLocal;
    hide InFlight;
    match a
    case UpdateTick =>
      InFlightConcat(s.fetchers, [Fetching]);
      OneInFlight(Fetching);
    case Fetch(i, _) => if i < |s.fetchers| { FetcherConserves(s, a, local, i); }
    case Merge(i) => if i < |s.fetchers| { FetcherConserves(s, a, local, i); }
    case Publish(i) => if i < |s.fetchers| { FetcherConserves(s, a, local, i); }
    case FetcherSends(i) => if i < |s.fetchers| { InFlightAround(s.fetchers, i, Cancelling); }
    case FetcherCancels(i) => if i < |s.fetchers| { InFlightAround(s.fetchers, i, Cancelling); }
    case _ =>
  }

  lemma {:induction false} RunConservesTokens(s: State, actions: seq<Action>, local: LocalConfig)
    requires TokensConserved(s)
    ensures TokensConserved(Run(s, actions, local))
    decreases actions
  {
    hide TokensConserved;
    hide Next;
    if actions != [] {
      StepConservesTokens(s, actions[0], local);
      RunConservesTokens(Next(s, actions[0], local), actions[1..], local);
    }
  }

  lemma {:induction false} SenderIsInFlight(fs: seq<Fetcher>, i: nat)
    requires i < |fs| && !fs[i].Cancelling?
    ensures InFlight(fs) >= 1
  {
    InFlightAround(fs, i, fs[i]);
  }

  /**
    In every interleaving of timers, goroutines and cancellation, each token is either in its channel or
    with one goroutine. So at most one fetch and at most one check are in flight, and a goroutine that is
    about to send finds room.
   */
  lemma SemaphoresHold(now: int, actions: seq<Action>, local: LocalConfig)
    ensures var s := Run(Start(now), actions, local);
            && s.updateReady + InFlight(s.fetchers) == 1 && s.ttlCheckReady + |s.checkers| == 1
            && (forall i :: 0 <= i < |s.fetchers| && s.fetchers[i].Returning? ==> s.updateReady < 1)
            && (forall i :: 0 <= i < |s.checkers| && s.checkers[i].phase.Sending? ==> s.ttlCheckReady < 1)
  {
    RunConservesTokens(Start(now), actions, local);
    var s := Run(Start(now), actions, local);
    forall i | 0 <= i < |s.fetchers| && s.fetchers[i].Returning?
      ensures s.updateReady < 1
    {
      SenderIsInFlight(s.fetchers, i);
    }
  }

  // ---------- what is published ----------

  ghost predicate IsReceived(g: Generation) {
    exists args: UpdateArgs, t: int :: g == Received(args, t)
  }

  ghost predicate IsMerged(g: Generation, local: LocalConfig) {
    exists args: UpdateArgs, t: int :: g == MergeLocal(Received(args, t), local)
  }

  lemma ReceivedIsReceived(args: UpdateArgs, t: int)
    ensures IsReceived(Received(args, t))
  {
    hide Received;
  }

  lemma ReceivedIsMerged(g: Generation, local: LocalConfig)
    requires IsReceived(g)
    ensures IsMerged(MergeLocal(g, local), local)
  {
    hide Received;
    hide MergeLocal;
  }

  ghost predicate OnlyMerged(s: State, local: LocalConfig) {
    && (forall i :: 0 <= i < |s.fetchers| && s.fetchers[i].Building? ==> IsReceived(s.fetchers[i].received))
    && (forall i :: 0 <= i < |s.fetchers| && s.fetchers[i].Publishing? ==> IsMerged(s.fetchers[i].merged, local))
    && (s.settings.Some? ==> IsMerged(s.settings.value.settings, local))
  }

  /** Clock, timer and check steps do not touch fetches, and put no settings in place. */
  lemma OtherStepsPublishNothing(s: State, a: Action, local: LocalConfig)
    requires a.Advance? || a.Cancel? || a.LoopStops? || a.TtlTick? || a.Load? || a.Compare? || a.Clear? || a.Look? || a.CheckerSends?
    ensures var t := Next(s, a, local);
            t.fetchers == s.fetchers && (t.settings == s.settings || t.settings.None?)
  {
  }

  lemma UpdateTickPublishesMerged(s: State, local: LocalConfig)
    requires OnlyMerged(s, local)
    ensures OnlyMerged(Next(s, UpdateTick, local), local)
  {
    hide IsReceived;
    hide IsMerged;
  }

  lemma FetcherPublishesMerged(s: State, a: Action, local: LocalConfig, i: nat)
    requires OnlyMerged(s, local)
    requires (a.Fetch? && a.i == i) || a == Merge(i) || a == Publish(i) || a == FetcherSends(i) || a == FetcherCancels(i)
    ensures OnlyMerged(Next(s, a, local), local)
  {
    hide Received;
    hide MergeLocal;
    if a.Fetch? && a.answer.NewSettings? {
      ReceivedIsReceived(a.answer.args, s.now);
    }
    if a.Merge? && i < |s.fetchers| && s.fetchers[i].Building? {
      ReceivedIsMerged(s.fetchers[i].received, local);
    }
    hide IsReceived;
    hide IsMerged;
  }

  lemma StepPublishesMerged(s: State, a: Action, local: LocalConfig)
    requires OnlyMerged(s, local)
    ensures OnlyMerged(Next(s, a, local), local)
  {
    hide Next;
    hide IsReceived;
    hide IsMerged;
    match a
    case UpdateTick => UpdateTickPublishesMerged(s, local);
    case Fetch(i, _) => FetcherPublishesMerged(s, a, local, i);
    case Merge(i) => FetcherPublishesMerged(s, a, local, i);
    case Publish(i) => FetcherPublishesMerged(s, a, local, i);
    case FetcherSends(i) => FetcherPublishesMerged(s, a, local, i);
    case FetcherCancels(i) => FetcherPublishesMerged(s, a, local, i);
    case _ => OtherStepsPublishNothing(s, a, local);
  }

  lemma {:induction false} RunPublishesMerged(s: State, actions: seq<Action>, local: LocalConfig)
    requires OnlyMerged(s, local)
    ensures OnlyMerged(Run(s, actions, local), local)
    decreases actions
  {
    hide OnlyMerged;
    hide Next;
    if actions != [] {
      StepPublishesMerged(s, actions[0], local);
      RunPublishesMerged(Next(s, actions[0], local), actions[1..], local);
    }
  }

  /** Whatever interleaves, settings that a request can see have been merged with the local configuration. */
  lemma PublishedIsMerged(now: int, actions: seq<Action>, local: LocalConfig)
    ensures var s := Run(Start(now), actions, local);
            s.settings.Some? ==> IsMerged(s.settings.value.settings, local)
  {
    RunPublishesMerged(Start(now), actions, local);
  }

  /**
    Settings that a request can see never give a rate above the remote one, nor a flag that the remote
    did not set, when the remote set the override flag.
   */
  lemma PublishedIsContained(now: int, actions: seq<Action>, local: LocalConfig, mode: TracingMode)
    ensures var s := Run(Start(now), actions, local);
            s.settings.Some? ==>
              exists args: UpdateArgs ::
                && s.settings.value.settings.originalFlags == ParseFlags(args.flags)
                && (Has(ParseFlags(args.flags), FLAG_OVERRIDE) ==>
                      var (rate, flags, _) := MergeUrl(s.settings.value.settings, mode);
                      rate <= AdjustSampleRate(args.value) && Subset(flags, ParseFlags(args.flags)))
  {
    hide ParseFlags;
    hide Has;
    hide Subset;
    hide Meet;
    hide SamplingSettings.Clear;
    hide ModeFlags;
    hide MergeUrl;
    PublishedIsMerged(now, actions, local);
    var s := Run(Start(now), actions, local);
    if s.settings.Some? {
      var args: UpdateArgs, t: int :| s.settings.value.settings == MergeLocal(Received(args, t), local);
      if Has(ParseFlags(args.flags), FLAG_OVERRIDE) {
        OverrideContainment(args, t, local, mode);
      }
    }
  }

  // ---------- when polling stops ----------

  /** Nothing has asked the loop to stop or is about to. */
  ghost predicate Polling(s: State) {
    && s.running && !s.cancelled
    && forall i :: 0 <= i < |s.fetchers| ==> s.fetchers[i] != Returning(false) && s.fetchers[i] != Cancelling
  }

  lemma StepKeepsPolling(s: State, a: Action, local: LocalConfig)
    requires Polling(s) && !a.Cancel? && !(a.Fetch? && a.answer.InvalidKey?)
    ensures Polling(Next(s, a, local))
  {
    hide Received;
    hide MergeLocal;
  }

  /** Neither failed fetches nor anything else stops polling, except cancellation and an invalid service key. */
  lemma {:induction false} OnlyInvalidKeyStops(s: State, actions: seq<Action>, local: LocalConfig)
    requires Polling(s)
    requires forall k :: 0 <= k < |actions| ==> !actions[k].Cancel? && !(actions[k].Fetch? && actions[k].answer.InvalidKey?)
    ensures Polling(Run(s, actions, local))
    decreases actions
  {
    hide Polling;
    hide Next;
    if actions != [] {
      StepKeepsPolling(s, actions[0], local);
      OnlyInvalidKeyStops(Next(s, actions[0], local), actions[1..], local);
    }
  }

  /** An invalid service key stops it for good, and a failed fetch only gives the token back; neither touches the settings. */
  lemma FetchOutcomes(s: State, local: LocalConfig)
    requires s.running && s.updateReady == 0 && s.fetchers == [Fetching]
    ensures Run(s, [Fetch(0, Failure), FetcherSends(0)], local) == s.(updateReady := 1, fetchers := [])
    ensures Run(s, [Fetch(0, InvalidKey), FetcherSends(0)] + [FetcherCancels(0), LoopStops], local)
         == s.(updateReady := 1, fetchers := [], cancelled := true, running := false)
  {
    RunTwo(s, Fetch(0, Failure), FetcherSends(0), local);
    RunTwo(s, Fetch(0, InvalidKey), FetcherSends(0), local);
    RunConcat(s, [Fetch(0, InvalidKey), FetcherSends(0)], [FetcherCancels(0), LoopStops], local);
    RunTwo(Run(s, [Fetch(0, InvalidKey), FetcherSends(0)], local), FetcherCancels(0), LoopStops, local);
    hide Run;
  }

  /** A cancelled loop stops. */
  lemma CancelStops(s: State, local: LocalConfig)
    ensures Run(s, [Cancel, LoopStops], local) == s.(cancelled := true, running := false)
  {
    RunTwo(s, Cancel, LoopStops, local);
  }

  predicate HasExpired(s: State) {
    s.settings.Some? && s.settings.value.settings.timestamp + s.settings.value.settings.ttl < s.now
  }

  lemma CheckCompares(s: State, started: int, local: LocalConfig)
    requires s.checkers == [Checker(Loading, started, 0)]
    ensures Run(s, [Load(0), Compare(0)], local) ==
              s.(checkers := [Checker(if HasExpired(s) then Clearing(s.settings.value) else Looking, started, s.published)])
  {
    RunTwo(s, Load(0), Compare(0), local);
    assert Next(s, Load(0), local) == s.(checkers := [Checker(Comparing(s.settings), started, s.published)]);
    hide Run;
  }

  /** A check left to itself leaves the settings in place if their time has not run out, and gives its token back. */
  lemma CheckKeepsLiveSettings(s: State, started: int, local: LocalConfig)
    requires s.checkers == [Checker(Loading, started, 0)] && s.ttlCheckReady == 0 && !HasExpired(s)
    ensures Run(s, [Load(0), Compare(0)] + [Look(0), CheckerSends(0)], local) == s.(ttlCheckReady := 1, checkers := [])
  {
    CheckCompares(s, started, local);
    hide Run;
    hide HasExpired;
    var t := s.(checkers := [Checker(Looking, started, s.published)]);
    RunConcat(s, [Load(0), Compare(0)], [Look(0), CheckerSends(0)], local);
    RunTwo(t, Look(0), CheckerSends(0), local);
    assert Next(t, Look(0), local) == t.(checkers := [Checker(Sending, started, s.published)]);
  }

  /** It removes them if it has, and gives its token back as well. */
  lemma CheckRemovesExpiredSettings(s: State, started: int, local: LocalConfig)
    requires s.checkers == [Checker(Loading, started, 0)] && s.ttlCheckReady == 0 && HasExpired(s)
    ensures Next(Run(s, [Load(0), Compare(0)] + [Clear(0), Look(0)], local), CheckerSends(0), local)
         == s.(settings := None, ttlCheckReady := 1, checkers := [])
  {
    CheckCompares(s, started, local);
    hide Run;
    var t := s.(checkers := [Checker(Clearing(s.settings.value), started, s.published)]);
    RunConcat(s, [Load(0), Compare(0)], [Clear(0), Look(0)], local);
    RunTwo(t, Clear(0), Look(0), local);
    var u := t.(settings := None, checkers := [Checker(Sending, started, s.published)]);
    assert Next(t, Clear(0), local) == t.(settings := None, checkers := [Checker(Looking, started, s.published)]);
    assert Next(Next(t, Clear(0), local), Look(0), local) == u;
  }

  /** A tick starts a goroutine exactly when the loop runs and its token is there. */
  lemma TicksTell(s: State, local: LocalConfig)
    ensures var (t, u) := (Next(s, UpdateTick, local), Next(s, TtlTick, local));
            && (|t.fetchers| == |s.fetchers| + (if s.running && s.updateReady > 0 then 1 else 0)) && s.fetchers <= t.fetchers
            && (|u.checkers| == |s.checkers| + (if s.running && s.ttlCheckReady > 0 then 1 else 0)) && s.checkers <= u.checkers
            && (s.running ==> u.lastTtlTick == s.now)
            && (|u.checkers| > |s.checkers| ==> u.checkers[|s.checkers|] == Checker(Loading, s.now, 0))
  {
  }

  /** Settings are put in place by publishing alone and removed by the write of a check alone. */
  lemma SettingsChangeOnlyBy(s: State, a: Action, local: LocalConfig)
    ensures Next(s, a, local).settings == s.settings || a.Publish? || (a.Clear? && Next(s, a, local).settings.None?)
  {
    hide Received;
    hide MergeLocal;
  }

  // ---------- how old settings can get ----------

  /**
    The timing under which age is bounded: while the loop runs, a due tick is handled within `latency`
    of the interval running out, no two ticks are closer than `interval`, and a check takes at most
    `duration`.
   */
  predicate Timely(s: State, a: Action, interval: nat, latency: nat, duration: nat) {
    match a
    case Advance(d) =>
      && (s.running ==> s.now + d <= s.lastTtlTick + interval + latency)
      && (forall i :: 0 <= i < |s.checkers| ==> s.now + d <= s.checkers[i].started + duration)
    case TtlTick => s.running ==> s.lastTtlTick + interval <= s.now
    case _ => true
  }

  predicate AllTimely(s: State, actions: seq<Action>, local: LocalConfig, interval: nat, latency: nat, duration: nat)
    decreases actions
  {
    actions == [] ||
    (Timely(s, actions[0], interval, latency, duration) &&
     AllTimely(Next(s, actions[0], local), actions[1..], local, interval, latency, duration))
  }

  /** A check that will remove `st` unless newer settings come first. */
  predicate WillRemove(c: Checker, st: Stored) {
    c.phase == Loading || c.phase == Comparing(Some(st)) || c.phase.Clearing?
  }

  ghost predicate Watched(s: State, interval: nat, latency: nat, duration: nat) {
    && TokensConserved(s)
    && s.lastTtlTick <= s.now
    && (s.running ==> s.now <= s.lastTtlTick + interval + latency)
    && (forall i :: 0 <= i < |s.checkers| ==> s.checkers[i].started <= s.lastTtlTick && s.now <= s.checkers[i].started + duration)
    && (s.running && s.settings.Some? ==>
          || s.lastTtlTick <= s.settings.value.Due()
          || (&& s.lastTtlTick <= s.settings.value.Due() + interval + latency
              && |s.checkers| == 1
              && s.checkers[0].started == s.lastTtlTick
              && WillRemove(s.checkers[0], s.settings.value)))
  }

  /** Steps of the loop and of fetches that publish nothing do not touch checks, settings or the clock. */
  lemma FetchStepsLeaveChecksAlone(s: State, a: Action, local: LocalConfig)
    requires a.Cancel? || a.LoopStops? || a.UpdateTick? || a.Fetch? || a.Merge? || a.FetcherSends? || a.FetcherCancels?
    ensures var t := Next(s, a, local);
            && t.checkers == s.checkers && t.ttlCheckReady == s.ttlCheckReady && t.settings == s.settings && t.published == s.published
            && t.now == s.now && t.lastTtlTick == s.lastTtlTick && (t.running ==> s.running)
  {
    hide Received;
    hide MergeLocal;
  }

  lemma LoopKeepsWatch(s: State, a: Action, local: LocalConfig, interval: nat, latency: nat, duration: nat)
    requires a.Advance? || a.TtlTick? || a.Publish?
    requires duration < interval && Watched(s, interval, latency, duration) && Timely(s, a, interval, latency, duration)
    ensures Watched(Next(s, a, local), interval, latency, duration)
  {
    StepConservesTokens(s, a, local);
    assert |s.checkers| + s.ttlCheckReady == 1;
    hide TokensConserved;
  }

  lemma LoadKeepsWatch(s: State, i: nat, local: LocalConfig, interval: nat, latency: nat, duration: nat)
    requires Watched(s, interval, latency, duration)
    ensures Watched(Next(s, Load(i), local), interval, latency, duration)
  {
    StepConservesTokens(s, Load(i), local);
    assert |s.checkers| <= 1;
    hide TokensConserved;
  }

  lemma CompareKeepsWatch(s: State, i: nat, local: LocalConfig, interval: nat, latency: nat, duration: nat)
    requires Watched(s, interval, latency, duration)
    ensures Watched(Next(s, Compare(i), local), interval, latency, duration)
  {
    StepConservesTokens(s, Compare(i), local);
    assert |s.checkers| <= 1;
    hide TokensConserved;
  }

  lemma ClearKeepsWatch(s: State, i: nat, local: LocalConfig, interval: nat, latency: nat, duration: nat)
    requires Watched(s, interval, latency, duration)
    ensures Watched(Next(s, Clear(i), local), interval, latency, duration)
  {
    StepConservesTokens(s, Clear(i), local);
    assert |s.checkers| <= 1;
    hide TokensConserved;
  }

  lemma LookKeepsWatch(s: State, i: nat, local: LocalConfig, interval: nat, latency: nat, duration: nat)
    requires Watched(s, interval, latency, duration)
    ensures Watched(Next(s, Look(i), local), interval, latency, duration)
  {
    StepConservesTokens(s, Look(i), local);
    assert |s.checkers| <= 1;
    hide TokensConserved;
  }

  lemma SendKeepsWatch(s: State, i: nat, local: LocalConfig, interval: nat, latency: nat, duration: nat)
    requires Watched(s, interval, latency, duration)
    ensures Watched(Next(s, CheckerSends(i), local), interval, latency, duration)
  {
    StepConservesTokens(s, CheckerSends(i), local);
    assert |s.checkers| <= 1;
    hide TokensConserved;
  }

  lemma StepKeepsWatch(s: State, a: Action, local: LocalConfig, interval: nat, latency: nat, duration: nat)
    requires duration < interval && Watched(s, interval, latency, duration) && Timely(s, a, interval, latency, duration)
    ensures Watched(Next(s, a, local), interval, latency, duration)
  {
    hide Next;
    hide Timely;
    match a
    case Advance(_) => LoopKeepsWatch(s, a, local, interval, latency, duration);
    case TtlTick => LoopKeepsWatch(s, a, local, interval, latency, duration);
    case Publish(_) => LoopKeepsWatch(s, a, local, interval, latency, duration);
    case Load(i) => LoadKeepsWatch(s, i, local, interval, latency, duration);
    case Compare(i) => CompareKeepsWatch(s, i, local, interval, latency, duration);
    case Clear(i) => ClearKeepsWatch(s, i, local, interval, latency, duration);
    case Look(i) => LookKeepsWatch(s, i, local, interval, latency, duration);
    case CheckerSends(i) => SendKeepsWatch(s, i, local, interval, latency, duration);
    case _ =>
      FetchStepsLeaveChecksAlone(s, a, local);
      StepConservesTokens(s, a, local);
      hide TokensConserved;
  }

  lemma {:induction false} RunKeepsWatch(
      s: State, actions: seq<Action>, local: LocalConfig, interval: nat, latency: nat, duration: nat)
    requires duration < interval && Watched(s, interval, latency, duration)
    requires AllTimely(s, actions, local, interval, latency, duration)
    ensures Watched(Run(s, actions, local), interval, latency, duration)
    decreases actions
  {
    hide Watched;
    hide Timely;
    hide Next;
    if actions != [] {
      StepKeepsWatch(s, actions[0], local, interval, latency, duration);
      RunKeepsWatch(Next(s, actions[0], local), actions[1..], local, interval, latency, duration);
    }
  }

  /**
    If every check ends before the next tick is due, then at no moment of any run, as long as the loop
    runs, are settings still in place later than one interval, the loop's latency and one check after
    they became due.
   */
  lemma StalenessIsBounded(
      now: int, actions: seq<Action>, local: LocalConfig, interval: nat, latency: nat, duration: nat)
    requires duration < interval
    requires AllTimely(Start(now), actions, local, interval, latency, duration)
    ensures var s := Run(Start(now), actions, local);
            s.running && s.settings.Some? ==>
              var st := s.settings.value;
              || s.now <= st.settings.timestamp + st.settings.ttl + interval + latency + duration
              || s.now <= st.storedAt + interval + latency + duration
  {
    RunKeepsWatch(Start(now), actions, local, interval, latency, duration);
  }

  // ---------- settings that arrive during a check ----------

  /** Nothing was published since that load, or the settings in place are the last ones published since. */
  predicate Follows(s: State, c: Checker, loaded: Option<Stored>) {
    && c.loadedAt <= s.published
    && (loaded.Some? ==> loaded.value.number < c.loadedAt)
    && (c.loadedAt == s.published ==> s.settings == loaded)
    && (c.loadedAt < s.published ==>
          s.settings.Some? && s.settings.value.number == s.published - 1 && c.started <= s.settings.value.storedAt)
  }

  /** What a check that is under way knows of the settings it will remove. */
  ghost predicate Informed(s: State) {
    && TokensConserved(s)
    && (s.settings.Some? ==> s.settings.value.number < s.published)
    && (forall i :: 0 <= i < |s.checkers| ==>
          var c := s.checkers[i];
          && c.started <= s.now
          && (c.phase.Comparing? ==> Follows(s, c, c.phase.loaded))
          && (c.phase.Clearing? ==> c.phase.expired.Expiry() < s.now && Follows(s, c, Some(c.phase.expired))))
  }

  lemma LoopStaysInformed(s: State, a: Action, local: LocalConfig)
    requires (a.Advance? || a.TtlTick? || a.Publish?) && Informed(s)
    ensures Informed(Next(s, a, local))
  {
    StepConservesTokens(s, a, local);
    hide TokensConserved;
  }

  lemma LoadStaysInformed(s: State, i: nat, local: LocalConfig)
    requires Informed(s)
    ensures Informed(Next(s, Load(i), local))
  {
    StepConservesTokens(s, Load(i), local);
    hide TokensConserved;
  }

  lemma CompareStaysInformed(s: State, i: nat, local: LocalConfig)
    requires Informed(s)
    ensures Informed(Next(s, Compare(i), local))
  {
    StepConservesTokens(s, Compare(i), local);
    hide TokensConserved;
  }

  lemma ClearStaysInformed(s: State, i: nat, local: LocalConfig)
    requires Informed(s)
    ensures Informed(Next(s, Clear(i), local))
  {
    StepConservesTokens(s, Clear(i), local);
    assert |s.checkers| <= 1;
    hide TokensConserved;
    hide Follows;
  }

  lemma EndStaysInformed(s: State, a: Action, local: LocalConfig)
    requires (a.Look? || a.CheckerSends?) && Informed(s)
    ensures Informed(Next(s, a, local))
  {
    StepConservesTokens(s, a, local);
    assert |s.checkers| <= 1;
    hide TokensConserved;
  }

  lemma StepStaysInformed(s: State, a: Action, local: LocalConfig)
    requires Informed(s)
    ensures Informed(Next(s, a, local))
  {
    hide Next;
    match a
    case Advance(_) => LoopStaysInformed(s, a, local);
    case TtlTick => LoopStaysInformed(s, a, local);
    case Publish(_) => LoopStaysInformed(s, a, local);
    case Load(i) => LoadStaysInformed(s, i, local);
    case Compare(i) => CompareStaysInformed(s, i, local);
    case Clear(i) => ClearStaysInformed(s, i, local);
    case Look(_) => EndStaysInformed(s, a, local);
    case CheckerSends(_) => EndStaysInformed(s, a, local);
    case _ =>
      FetchStepsLeaveChecksAlone(s, a, local);
      StepConservesTokens(s, a, local);
      hide TokensConserved;
  }

  lemma {:induction false} RunStaysInformed(s: State, actions: seq<Action>, local: LocalConfig)
    requires Informed(s)
    ensures Informed(Run(s, actions, local))
    decreases actions
  {
    hide Informed;
    hide Next;
    if actions != [] {
      StepStaysInformed(s, actions[0], local);
      RunStaysInformed(Next(s, actions[0], local), actions[1..], local);
    }
  }

  /** How often settings are put in place in a run. */
  function Publications(s: State, actions: seq<Action>, local: LocalConfig): nat
    decreases actions
  {
    if actions == [] then 0
    else
      var a := actions[0];
      (if a.Publish? && a.i < |s.fetchers| && s.fetchers[a.i].Publishing? then 1 else 0)
      + Publications(Next(s, a, local), actions[1..], local)
  }

  lemma StepCounts(s: State, a: Action, local: LocalConfig)
    ensures Next(s, a, local).published
         == s.published + (if a.Publish? && a.i < |s.fetchers| && s.fetchers[a.i].Publishing? then 1 else 0)
  {
    hide Received;
    hide MergeLocal;
  }

  lemma {:induction false} PublicationsAreCounted(s: State, actions: seq<Action>, local: LocalConfig)
    ensures Run(s, actions, local).published == s.published + Publications(s, actions, local)
    decreases actions
  {
    hide Next;
    if actions != [] {
      StepCounts(s, actions[0], local);
      PublicationsAreCounted(Next(s, actions[0], local), actions[1..], local);
    }
  }

  /**
    The write of a check that found its loaded settings expired hits other settings than those exactly
    when an update put some in place between the check's load and its write. Otherwise it hits the
    expired ones.
   */
  lemma WriteHitsOtherSettingsIff(now: int, actions: seq<Action>, local: LocalConfig, i: nat)
    ensures var s := Run(Start(now), actions, local);
            i < |s.checkers| && s.checkers[i].phase.Clearing? ==>
              var c := s.checkers[i];
              && s.settings.Some?
              && (s.settings.value != c.phase.expired <==> c.loadedAt < s.published)
              && (c.loadedAt == s.published ==> s.settings.value.Expiry() < s.now)
  {
    RunStaysInformed(Start(now), actions, local);
  }

  /**
    When checks are timely and the settings that arrive during one stay valid until it must have ended,
    live settings are lost exactly when an update came between the check's load and its write.
   */
  lemma LiveSettingsAreLostIff(
      now: int, actions: seq<Action>, local: LocalConfig, i: nat, interval: nat, latency: nat, duration: nat)
    requires duration < interval
    requires AllTimely(Start(now), actions, local, interval, latency, duration)
    ensures var s := Run(Start(now), actions, local);
            i < |s.checkers| && s.checkers[i].phase.Clearing? ==>
              var c := s.checkers[i];
              && s.settings.Some?
              && ((c.started <= s.settings.value.storedAt ==> c.started + duration <= s.settings.value.Expiry()) ==>
                    (s.now <= s.settings.value.Expiry() <==> c.loadedAt < s.published))
  {
    RunStaysInformed(Start(now), actions, local);
    RunKeepsWatch(Start(now), actions, local, interval, latency, duration);
    hide Run;
    hide AllTimely;
    hide InFlight;
  }

  lemma {:induction false} RunConcat(s: State, first: seq<Action>, rest: seq<Action>, local: LocalConfig)
    ensures Run(s, first + rest, local) == Run(Run(s, first, local), rest, local)
    decreases first
  {
    hide Next;
    if first == [] {
      assert first + rest == rest;
    } else {
      assert (first + rest)[1..] == first[1..] + rest;
      RunConcat(Next(s, first[0], local), first[1..], rest, local);
    }
  }

  lemma RunTwo(s: State, a: Action, b: Action, local: LocalConfig)
    ensures Run(s, [a, b], local) == Next(Next(s, a, local), b, local)
  {
    hide Next;
    assert [a, b][1..] == [b];
    assert Run(Next(s, a, local), [b], local) == Next(Next(s, a, local), b, local);
  }

  lemma MergingKeepsExpiry(args: UpdateArgs, t: int, local: LocalConfig)
    ensures var g := MergeLocal(Received(args, t), local);
            g.timestamp == t && g.ttl == args.ttl
  {
    hide ParseFlags;
    hide ModeFlags;
    hide Meet;
    hide SamplingSettings.Clear;
    hide Has;
  }

  /** A fetch that succeeds, up to the point where it is about to publish. */
  lemma Obtain(s: State, args: UpdateArgs, local: LocalConfig) returns (actions: seq<Action>)
    requires s.running && s.updateReady == 1 && s.fetchers == []
    ensures Run(s, actions, local) == s.(updateReady := 0, fetchers := [Publishing(MergeLocal(Received(args, s.now), local))])
  {
    hide Received;
    hide MergeLocal;
    actions := [UpdateTick, Fetch(0, NewSettings(args))] + [Merge(0)];
    RunTwo(s, UpdateTick, Fetch(0, NewSettings(args)), local);
    RunConcat(s, [UpdateTick, Fetch(0, NewSettings(args))], [Merge(0)], local);
  }

  /** Settings are fetched and put in place; their time runs out; fresh settings are fetched but not yet put in place. */
  lemma ReplacementPending(stale: UpdateArgs, renewed: UpdateArgs, local: LocalConfig, now: int) returns (actions: seq<Action>)
    requires 0 <= stale.ttl
    ensures var later := now + stale.ttl + 1;
            Run(Start(now), actions, local) ==
            State(true, false, 0, 1, [Publishing(MergeLocal(Received(renewed, later), local))], [],
              Some(Stored(MergeLocal(Received(stale, now), local), now, 0)), 1, later, now)
  {
    hide Received;
    hide MergeLocal;
    hide Run;
    var later := now + stale.ttl + 1;
    var first := Obtain(Start(now), stale, local);
    var s1 := Run(Start(now), first, local);
    RunTwo(s1, Publish(0), FetcherSends(0), local);
    RunConcat(Start(now), first, [Publish(0), FetcherSends(0)], local);
    var s2 := Run(s1, [Publish(0), FetcherSends(0)], local);
    assert s2 == State(true, false, 1, 1, [], [], Some(Stored(MergeLocal(Received(stale, now), local), now, 0)), 1, now, now);
    RunTwo(s2, Advance(stale.ttl), Advance(1), local);
    RunConcat(Start(now), first + [Publish(0), FetcherSends(0)], [Advance(stale.ttl), Advance(1)], local);
    var s3 := s2.(now := later);
    var second := Obtain(s3, renewed, local);
    RunConcat(Start(now), first + [Publish(0), FetcherSends(0)] + [Advance(stale.ttl), Advance(1)], second, local);
    actions := first + [Publish(0), FetcherSends(0)] + [Advance(stale.ttl), Advance(1)] + second;
  }

  /**
    The exception happens: a check that loaded expired settings, overtaken by an update, removes settings
    with their whole time-to-live ahead of them, because it writes without comparing.
   */
  lemma FreshSettingsCanBeLost(stale: UpdateArgs, renewed: UpdateArgs, local: LocalConfig, now: int) returns (actions: seq<Action>)
    requires 0 <= stale.ttl
    ensures var s := Run(Start(now), actions, local);
            && s.settings.Some? && s.settings.value.Expiry() == s.now + renewed.ttl
            && 0 < |s.checkers|
            && Next(s, Clear(0), local).settings.None?
  {
    hide Received;
    hide MergeLocal;
    hide Run;
    var later := now + stale.ttl + 1;
    var pending := ReplacementPending(stale, renewed, local, now);
    var s := Run(Start(now), pending, local);
    MergingKeepsExpiry(stale, now, local);
    MergingKeepsExpiry(renewed, later, local);
    RunTwo(s, TtlTick, Load(0), local);
    var t := Run(s, [TtlTick, Load(0)], local);
    assert t.checkers == [Checker(Comparing(s.settings), later, 1)];
    RunTwo(t, Compare(0), Publish(0), local);
    RunConcat(s, [TtlTick, Load(0)], [Compare(0), Publish(0)], local);
    RunConcat(Start(now), pending, [TtlTick, Load(0)] + [Compare(0), Publish(0)], local);
    actions := pending + ([TtlTick, Load(0)] + [Compare(0), Publish(0)]);
  }
}
