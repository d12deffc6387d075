# Sampling engine and trace propagation of the SolarWinds APM Go agent

A Dafny model of how the agent decides which requests to trace, how it limits the rate of new traces, how
settings reach it, and how a decision travels with a trace from service to service. The proofs are about
every history of the modelled code: any order of requests, settings updates, expiries and flushes, any
clock, any dice, any number of services.

`dafny verify dfyconfig.toml` checks everything.

| file | what it models |
|---|---|
| `TokenBuckets.dfy` | the lazily refilled token bucket, over whole histories of attempts |
| `Metrics.dfy` | the six request counters, also when increments and flushes interleave |
| `SamplingSettings.dfy` | flags, and the merging of remote, local and per-URL settings |
| `UrlFilters.dfy` | transaction filters by URL, with their cache |
| `Oboe.dfy` | one sampling decision and the replacement of settings |
| `Runs.dfy` | laws of whole runs of the engine |
| `Updater.dfy` | the settings updater as interleaved steps of its loop and goroutines |
| `W3cFormat.dfy`, `TraceStates.dfy` | the `sw` entry and the internal entries of the tracestate header (section 3.3 of W3C Trace Context) |
| `XTrace.dfy` | the X-Trace-Options header and its signature |
| `Propagation.dfy` | the sampler, the propagator, and chains of services |
| `EntrySpans.dfy` | the live entry spans of each trace and their transaction names |
| `Text.dfy`, `Wrappers.dfy` | the parts of Go's `strings` and `strconv` that are called, and `Option` |

Objects that the agent updates in place are classes. Each of their methods is proved equal to a function on
the value of the object (`View()`), and the laws are proved about runs of those functions. Time is a whole
number of nanoseconds since Go's zero time and `Time.Sub` saturates as in Go, so that the first refill of a
new bucket needs no special case. Clock readings, rolled numbers, configuration values and the outcome of
cache insertions are parameters.

## What the code does differently from what one would expect

Each of these is proved, where it shows at a given input or for a whole family of them, and where a law fails
because of it the exact condition under which it holds is proved as well.

- A sample rate accepts one dice value more than it names, so a rate of zero still samples
  (`Oboe.RateAcceptsOneMore`).
- A triggered request reports its bucket's capacity as the rate and the rate as the capacity
  (`Oboe.ReportedBucket`, `Oboe.SwappedReportHappens`).
- A bucket that is full does not move its clock. This never shows, because the one caller takes exactly one
  token at a time and so a bucket is never full between attempts (`TokenBuckets.StaysAtRest`).
- Switching trigger tracing off locally is undone by a URL filter with mode enabled, for a request that is put
  to the engine directly with a URL (`Oboe.SwitchedOffTriggersIff`, `Oboe.SwitchedOffStillTriggers`). The
  sampler passes no URL, so through it no filter ever matters and the switch always wins
  (`Propagation.FiltersDoNotMatter`, `Propagation.SwitchedOffNeverTriggers`).
- A request can be counted as traced while its span is dropped (`Propagation.CountedIsSampledIff` says exactly
  when). It happens to a continued trace with SAMPLE_THROUGH alone (`Propagation.ThroughOnlyHappens`) and to a
  triggered request with TRIGGER_TRACE alone, which even takes a token and is answered with ok
  (`Propagation.TriggerOnlyHappens`).
- The escaping of internal tracestate entries loses values that contain `....`, `.,`, `####` or `#=`, and no
  others (`TraceStates.RoundTripIffUnambiguous`, `TraceStates.PatternsAreLost`).
- A single flush of the counters can report a request as traced and not as requested
  (`Metrics.SnapshotMayTraceMoreThanRequested`), although nothing is lost in total. `Metrics.SnapshotConsistentIff`
  says exactly when a flush reports no more traced than requested.
- The age check stores nil without comparing, so settings that arrive between its load and its write can be
  dropped with their whole time-to-live ahead of them (`Updater.FreshSettingsCanBeLost`). Exactly those are
  (`Updater.WriteHitsOtherSettingsIff`, `Updater.LiveSettingsAreLostIff`).
- The name recorded for an entry span is that of the current span of its trace. It is the span's own name
  when the span ends while it is current, as all do that end in reverse start order. A live span is sure of its own name exactly when it is the current one
  (`EntrySpans.OwnNameIsRecordedIffCurrent`, `EntrySpans.FirstSpanRecordsSecondName`).

## Model

| member | source | states |
|---|---|---|
| TokenBuckets.TokenBucket.SetRateCap | internal/oboe/token_bucket.go:34-43 | sets rate and capacity and cuts the tokens down to the capacity; nothing else changes |
| TokenBuckets.TokenBucket.Count | internal/oboe/token_bucket.go:45-73 | the six counters, the bucket and the answer after one counted request, for every combination of sampled, continued, rate limited and triggered |
| TokenBuckets.TokenBucket.Consume | internal/oboe/token_bucket.go:75-84 | refills and then takes the tokens, or takes none and refuses |
| TokenBuckets.TokenBucket.Update | internal/oboe/token_bucket.go:86-96 | the lazy refill, with its guard, backward clock steps, and Go's saturating time difference |
| TokenBuckets.UpdateInNanoseconds | internal/oboe/token_bucket.go:86-96 | told in nanoseconds: a bucket with room gains rate times nanoseconds over 10^9 or is filled first, gains nothing from a clock that stands still or steps back, and counts at most 2^63-1 nanoseconds; a full bucket does not change |
| TokenBuckets.ConsumeTells | internal/oboe/token_bucket.go:75-84 | granted exactly when the refilled bucket has the tokens, and then exactly these are gone |
| TokenBuckets.CountRequestTells | internal/oboe/token_bucket.go:45-73 | by how much each of the six counters rises, and when the bucket is asked |
| TokenBuckets.FreshTells | internal/oboe/token_bucket.go:34-43 | a new bucket has its settings, no tokens, and the zero time |
| TokenBuckets.StaysAtRest | internal/oboe/token_bucket.go:75-96 | between attempts a bucket with capacity of at least one has room, and its clock is that of the last attempt; below capacity one nothing is ever granted; tokens never become negative |
| TokenBuckets.TokensPayForGrants | internal/oboe/token_bucket.go:75-96 | grants plus remaining tokens never exceed the initial tokens plus rate times the forward clock moves |
| TokenBuckets.WindowedRateBound | internal/oboe/token_bucket.go:75-96 | in every window of every history of a new bucket the grants are at most capacity plus rate times the forward clock moves inside the window, with any backward steps |
| TokenBuckets.GrantsInElapsedTime | internal/oboe/token_bucket.go:75-96 | the same bound in nanoseconds, with the time from the first attempt of the window to the last when the clock does not step back |
| TokenBuckets.RunSplits | internal/oboe/token_bucket.go:75-84 | a history can be cut anywhere: tokens and grants of the second part depend on the bucket the first part leaves |
| TokenBuckets.NoScheduleBeatsGreedy | internal/oboe/token_bucket.go:75-96 | no schedule that may skip grants or stay away, on a bucket no stronger, has more grants than taking a token whenever there is one |
| TokenBuckets.LargerSettingsDominate | internal/oboe/token_bucket.go:34-96 | with larger rate and capacity at least as many of the same attempts are granted in every prefix |
| TokenBuckets.MoreAttemptsGrantNoFewer | internal/oboe/token_bucket.go:75-96 | adding attempts anywhere in a history never lowers the total of grants |
| TokenBuckets.RefusedAttemptsAreInvisible | internal/oboe/token_bucket.go:75-96 | on a clock that does not step back, leaving out any refused attempts changes neither the granted ones nor the tokens after each grant |
| TokenBuckets.GrantedAttemptsAloneAreAllGranted | internal/oboe/token_bucket.go:75-96 | the granted attempts of a history, made alone, are all granted |
| Metrics.RateCounts.FlushRateCounts | internal/metrics/rate_counts.go:29-38 | what is reported is what is taken away, and all counters are zero after |
| Metrics.FlushesConserve | internal/metrics/rate_counts.go:29-86 | however increments and flushes interleave, counter by counter, what was reported, what running flushes hold and what is live add up to the increments |
| Metrics.FlushTakesWindow | internal/metrics/rate_counts.go:29-38 | in every interleaving with any number of flushes, overlapping or not, the value a flush takes for a counter is what was counted since the previous swap of that counter |
| Metrics.FindWindow | internal/metrics/rate_counts.go:29-38 | every value of every flush is covered by this |
| Metrics.SnapshotConsistentIff | internal/metrics/rate_counts.go:29-38 | a flush reports no more traced than requested if and only if no more was traced between its and the previous swap of traced than requested between the swaps of requested; equivalently, if the previous swaps did not leave requested further ahead |
| Metrics.QuietFlushIsConsistent | internal/metrics/rate_counts.go:29-38 | so it does when nothing is counted as traced between its two swaps and no request was between its two increments at the previous flush; for a first flush the second holds by itself |
| Metrics.SnapshotMayTraceMoreThanRequested | internal/metrics/rate_counts.go:29-38 | an interleaving in which one flush has a traced request that it does not have as requested |
| UrlFilters.FirstMatchIsFirst | internal/oboe/url.go:174-181 | the mode looked up is that of the first filter that matches, or unknown, and no other mode is |
| UrlFilters.FiltersMatch | internal/oboe/url.go:78-121 | a filter of extensions matches by the text after the last dot of the last path element, one of an expression by the expression |
| UrlFilters.FiltersTrace | internal/oboe/url.go:139-154 | the mode of a filter is told by the texts enabled and disabled; any other is unknown |
| UrlFilters.Urls.LoadConfig | internal/oboe/url.go:139-154 | the filters become the compiled configured ones, in order; the cache is not touched |
| UrlFilters.Urls.ReloadURLsConfig | internal/oboe/url.go:38-41 | new filters and an empty cache, which agrees with them |
| UrlFilters.Urls.LookupTracingMode | internal/oboe/url.go:174-181 | finds the first match |
| UrlFilters.Urls.GetTracingMode | internal/oboe/url.go:158-172 | with a cache that agrees with the filters the answer is the first match, cached or not, and the cache still agrees |
| UrlFilters.QueryTells | internal/oboe/url.go:158-172 | what a query leaves in the cache |
| UrlFilters.Urls.Evict | internal/oboe/url.go:43-63 | entries that vanish leave an agreeing cache agreeing |
| UrlFilters.Perform | internal/oboe/url.go:38-172 | the operations of a run are what the object does |
| UrlFilters.CacheIsTransparent | internal/oboe/url.go:38-181 | over every run of reloads, queries, failed insertions and evictions the answers are those of an index without a cache |
| SamplingSettings.FlagStringToBin | internal/oboe/oboe.go:325-344 | the loop reads the union of the flags of the comma-separated names |
| SamplingSettings.FlagStringsUnite | internal/oboe/oboe.go:325-344 | joining two flag strings by a comma joins their flags |
| SamplingSettings.FlagIsSetIffListed | internal/oboe/oboe.go:325-344 | each flag is set exactly when its name is listed, and no bit beyond the known flags |
| SamplingSettings.FlagStringBits | internal/oboe/oboe.go:325-344 | each of the five bits is set exactly when its name is in the comma-separated string, and no other |
| SamplingSettings.RateIsClamped | internal/oboe/oboe.go:247-258 | a remote rate outside 0 to 1000000 becomes the nearer end |
| SamplingSettings.ReceivedTells | internal/oboe/oboe.go:260-274 | each field and each bucket of new settings holds what was received for it |
| SamplingSettings.Settings.constructor | internal/oboe/settings.go:46-59 | new settings have three different new empty buckets |
| SamplingSettings.Settings.MergeLocalSetting | internal/oboe/settings.go:63-81 | the rate, flags and source after merging local configuration, with and without OVERRIDE; nothing else changes |
| SamplingSettings.LocalConfigurationTells | internal/oboe/settings.go:63-81 | bit by bit what local configuration makes of the flags, the rate and the source: without OVERRIDE it replaces them, with OVERRIDE it only takes away, unconfigured only the trigger-trace switch counts |
| SamplingSettings.Settings.MergeURLSetting | internal/oboe/settings.go:85-103 | the rate, flags and source for a URL follow from the first matching filter, whatever the cache holds |
| SamplingSettings.UrlModeTells | internal/oboe/settings.go:85-103 | bit by bit what each tracing mode of a URL makes of the flags |
| SamplingSettings.Settings.GetTokenBucketSetting | internal/oboe/settings.go:105-121 | capacity and rate, in this order, of the bucket that belongs to the trigger-trace mode |
| SamplingSettings.MergeLocalIsIdempotent | internal/oboe/settings.go:63-81 | merging the local configuration twice is merging it once |
| SamplingSettings.OverrideContainment | internal/oboe/settings.go:63-103 | with OVERRIDE no local setting and no URL filter adds a flag that was not sent or raises the rate above the clamped remote rate |
| SamplingSettings.TriggerTraceSwitchedOffStillOn | internal/oboe/settings.go:63-103 | for a URL of any tracing mode, with the local switch off, trigger tracing is in effect exactly when that mode is enabled and OVERRIDE, if sent, came with TRIGGER_TRACE |
| Oboe.RateAcceptsOneMore | internal/oboe/oboe.go:321-323 | how many of the million dice values each rate accepts |
| Oboe.AnswersTell | internal/oboe/oboe.go:152-245 | the text that answers X-Trace-Options for every request, from the flags, the request and whether it is traced |
| Oboe.DecisionsTell | internal/oboe/oboe.go:152-245 | for every request whether it is traced, whether the dice are rolled and whether tracing is enabled, from bits, rate, dice and the bucket |
| Oboe.EffectsTell | internal/oboe/oboe.go:152-245 | for every request which counters rise and which bucket is asked |
| Oboe.ReportedBucket | internal/oboe/oboe.go:189-244 | which bucket settings, rate and source a decision reports: a triggered one its own bucket's, swapped; one that follows its parent through SAMPLE_THROUGH_ALWAYS none; every other the main bucket's |
| Oboe.SwappedReportHappens | internal/oboe/oboe.go:189-190 | settings and a request at which the report is wrong |
| Oboe.SwitchedOffTriggersIff | internal/oboe/oboe.go:152-191 | with the local switch off, a triggered request put to the engine with a URL is traced if and only if the first matching filter enables tracing, OVERRIDE did not come without TRIGGER_TRACE, the mode is not invalid and the bucket grants |
| Oboe.SwitchedOffStillTriggers | internal/oboe/oboe.go:152-191 | settings, a filter and a request at which that happens |
| Oboe.Engine.CountTriggered | internal/oboe/oboe.go:170-191 | the branch for triggered requests: counters, bucket, answer and the swapped report |
| Oboe.Engine.SampleRequest | internal/oboe/oboe.go:152-245 | decision, counters and bucket of every request, with and without settings, and that the filters and other buckets stay as they are |
| Oboe.Engine.Receive | internal/oboe/oboe.go:260-274 | new settings with three fresh buckets hold what was received, with the rate clamped |
| Oboe.Engine.UpdateSetting | internal/oboe/oboe.go:260-277 | the settings in place afterwards are new objects with fresh buckets and the local configuration merged in |
| Oboe.Engine.CheckSettingsTimeout | internal/oboe/oboe.go:280-296 | settings go exactly when timestamp plus time-to-live lies before now |
| Oboe.SettingsLiveFor | internal/oboe/oboe.go:260-296 | settings put in place at one time survive a check at another exactly if no more than their time-to-live lies between |
| Oboe.Engine.GetTriggerTraceToken | internal/oboe/oboe.go:310-319 | the key of the settings in place, or none without settings or when it is empty |
| Oboe.Engine.RemoveSetting | internal/oboe/oboe.go:302-304 | settings go and the counters stay |
| Oboe.Engine.FlushRateCounts | internal/oboe/oboe.go:134-149 | with settings all counts are reported and reset; without settings nothing is reported and nothing lost |
| Runs.Perform | internal/oboe/oboe.go:134-304 | the events of a run are what the engine does |
| Runs.DisabledNeverTraces | internal/oboe/settings.go:63-81 | over every run with tracing configured as disabled no request is traced unless a URL filter enables it |
| Runs.TokensAreAccountedFor | internal/oboe/oboe.go:134-304 | over every run: traced minus through is all tokens lost by the buckets, triggered is those of the two trigger-trace buckets, the rest is the main bucket's; requested minus sampled is the continued requests; limited plus tokens is at most sampled |
| Runs.ArrivalBalances | internal/oboe/oboe.go:152-245 | one request keeps the accounts, and a continued request never costs a token |
| Runs.ArrivalUsesMainBucket | internal/oboe/oboe.go:193-221 | a request moves the main bucket exactly when the dice choose it, and starts a trace exactly when the bucket then grants |
| Runs.ArrivalUsesTriggerBucket | internal/oboe/oboe.go:161-191 | a request moves the relaxed or strict bucket exactly when it is triggered in that mode and its answer says ok or rate-exceeded, and is then traced exactly when the bucket grants |
| Runs.NewTracesPerGeneration | internal/oboe/oboe.go:152-277 | over every run with settings replaced, removed or expired, and for each of the three buckets, the traces it pays for are the grants of each generation's own bucket, and at most capacity plus rate times elapsed time, added over the generations |
| Runs.NewTracesPerLoadedGeneration | internal/oboe/oboe.go:152-277 | the same for each bucket when requests finish on settings that were replaced or removed after they loaded them |
| Runs.OneBucketPays | internal/oboe/oboe.go:161-221 | every trace that a request starts rather than continues is paid for by exactly one of the three buckets |
| Runs.AllStartedTracesPerGeneration | internal/oboe/oboe.go:152-277 | all traces started, by dice or by trigger-trace, are at most the allowances of the three buckets of all generations together |
| Runs.NewTracesAreGrants | internal/oboe/oboe.go:193-221 | under one generation the new traces of any requests are the grants of the main bucket at the times the dice chose |
| Runs.MoreGenerousSettingsTraceNoLess | internal/oboe/oboe.go:194-203 | with the same requests, times and dice, raising the sample rate, the bucket rate or the capacity never lowers the number of new traces |
| Updater.SemaphoresHold | internal/oboe/settings_http_updater.go:79-145 | in every interleaving each token is in its channel or with one goroutine, so at most one fetch and one check are in flight and no goroutine blocks on its send |
| Updater.TicksTell | internal/oboe/settings_http_updater.go:90-112 | a tick starts a goroutine exactly when the loop runs and the token is there, and otherwise skips |
| Updater.OnlyInvalidKeyStops | internal/oboe/settings_http_updater.go:79-132 | in every interleaving without cancellation and without an invalid service key polling goes on |
| Updater.FetchOutcomes | internal/oboe/settings_http_updater.go:93-132 | a failed fetch only gives its token back, an invalid key stops the loop; neither touches the settings |
| Updater.CancelStops | internal/oboe/settings_http_updater.go:85-89 | a cancelled loop stops |
| Updater.CheckKeepsLiveSettings | internal/oboe/settings_http_updater.go:138-145 | a check left to itself leaves settings whose time has not run out in place and gives its token back |
| Updater.CheckRemovesExpiredSettings | internal/oboe/oboe.go:284-296 | it removes those whose timestamp plus time-to-live lies before now and gives its token back |
| Updater.SettingsChangeOnlyBy | internal/oboe/oboe.go:260-296 | settings are put in place by publishing alone and removed by a check's write alone |
| Updater.PublishedIsMerged | internal/oboe/settings_http_updater.go:117-132 | in every interleaving the settings a request can see have been merged with the local configuration |
| Updater.PublishedIsContained | internal/oboe/oboe.go:260-277 | in every interleaving the settings a request can see respect a remote OVERRIDE |
| Updater.StalenessIsBounded | internal/oboe/settings_http_updater.go:104-145 | while the loop runs and checks end before the next tick, no settings stay longer than one interval, the loop's latency and one check beyond their expiry |
| Updater.WriteHitsOtherSettingsIff | internal/oboe/oboe.go:284-296 | in every interleaving the write of a check hits other settings than the expired ones it loaded if and only if an update was published between its load and its write; otherwise it hits the expired ones |
| Updater.PublicationsAreCounted | internal/oboe/oboe.go:276 | the count by which this is told is the number of publications in the history |
| Updater.LiveSettingsAreLostIff | internal/oboe/oboe.go:284-296 | when checks are timely and settings that arrive during one outlast it, live settings are lost if and only if an update was published between load and write |
| Updater.FreshSettingsCanBeLost | internal/oboe/oboe.go:284-296 | an interleaving in which fresh settings are removed |
| W3cFormat.PrintThenParse | internal/w3cfmt/w3cfmt.go:34-63 | parsing the printed form of any span id and flags is valid and returns both |
| W3cFormat.ParseThenPrint | internal/w3cfmt/w3cfmt.go:34-63 | printing what was parsed from an accepted text gives that text |
| W3cFormat.AcceptsExactlyPrinted | internal/w3cfmt/w3cfmt.go:34-63 | exactly the printed forms are accepted |
| W3cFormat.DigitsTell | internal/w3cfmt/w3cfmt.go:34-40 | each byte is printed as two digits from 0 to 9 and a to f, the higher one first |
| W3cFormat.PrintedTells | internal/w3cfmt/w3cfmt.go:36-40 | where the bytes of the span id, the dash and the flags stand in the 19 characters |
| TraceStates.DeleteLaws | internal/swotel/tracestate.go:73-85 | deleting an entry removes it, keeps the others, and is idempotent and independent of order |
| TraceStates.CaptureTells | internal/swotel/tracestate.go:83-85 | exactly the entries of the two own keys are left out, in order |
| TraceStates.GetTells | internal/swotel/tracestate.go:40-42 | the value of a key is that of its first entry, or empty |
| TraceStates.InsertLaws | internal/swotel/tracestate.go:40-46 | what is set is read back, other entries keep their values, and the rest of the list stays as it is |
| TraceStates.RoundTripIffUnambiguous | internal/swotel/tracestate.go:51-71 | decoding the encoding of a value gives the value if and only if it contains none of four patterns |
| TraceStates.PatternsAreLost | internal/swotel/tracestate.go:51-71 | each of the four patterns is itself a value that is lost |
| TraceStates.EncodingIsClean | internal/swotel/tracestate.go:51-59 | an encoded value has no comma and no equals sign |
| TraceStates.SecondTripChangesNothing | internal/swotel/tracestate.go:51-71 | encoding and decoding twice gives what doing it once gives, which survives every further trip |
| TraceStates.UnknownKeysFail | internal/swotel/tracestate.go:51-94 | setting, reading and removing fail, and change nothing, exactly for unknown keys |
| TraceStates.InternalStateRoundTrip | internal/swotel/tracestate.go:51-94 | a value is read back from the trace state exactly when its key is known and it survives the escaping |
| XTrace.ParseOptions | internal/xtrace/xtrace.go:67-111 | the loop computes the fold of the options from the left |
| XTrace.OptionTells | internal/xtrace/xtrace.go:76-107 | what an option of key and value does to the result of any header before it, for every key |
| XTrace.BareOptionTells | internal/xtrace/xtrace.go:82-89 | what an option without a value does, for every key |
| XTrace.EmptyHeader | internal/xtrace/xtrace.go:67-75 | the empty header sets nothing |
| XTrace.TimestampTells | internal/xtrace/xtrace.go:93-99 | every 64-bit number is taken as timestamp, and a value that is not a number adds ts to the ignored keys |
| XTrace.ParserIsFold | internal/xtrace/xtrace.go:67-111 | parsing two headers joined by a semicolon is continuing with the second where the first left off |
| XTrace.RunLengthDoesNotMatter | internal/xtrace/xtrace.go:67-111 | longer runs of semicolons, leading and trailing ones change nothing |
| XTrace.PaddingAnywhereDoesNotMatter | internal/xtrace/xtrace.go:67-111 | blanks around any key, with or without a value, and around any value change nothing |
| XTrace.ParsedHeaderMeans | internal/xtrace/xtrace.go:67-111 | what each field of the result is, told from the options without the loop: the flag, the last sw-keys, ts and value of each custom key, and the ignored keys in order |
| XTrace.SignatureValidIff | internal/xtrace/xtrace.go:112-223 | for any key: a signature is accepted if and only if there is one, the header's timestamp is within five minutes, a key is known and the hash of the header equals it |
| XTrace.StatusTells | internal/xtrace/auth.go:28-45 | the text for each outcome of the check, the first thing that is wrong deciding |
| Propagation.Sampler.ShouldSample | internal/sampler/sampler.go:85-144 | decision, trace state and attributes for local, remote and missing parents, with the signature checked by the key in place, and what it does to the engine |
| Propagation.LocalChildFollowsParent | internal/sampler/sampler.go:89-94 | a child of a local span is sampled exactly when its parent is, keeps its trace state, and does not reach the engine |
| Propagation.OtherSpansFollowEngine | internal/sampler/sampler.go:95-141 | every other span is dropped, only recorded or sampled by flags and decision, with the attributes only when sampled |
| Propagation.ContinuedIff | internal/w3cfmt/w3cfmt.go:42-63 | a request continues a trace exactly when its parent is valid and its sw entry has the printed form |
| Propagation.ValidContexts | internal/w3cfmt/w3cfmt.go:42-49 | a span context is invalid exactly when its trace id or its span id is all zeros |
| Propagation.HeaderModeTells | internal/sampler/sampler.go:146-159 | the trigger-trace mode of every header |
| Propagation.ResponseTells | internal/sampler/sampler.go:59-72 | the text that answers every header |
| Propagation.TraceStateKept | internal/sampler/sampler.go:51-83 | the new trace state has the parent's entries, or none without a valid parent, but for the answer |
| Propagation.SpansBelowFollow | internal/sampler/sampler.go:89-94 | every span below a local span, at any depth, has its decision and trace state |
| Propagation.SendFromBelow | internal/propagator/propagator.go:32-64 | the next service reads the decision of a service's first span from whichever span below it the request is sent |
| Propagation.AttributeNames | internal/sampler/sampler.go:115-134 | the names of the attributes and the numbers of the sources |
| Propagation.Sampler.Attributes | internal/sampler/sampler.go:112-135 | the attributes appended one by one are those of the decision and the options |
| Propagation.AttributesTell | internal/sampler/sampler.go:112-135 | each fixed attribute says exactly what it stands for, every custom key of the header is attached with its value and hides none of them, and nothing else is attached |
| Propagation.SignatureNeedsCurrentKey | internal/xtrace/xtrace.go:178-194 | through the sampler a signature is accepted if and only if it is timely and is the hash under the non-empty key of the settings in place |
| Propagation.CountedIsSampledIff | internal/sampler/sampler.go:102-110 | a request of a remote or missing parent is counted as traced exactly when its span is sampled, if and only if the flags enable SAMPLE_START or SAMPLE_THROUGH_ALWAYS, or it is neither a triggered request that is allowed and granted nor a continued one that SAMPLE_THROUGH and the dice let through |
| Propagation.TriggerOnlyIsCountedButDropped | internal/oboe/oboe.go:170-191 | with TRIGGER_TRACE alone a triggered request takes a token, is counted as traced and triggered, is answered with ok, and is dropped |
| Propagation.TriggerOnlyHappens | internal/sampler/sampler.go:102-110 | a remote flag string, a header and a bucket at which that happens |
| Propagation.FiltersDoNotMatter | internal/sampler/sampler.go:96-102 | the sampler gives the same result for any two lists of URL filters |
| Propagation.SwitchedOffNeverTriggers | internal/sampler/sampler.go:96-110 | after any events with the local switch off, no triggered request is recorded and sampled through the sampler |
| Propagation.ResponseReadsBack | internal/sampler/sampler.go:51-83 | every response that the sampler stores in the trace state is read back unchanged |
| Propagation.InjectedHeader | internal/propagator/propagator.go:32-64 | whatever tracestate header the carrier holds, the injected one says what the span decided, keeps the other vendors' entries of that header in order, and drops the internal entry; only an invalid span into a carrier without a header injects nothing |
| Propagation.HandleContinued | internal/sampler/sampler.go:85-144 | with a valid incoming decision a service traces if and only if that decision is sampled and the service lets it through |
| Propagation.SendCarriesDecision | internal/propagator/propagator.go:32-64 | the next service reads a valid decision equal to this service's |
| Propagation.ChainDecision | internal/oboe/oboe.go:194-221 | for any number of services and whatever the first of them receives, a service traces if and only if the first does and every service from the second up to it lets it through |
| Propagation.EveryServiceFollowsRoot | internal/oboe/oboe.go:204-212 | with SAMPLE_THROUGH_ALWAYS at every later service all decisions equal the first one's, whatever it received |
| Propagation.UnsampledStaysUnsampled | internal/oboe/oboe.go:204-219 | after a valid unsampled decision no service traces, whatever its settings, dice and X-Trace-Options |
| Propagation.ThroughOnlyIsCountedButDropped | internal/sampler/sampler.go:112-127 | with SAMPLE_THROUGH alone a continued trace is counted as traced and through, and dropped |
| Propagation.ThroughOnlyHappens | internal/sampler/sampler.go:102-110 | a remote flag string and a parent at which that happens |
| EntrySpans.StdManager.Push | internal/entryspans/entryspans.go:79-89 | the span is appended, unnamed, to the list of its trace; all else stays |
| EntrySpans.StdManager.Current | internal/entryspans/entryspans.go:91-109 | the last entry of the list of the trace, or none |
| EntrySpans.StdManager.Delete | internal/entryspans/entryspans.go:120-146 | the first entry of that span goes, an emptied list goes with it, and a span that is not there changes nothing and is an error |
| EntrySpans.StdManager.SetTransactionName | internal/entryspans/entryspans.go:160-173 | names the current entry of the trace and sets the attribute of its span, and may change no other entry and no other span; an error without one |
| EntrySpans.FailuresTell | internal/entryspans/entryspans.go:120-173 | when deletion and naming fail, that they then change nothing, and that no operation touches another trace |
| EntrySpans.Processor.GetTransactionName | internal/txn/txn.go:28-35 | the name of the current entry span, else the derived name |
| EntrySpans.Processor.OnStart | internal/processor/processor.go:41-52 | an entry span gets the name found before it is pushed as its attribute, and is pushed; other spans are left alone |
| EntrySpans.Processor.OnEnd | internal/processor/processor.go:54-66 | the name is recorded before the entry span is removed; other spans are left alone |
| EntrySpans.Perform | internal/entryspans/entryspans.go:79-173 | the events of a history are what the manager does |
| EntrySpans.IndexIsLiveSpans | internal/entryspans/entryspans.go:79-146 | after every history the list of every trace is exactly its started and not ended spans in start order, no list is empty, and the index is empty once all have ended |
| EntrySpans.NameIsCurrentSpans | internal/entryspans/entryspans.go:160-184 | after every history the name found for a trace is the last one set while its current span was current, else the derived one |
| EntrySpans.CurrentSpanRecordsOwnName | internal/processor/processor.go:61-66 | a span that ends while it is current is recorded under the last name set while it was current, else its derived name, whatever the other spans of the history do |
| EntrySpans.NestedSpansRecordOwnNames | internal/processor/processor.go:61-66 | when all spans end in reverse start order this holds for every one of them |
| EntrySpans.OutOfOrderEndRecordsCurrentName | internal/processor/processor.go:61-66 | a live span that is not the current one is recorded under the last name given to the trace, although its own is different |
| EntrySpans.OwnNameIsRecordedIffCurrent | internal/processor/processor.go:61-66 | a live span is recorded under its own name whatever the trace is named next, if and only if it is the current span |
| EntrySpans.FirstSpanRecordsSecondName | internal/processor/processor.go:61-66 | a history of two spans in which the first is recorded under the name of the second |
| Text.SplitConcat | internal/oboe/oboe.go:328 | splitting a joined text is joining the splits |
| Text.ParseFormatted | internal/xtrace/xtrace.go:211-223 | the decimal form of every 64-bit number is read back |
| Text.ParseIntTells | internal/xtrace/xtrace.go:94-99 | a plus sign is read, and no number beyond 64 bits is |
| Text.TrimSpaceTells | internal/xtrace/xtrace.go:78-90 | trimming takes off exactly the blanks at the ends |
| Text.AsciiBlanks | internal/xtrace/xtrace.go:78-90 | which ASCII characters are blanks |

## Left out

- Locks and atomic pointers: each method of a class is one step. Steps that really interleave are modelled only for the counters (`Metrics`) and the settings updater (`Updater`), which are step systems on values for that reason.
- Runs: the laws of whole runs treat one request as one step, except Runs.NewTracesPerLoadedGeneration, and keep one set of URL filters; the filters change only in the runs of `UrlFilters`.
- Rounding, infinities and NaN of floating-point numbers: tokens, rates and durations in seconds are reals.
- Overflow of the 64-bit counters and of time.Add.
- TokenBuckets.RefusedAttemptsAreInvisible: assumes that all attempts lie within 292 years of the first refill, the longest Go duration.
- Regular expressions that do not compile: the source then keeps a nil filter and panics on the first query, and the model takes compiled expressions, as arbitrary predicates on URLs.
- freecache and its one-hour expiry: a map from which entries may vanish at any time and into which insertion may fail.
- The 32-member limit and the syntax checks of OpenTelemetry's TraceState: insertion succeeds, and the header's own printing and parsing is the identity.
- Propagation.Inject: takes the carrier's tracestate header already parsed; a header that does not parse, which the source leaves alone, and traceparent printing and parsing are not modelled.
- Propagation.Send: the standard propagator has run before and has put the span's own trace state into the header.
- Propagation.ChainDecision: span flags written by a service are 0 or 1, and other vendors on the way leave the sw entry alone, as section 3.5 of W3C Trace Context asks.
- HMAC-SHA1: an arbitrary function of key and data.
- Propagation.AttributesTell: attributes are told by key, not in the order of appending, which for custom keys is that of a Go map; numbers are not formatted as text.
- Text that is not valid UTF-8: strings are sequences of characters.
- deriveTransactionName and extractTransactionNameFromPath: the derived name of a span is given with the span; they would only add easy members.
- The manager that does nothing, used in AWS Lambda.
- Updater.StalenessIsBounded: counts from the expiry, or from the moment of storing when settings arrive already expired; says nothing after the loop has stopped, because then nothing checks them.
- HTTP, JSON, file watching, proxies, exporters, resource detection, logging and the reading of configuration: input and output only. The local sample rate, tracing mode and trigger-trace switch are parameters.
