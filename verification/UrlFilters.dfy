/**
  Transaction filtering by URL and its cache: internal/oboe/url.go and internal/oboe/tracing_mode.go.

  The cache holds strings, and entries may vanish from it at any time (eviction, expiry) or fail to be
  stored. A compiled regular expression is an arbitrary predicate on URLs.
 */
module UrlFilters {

  // ---------- tracing modes ----------

  datatype TracingMode = TraceDisabled | TraceEnabled | TraceUnknown {
    function ToString(): string {
      match this
      case TraceEnabled => "enabled"
      case TraceDisabled => "disabled"
      case TraceUnknown => "unknown"
    }
  }

  function NewTracingMode(mode: string): TracingMode {
    if mode == "disabled" then TraceDisabled
    else if mode == "enabled" then TraceEnabled
    else TraceUnknown
  }

  // ---------- filters ----------

  /** One configured filter. `regex` is the compiled expression. */
  datatype TransactionFilter =
    | ByRegex(regex: string -> bool, tracing: string)
    | ByExtensions(extensions: seq<string>, tracing: string)

  /** filepath.Ext: from the last dot of the last path element, or nothing. */
  function Ext(path: string): string {
    if path == "" || path[|path| - 1] == '/' then ""
    else if path[|path| - 1] == '.' then "."
    else
      var front := Ext(path[..|path| - 1]);
      if front == "" then "" else front + [path[|path| - 1]]
  }

  function TrimLeftDots(s: string): string {
    if s != "" && s[0] == '.' then TrimLeftDots(s[1..]) else s
  }

  datatype UrlFilter =
    | RegexFilter(regex: string -> bool, trace: TracingMode)
    | ExtensionFilter(exts: set<string>, trace: TracingMode)
  {
    predicate Match(url: string) {
      match this
      case RegexFilter(regex, _) => regex(url)
      case ExtensionFilter(exts, _) => TrimLeftDots(Ext(url)) in exts
    }
  }

  function NewFilter(f: TransactionFilter): UrlFilter {
    match f
    case ByRegex(regex, tracing) => RegexFilter(regex, NewTracingMode(tracing))
    case ByExtensions(extensions, tracing) => ExtensionFilter((set e | e in extensions), NewTracingMode(tracing))
  }

  function NewFilters(fs: seq<TransactionFilter>): seq<UrlFilter> {
    seq(|fs|, i requires 0 <= i < |fs| => NewFilter(fs[i]))
  }

  lemma {:induction false} ExtAfter(a: string, e: string)
    requires '.' !in e && '/' !in e
    ensures Ext(a + "." + e) == "." + e
    ensures Ext(a + "/" + e) == "" && Ext(e) == ""
  {
    var x, y := a + "." + e, a + "/" + e;
    if e == [] {
      assert x[|x| - 1] == '.' && y[|y| - 1] == '/';
    } else {
      var n := |e| - 1;
      assert e[n] in e;
      ExtAfter(a, e[..n]);
      assert x[..|x| - 1] == a + "." + e[..n] && y[..|y| - 1] == a + "/" + e[..n];
      assert e == e[..n] + [e[n]];
    }
  }

  /**
    What configured filters match. One of extensions matches a URL by the text after the last dot of its last
    path element, and one without a dot there by the empty extension; one of an expression by the
    expression.
   */
  lemma FiltersMatch(extensions: seq<string>, regex: string -> bool, tracing: string, url: string, a: string, e: string)
    requires '.' !in e && '/' !in e
    ensures NewFilter(ByRegex(regex, tracing)).Match(url) == regex(url)
    ensures NewFilter(ByExtensions(extensions, tracing)).Match(a + "." + e) <==> e in extensions
    ensures NewFilter(ByExtensions(extensions, tracing)).Match(a + "/" + e) <==> "" in extensions
    ensures NewFilter(ByExtensions(extensions, tracing)).Match(e) <==> "" in extensions
  {
    ExtAfter(a, e);
    DotComesOff(e);
    hide Ext;
    hide TrimLeftDots;
  }

  lemma DotComesOff(e: string)
    requires '.' !in e
    ensures TrimLeftDots("." + e) == e && TrimLeftDots("") == ""
  {
    assert ("." + e)[1..] == e;
    if e != "" {
      assert e[0] in e;
      assert TrimLeftDots(e) == e;
    }
  }

  /** The mode of a configured filter is told by its text. */
  lemma FiltersTrace(f: TransactionFilter)
    ensures NewFilter(f).trace == if f.tracing == "enabled" then TraceEnabled else if f.tracing == "disabled" then TraceDisabled else TraceUnknown
  {
    assert "enabled"[0] == 'e' && "disabled"[0] == 'd';
  }

  /** `mode` is the mode of the first filter that matches, or unknown when none does. */
  ghost predicate IsFirstMatch(filters: seq<UrlFilter>, url: string, mode: TracingMode) {
    || (mode == TraceUnknown && forall i :: 0 <= i < |filters| ==> !filters[i].Match(url))
    || exists i :: 0 <= i < |filters| && filters[i].Match(url) && mode == filters[i].trace
                   && forall j :: 0 <= j < i ==> !filters[j].Match(url)
  }

  function FirstMatch(filters: seq<UrlFilter>, url: string): TracingMode {
    if filters == [] then TraceUnknown
    else if filters[0].Match(url) then filters[0].trace
    else FirstMatch(filters[1..], url)
  }

  lemma IsFirstMatchSkips(filters: seq<UrlFilter>, url: string, mode: TracingMode)
    requires filters != [] && !filters[0].Match(url) && IsFirstMatch(filters[1..], url, mode)
    ensures IsFirstMatch(filters, url, mode)
  {
    var rest := filters[1..];
    if !(mode == TraceUnknown && forall i :: 0 <= i < |rest| ==> !rest[i].Match(url)) {
      var i :| 0 <= i < |rest| && rest[i].Match(url) && mode == rest[i].trace && forall j :: 0 <= j < i ==> !rest[j].Match(url);
      assert filters[i + 1].Match(url) && forall j :: 0 <= j < i + 1 ==> !filters[j].Match(url);
    }
  }

  lemma IsFirstMatchOfRest(filters: seq<UrlFilter>, url: string, mode: TracingMode)
    requires filters != [] && !filters[0].Match(url) && IsFirstMatch(filters, url, mode)
    ensures IsFirstMatch(filters[1..], url, mode)
  {
    var rest := filters[1..];
    assert forall j :: 0 <= j < |rest| ==> rest[j] == filters[j + 1];
    if !(mode == TraceUnknown && forall i :: 0 <= i < |filters| ==> !filters[i].Match(url)) {
      var i :| 0 <= i < |filters| && filters[i].Match(url) && mode == filters[i].trace && forall j :: 0 <= j < i ==> !filters[j].Match(url);
      assert rest[i - 1].Match(url);
    }
  }

  lemma {:induction false} FirstMatchIsFirst(filters: seq<UrlFilter>, url: string, mode: TracingMode)
    ensures mode == FirstMatch(filters, url) <==> IsFirstMatch(filters, url, mode)
  {
    if filters != [] && !filters[0].Match(url) {
      FirstMatchIsFirst(filters[1..], url, mode);
      if IsFirstMatch(filters[1..], url, mode) {
        IsFirstMatchSkips(filters, url, mode);
      }
      if IsFirstMatch(filters, url, mode) {
        IsFirstMatchOfRest(filters, url, mode);
      }
      hide IsFirstMatch;
    }
  }

  // ---------- the index with its cache ----------

  datatype Index = Index(filters: seq<UrlFilter>, cache: map<string, string>)

  /** A query. `stored` says whether the cache accepted the new entry. */
  function Query(x: Index, url: string, stored: bool): (Index, TracingMode) {
    if |x.filters| == 0 || url == "" then (x, TraceUnknown)
    else if url in x.cache then (x, NewTracingMode(x.cache[url]))
    else
      var mode := FirstMatch(x.filters, url);
      (if stored then x.(cache := x.cache[url := mode.ToString()]) else x, mode)
  }

  /** Every cached string stands for the answer a lookup would give now. */
  ghost predicate Coherent(x: Index) {
    forall url :: url in x.cache ==> NewTracingMode(x.cache[url]) == FirstMatch(x.filters, url)
  }

  /** What a query should answer, said without the cache. */
  function Answer(filters: seq<UrlFilter>, url: string): TracingMode {
    if url == "" then TraceUnknown else FirstMatch(filters, url)
  }

  lemma QueryIsCoherent(x: Index, url: string, stored: bool)
    requires Coherent(x)
    ensures Coherent(Query(x, url, stored).0) && Query(x, url, stored).1 == Answer(x.filters, url)
  {
    var mode := FirstMatch(x.filters, url);
    assert NewTracingMode(mode.ToString()) == mode by {
      assert "enabled"[0] == 'e' && "disabled"[0] == 'd' && "unknown"[0] == 'u';
    }
  }

  /** What a query leaves in the cache. */
  lemma QueryTells(x: Index, url: string, stored: bool)
    ensures var y := Query(x, url, stored).0;
            && y.filters == x.filters
            && y.cache ==
                 if x.filters == [] || url == "" || url in x.cache || !stored then x.cache
                 else x.cache[url := match FirstMatch(x.filters, url)
                   case TraceEnabled => "enabled"
                   case TraceDisabled => "disabled"
                   case TraceUnknown => "unknown"]
  {
    hide FirstMatch;
  }

  class Urls {
    var cache: map<string, string>
    var filters: seq<UrlFilter>

    ghost function View(): Index
      reads this
    {
      Index(filters, cache)
    }

    constructor ()
      ensures View() == Index([], map[])
    {
      cache, filters := map[], [];
    }

    method LoadConfig(fs: seq<TransactionFilter>)
      modifies this
      ensures View() == Index(NewFilters(fs), old(cache))
    {
      filters := [];
      for i := 0 to |fs|
        invariant filters == NewFilters(fs)[..i] && cache == old(cache)
      {
        filters := filters + [NewFilter(fs[i])];
      }
    }

    method ReloadURLsConfig(fs: seq<TransactionFilter>)
      modifies this
      ensures View() == Index(NewFilters(fs), map[]) && Coherent(View())
    {
      LoadConfig(fs);
      cache := map[];
    }

    method LookupTracingMode(url: string) returns (mode: TracingMode)
      ensures mode == FirstMatch(filters, url) && IsFirstMatch(filters, url, mode)
    {
      for i := 0 to |filters|
        invariant forall j :: 0 <= j < i ==> !filters[j].Match(url)
        invariant FirstMatch(filters, url) == FirstMatch(filters[i..], url)
      {
        if filters[i].Match(url) {
          return filters[i].trace;
        }
      }
      return TraceUnknown;
    }

    /** With a coherent cache the answer is the first match of the configured filters, cached or not. */
    method GetTracingMode(url: string, stored: bool) returns (mode: TracingMode)
      requires Coherent(View())
      modifies this
      ensures (View(), mode) == Query(old(View()), url, stored)
      ensures Coherent(View()) && filters == old(filters) && mode == Answer(filters, url)
    {
      QueryIsCoherent(View(), url, stored);
      if |filters| == 0 || url == "" {
        return TraceUnknown;
      }
      if url in cache {
        return NewTracingMode(cache[url]);
      }
      mode := LookupTracingMode(url);
      if stored {
        cache := cache[url := mode.ToString()];
      }
    }

    /** Entries leave the cache on their own. */
    method Evict(keys: set<string>)
      modifies this
      ensures View() == old(View()).(cache := old(cache) - keys)
      ensures old(Coherent(View())) ==> Coherent(View())
    {
      cache := cache - keys;
    }
  }

  // ---------- every run ----------

  datatype Op =
    | Reload(fs: seq<TransactionFilter>)
    | Ask(url: string, stored: bool)
    | Vanish(keys: set<string>)

  function Step(x: Index, op: Op): Index {
    match op
    case Reload(fs) => Index(NewFilters(fs), map[])
    case Ask(url, stored) => Query(x, url, stored).0
    case Vanish(keys) => x.(cache := x.cache - keys)
  }

  /** An operation is what the object does with it. */
  method Perform(urls: Urls, op: Op)
    requires Coherent(urls.View())
    modifies urls
    ensures urls.View() == Step(old(urls.View()), op) && Coherent(urls.View())
  {
    match op
    case Reload(fs) => urls.ReloadURLsConfig(fs);
    case Ask(url, stored) =>
      var _ := urls.GetTracingMode(url, stored);
    case Vanish(keys) => urls.Evict(keys);
  }

  function Answers(x: Index, ops: seq<Op>): seq<TracingMode>
    decreases ops
  {
    if ops == [] then []
    else (if ops[0].Ask? then [Query(x, ops[0].url, ops[0].stored).1] else []) + Answers(Step(x, ops[0]), ops[1..])
  }

  /** The same run on an index that never caches anything. */
  function UncachedAnswers(filters: seq<UrlFilter>, ops: seq<Op>): seq<TracingMode>
    decreases ops
  {
    if ops == [] then []
    else match ops[0]
      case Reload(fs) => UncachedAnswers(NewFilters(fs), ops[1..])
      case Ask(url, _) => [Answer(filters, url)] + UncachedAnswers(filters, ops[1..])
      case Vanish(_) => UncachedAnswers(filters, ops[1..])
  }

  lemma {:induction false} CoherentRun(x: Index, ops: seq<Op>)
    requires Coherent(x)
    ensures Answers(x, ops) == UncachedAnswers(x.filters, ops)
    decreases ops
  {
    if ops != [] {
      if ops[0].Ask? {
        QueryIsCoherent(x, ops[0].url, ops[0].stored);
      }
      CoherentRun(Step(x, ops[0]), ops[1..]);
    }
  }

  /** Over any run from an empty cache nobody can tell that there is a cache. */
  lemma CacheIsTransparent(filters: seq<UrlFilter>, ops: seq<Op>)
    ensures Answers(Index(filters, map[]), ops) == UncachedAnswers(filters, ops)
  {
    CoherentRun(Index(filters, map[]), ops);
  }
}
