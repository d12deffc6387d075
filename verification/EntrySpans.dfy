/**
  The live entry spans of each trace and their transaction names: internal/entryspans/entryspans.go,
  driven by the span processor of internal/processor/processor.go, with the recording of
  internal/metrics/otel.go and the name lookup of internal/txn/txn.go.

  Trace and span ids are compared only, so they are numbers here.
 */
module EntrySpans {
  import opened Wrappers

  type TraceId = int
  type SpanId = int

  // ---------- the index as a value ----------

  datatype Live = Live(spanId: SpanId, txnName: string)

  type Index = map<TraceId, seq<Live>>

  function ListOf(m: Index, tid: TraceId): seq<Live> {
    if tid in m then m[tid] else []
  }

  function Pushed(m: Index, tid: TraceId, sid: SpanId): Index {
    m[tid := ListOf(m, tid) + [Live(sid, "")]]
  }

  /** The list without the first entry of that span id. */
  function Without(list: seq<Live>, sid: SpanId): seq<Live> {
    if list == [] then []
    else if list[0].spanId == sid then list[1..]
    else [list[0]] + Without(list[1..], sid)
  }

  predicate Holds(list: seq<Live>, sid: SpanId) {
    exists i :: 0 <= i < |list| && list[i].spanId == sid
  }

  /** Deletion keeps no empty list; a deletion that finds nothing changes nothing. */
  function Deleted(m: Index, tid: TraceId, sid: SpanId): (Index, bool) {
    if tid in m && Holds(m[tid], sid) then
      var rest := Without(m[tid], sid);
      (if rest == [] then m - {tid} else m[tid := rest], true)
    else (m, false)
  }

  function CurrentOf(m: Index, tid: TraceId): Option<Live> {
    var list := ListOf(m, tid);
    if list == [] then None else Some(list[|list| - 1])
  }

  function Named(m: Index, tid: TraceId, name: string): (Index, bool) {
    var list := ListOf(m, tid);
    if list == [] then (m, false)
    else (m[tid := list[|list| - 1 := list[|list| - 1].(txnName := name)]], true)
  }

  /** The name of the current entry span of the trace if it has one, else the derived name. */
  function NameFor(m: Index, tid: TraceId, derived: string): string {
    match CurrentOf(m, tid)
    case Some(live) => if live.txnName != "" then live.txnName else derived
    case None => derived
  }

  /** Deletion fails, and changes nothing, exactly when the trace has no entry of that span; naming exactly when it has none at all. */
  lemma FailuresTell(m: Index, tid: TraceId, sid: SpanId, name: string)
    ensures Deleted(m, tid, sid).1 <==> exists i :: 0 <= i < |ListOf(m, tid)| && ListOf(m, tid)[i].spanId == sid
    ensures !Deleted(m, tid, sid).1 ==> Deleted(m, tid, sid).0 == m
    ensures Named(m, tid, name).1 <==> ListOf(m, tid) != []
    ensures !Named(m, tid, name).1 ==> Named(m, tid, name).0 == m
    ensures forall t :: t != tid ==> ListOf(Deleted(m, tid, sid).0, t) == ListOf(m, t)
    ensures forall t :: t != tid ==> ListOf(Named(m, tid, name).0, t) == ListOf(m, t)
    ensures forall t :: t != tid ==> ListOf(Pushed(m, tid, sid), t) == ListOf(m, t)
  {
    hide Without;
    assert Holds(ListOf(m, tid), sid) <==> Deleted(m, tid, sid).1;
  }

  // ---------- the index as the source has it ----------

  /** A span of the SDK. `derived` is the name its own data give; `transaction` is its sw.transaction attribute. */
  class Span {
    const traceId: TraceId
    const spanId: SpanId
    const hasValidParent: bool
    const hasRemoteParent: bool
    var derived: string
    var transaction: Option<string>

    constructor (traceId: TraceId, spanId: SpanId, hasValidParent: bool, hasRemoteParent: bool, derived: string)
      ensures this.traceId == traceId && this.spanId == spanId
      ensures this.hasValidParent == hasValidParent && this.hasRemoteParent == hasRemoteParent
      ensures this.derived == derived && transaction == None
    {
      this.traceId, this.spanId := traceId, spanId;
      this.hasValidParent, this.hasRemoteParent := hasValidParent, hasRemoteParent;
      this.derived, this.transaction := derived, None;
    }

    predicate IsEntrySpan() {
      !hasValidParent || hasRemoteParent
    }
  }

  class EntrySpan {
    const spanId: SpanId
    const spanHandle: Span
    var txnName: string
    ghost const home: TraceId

    constructor (ghost home: TraceId, span: Span)
      ensures spanId == span.spanId && spanHandle == span && txnName == "" && this.home == home
    {
      this.home, spanId, spanHandle, txnName := home, span.spanId, span, "";
    }

    ghost function View(): Live
      reads this
    {
      Live(spanId, txnName)
    }
  }

  ghost function EntriesOf(spans: map<TraceId, seq<EntrySpan>>): set<EntrySpan> {
    set t, i | t in spans && 0 <= i < |spans[t]| :: spans[t][i]
  }

  ghost function ViewList(list: seq<EntrySpan>): seq<Live>
    reads list
  {
    seq(|list|, i requires 0 <= i < |list| reads list => list[i].View())
  }

  ghost function ViewOf(spans: map<TraceId, seq<EntrySpan>>): Index
    reads EntriesOf(spans)
  {
    map t | t in spans :: ViewList(spans[t])
  }

  lemma ViewOfUpdate(spans: map<TraceId, seq<EntrySpan>>, tid: TraceId, list: seq<EntrySpan>)
    ensures ViewOf(spans[tid := list]) == ViewOf(spans)[tid := ViewList(list)]
  {
    SameIndex(ViewOf(spans[tid := list]), ViewOf(spans)[tid := ViewList(list)]);
  }

  lemma ViewOfRemoval(spans: map<TraceId, seq<EntrySpan>>, tid: TraceId)
    ensures ViewOf(spans - {tid}) == ViewOf(spans) - {tid}
  {
    SameIndex(ViewOf(spans - {tid}), ViewOf(spans) - {tid});
  }

  lemma ViewListParts(list: seq<EntrySpan>, i: nat)
    requires i < |list|
    ensures |ViewList(list)| == |list| && forall j :: 0 <= j < |list| ==> ViewList(list)[j].spanId == list[j].spanId
    ensures ViewList(list[..i] + list[i + 1..]) == ViewList(list)[..i] + ViewList(list)[i + 1..]
  {
  }

  lemma ViewListWithout(list: seq<EntrySpan>, i: nat)
    requires i < |list| && forall j :: 0 <= j < i ==> list[j].spanId != list[i].spanId
    ensures ViewList(list[..i] + list[i + 1..]) == Without(ViewList(list), list[i].spanId)
    ensures Holds(ViewList(list), list[i].spanId)
  {
    ViewListParts(list, i);
    hide ViewList;
    hide Without;
    WithoutAt(ViewList(list), i, list[i].spanId);
  }

  /** A list of different entries that all belong to one trace. */
  ghost predicate Settled(list: seq<EntrySpan>, tid: TraceId) {
    && (forall i :: 0 <= i < |list| ==> list[i].home == tid)
    && (forall i, j :: 0 <= i < j < |list| ==> list[i] != list[j])
  }

  /** The current entry of a trace is nowhere else. */
  lemma OnlyPlace(spans: map<TraceId, seq<EntrySpan>>, tid: TraceId)
    requires (forall t :: t in spans ==> Settled(spans[t], t)) && tid in spans && spans[tid] != []
    ensures var last := |spans[tid]| - 1;
            forall t, i :: t in spans && 0 <= i < |spans[t]| && spans[t][i] == spans[tid][last] ==> t == tid && i == last
  {
  }

  lemma SettledWithout(list: seq<EntrySpan>, i: nat, tid: TraceId)
    requires i < |list| && Settled(list, tid)
    ensures Settled(list[..i] + list[i + 1..], tid)
    ensures forall e :: e in list[..i] + list[i + 1..] ==> e in list
  {
  }

  lemma SettledAppend(list: seq<EntrySpan>, entry: EntrySpan, tid: TraceId)
    requires Settled(list, tid) && entry !in list && entry.home == tid
    ensures Settled(list + [entry], tid)
  {
  }

  lemma ViewListAppend(list: seq<EntrySpan>, entry: EntrySpan)
    ensures ViewList(list + [entry]) == ViewList(list) + [entry.View()]
  {
  }

  lemma EntriesGrow(spans: map<TraceId, seq<EntrySpan>>, tid: TraceId, list: seq<EntrySpan>, entry: EntrySpan)
    requires list == if tid in spans then spans[tid] else []
    ensures EntriesOf(spans[tid := list + [entry]]) <= EntriesOf(spans) + {entry}
  {
    var more := spans[tid := list + [entry]];
    forall e | e in EntriesOf(more) && e != entry
      ensures e in EntriesOf(spans)
    {
      var t, i :| t in more && 0 <= i < |more[t]| && more[t][i] == e;
      assert t in spans && 0 <= i < |spans[t]| && spans[t][i] == e;
    }
  }

  lemma EntriesShrink(spans: map<TraceId, seq<EntrySpan>>, tid: TraceId, list: seq<EntrySpan>)
    requires tid in spans && forall e :: e in list ==> e in spans[tid]
    ensures EntriesOf(spans[tid := list]) <= EntriesOf(spans)
    ensures EntriesOf(spans - {tid}) <= EntriesOf(spans)
  {
    forall e | e in EntriesOf(spans[tid := list])
      ensures e in EntriesOf(spans)
    {
      var t, i :| t in spans[tid := list] && 0 <= i < |spans[tid := list][t]| && spans[tid := list][t][i] == e;
      assert e in spans[t];
      var j :| 0 <= j < |spans[t]| && spans[t][j] == e;
    }
  }

  function RenamedLast(list: seq<Live>, name: string): seq<Live>
    requires list != []
  {
    list[|list| - 1 := list[|list| - 1].(txnName := name)]
  }

  lemma NamedByList(before: Index, after: Index, tid: TraceId, name: string)
    requires before.Keys == after.Keys && tid in before && before[tid] != []
    requires after[tid] == RenamedLast(before[tid], name)
    requires forall t :: t in before && t != tid ==> after[t] == before[t]
    ensures Named(before, tid, name) == (after, true)
  {
    SameIndex(after, before[tid := RenamedLast(before[tid], name)]);
  }

  class StdManager {
    var spans: map<TraceId, seq<EntrySpan>>

    ghost function Entries(): set<EntrySpan>
      reads this
    {
      EntriesOf(spans)
    }

    /** Every entry sits in one place of one list, that of its home. */
    ghost predicate Valid()
      reads this
    {
      forall t :: t in spans ==> Settled(spans[t], t)
    }

    ghost function View(): Index
      reads this, Entries()
    {
      ViewOf(spans)
    }

    /** The current entry of the trace, if there is one. */
    ghost function CurrentEntries(tid: TraceId): set<EntrySpan>
      reads this
    {
      if tid in spans && spans[tid] != [] then {spans[tid][|spans[tid]| - 1]} else {}
    }

    /** The SDK's span behind it. */
    ghost function CurrentHandles(tid: TraceId): set<Span>
      reads this
    {
      if tid in spans && spans[tid] != [] then {spans[tid][|spans[tid]| - 1].spanHandle} else {}
    }

    constructor ()
      ensures Valid() && View() == map[]
    {
      spans := map[];
    }

    method Push(tid: TraceId, span: Span)
      requires Valid()
      modifies this
      ensures Valid() && fresh(Entries() - old(Entries()))
      ensures View() == Pushed(old(View()), tid, span.spanId)
    {
      var list := [];
      if tid in spans {
        list := spans[tid];
      }
      var entry := new EntrySpan(tid, span);
      assert entry !in list;
      SettledAppend(list, entry, tid);
      ViewListAppend(list, entry);
      EntriesGrow(spans, tid, list, entry);
      hide Settled;
      hide EntriesOf;
      list := list + [entry];
      ViewOfUpdate(spans, tid, list);
      spans := spans[tid := list];
    }

    method Current(tid: TraceId) returns (e: EntrySpan?)
      requires Valid()
      ensures e != null <==> CurrentOf(View(), tid).Some?
      ensures e != null ==> tid in spans && spans[tid] != [] && e == spans[tid][|spans[tid]| - 1] && Some(e.View()) == CurrentOf(View(), tid)
    {
      if tid in spans {
        var l := |spans[tid]|;
        if l == 0 {
          return null;
        } else {
          return spans[tid][l - 1];
        }
      } else {
        return null;
      }
    }

    method Delete(tid: TraceId, sid: SpanId) returns (ok: bool)
      requires Valid()
      modifies this
      ensures Valid() && Entries() <= old(Entries())
      ensures (View(), ok) == Deleted(old(View()), tid, sid)
    {
      if tid !in spans {
        return false;
      }
      var list := spans[tid];
      var found := false;
      hide Without;
      for i := 0 to |list|
        invariant list == spans[tid] && !found
        invariant forall j :: 0 <= j < i ==> list[j].spanId != sid
      {
        if list[i].spanId == sid {
          ViewListWithout(list, i);
          SettledWithout(list, i, tid);
          list := list[..i] + list[i + 1..];
          found := true;
          break;
        }
      }
      hide Settled;
      if found {
        assert ViewList(list) == Without(View()[tid], sid) && Holds(View()[tid], sid);
        EntriesShrink(spans, tid, list);
        hide EntriesOf;
        ViewOfRemoval(spans, tid);
        ViewOfUpdate(spans, tid, list);
        if |list| == 0 {
          spans := spans - {tid};
        } else {
          spans := spans[tid := list];
        }
        return true;
      } else {
        assert ViewList(list) == View()[tid];
        return false;
      }
    }

    /** Naming the current entry of a trace, and nothing else, names it in the index. */
    lemma NamedView(before: Index, tid: TraceId, name: string)
      requires Valid() && before.Keys == spans.Keys && tid in spans && spans[tid] != []
      requires forall t :: t in spans ==> |before[t]| == |spans[t]|
      requires forall t, i :: t in spans && 0 <= i < |spans[t]| ==>
                 spans[t][i].View() ==
                   if spans[t][i] == spans[tid][|spans[tid]| - 1] then before[t][i].(txnName := name) else before[t][i]
      ensures (View(), true) == Named(before, tid, name)
    {
      OnlyPlace(spans, tid);
      hide Settled;
      forall t | t in spans && t != tid
        ensures ViewList(spans[t]) == before[t]
      {
      }
      assert ViewList(spans[tid]) == RenamedLast(before[tid], name);
      hide ViewList;
      NamedByList(before, View(), tid, name);
    }

    method SetTransactionName(tid: TraceId, name: string) returns (ok: bool)
      requires Valid()
      modifies CurrentEntries(tid), CurrentHandles(tid)
      ensures Valid() && spans == old(spans)
      ensures (View(), ok) == Named(old(View()), tid, name)
      ensures forall span :: span in CurrentHandles(tid) ==> span.transaction == Some(name) && span.derived == old(span.derived)
    {
      ghost var before := View();
      var curr := Current(tid);
      assert View() == before;
      if curr == null {
        return false;
      }
      curr.spanHandle.transaction := Some(name);
      curr.txnName := name;
      NamedView(before, tid, name);
      return true;
    }
  }

  // ---------- the span processor ----------

  datatype Record = Record(traceId: TraceId, spanId: SpanId, name: string)

  class Processor {
    const manager: StdManager
    /** What the metrics registry was given. */
    var records: seq<Record>

    constructor (manager: StdManager)
      ensures this.manager == manager && records == []
    {
      this.manager, records := manager, [];
    }

    method GetTransactionName(span: Span) returns (name: string)
      requires manager.Valid()
      ensures name == NameFor(manager.View(), span.traceId, span.derived)
    {
      var curr := manager.Current(span.traceId);
      if curr != null && curr.txnName != "" {
        return curr.txnName;
      } else {
        return span.derived;
      }
    }

    /** The default attribute is looked up before the span is pushed, so a nested entry span starts with the outer name. */
    method OnStart(span: Span)
      requires manager.Valid()
      modifies manager, span`transaction
      ensures manager.Valid()
      ensures manager.View() ==
                if !span.hasValidParent || span.hasRemoteParent then Pushed(old(manager.View()), span.traceId, span.spanId)
                else old(manager.View())
      ensures span.transaction ==
                if !span.hasValidParent || span.hasRemoteParent then Some(NameFor(old(manager.View()), span.traceId, span.derived)) else old(span.transaction)
    {
      if span.IsEntrySpan() {
        var name := GetTransactionName(span);
        span.transaction := Some(name);
        manager.Push(span.traceId, span);
      }
    }

    method OnEnd(span: Span)
      requires manager.Valid()
      modifies manager, this`records
      ensures manager.Valid()
      ensures manager.View() ==
                if !span.hasValidParent || span.hasRemoteParent then Deleted(old(manager.View()), span.traceId, span.spanId).0
                else old(manager.View())
      ensures records == old(records) +
                if !span.hasValidParent || span.hasRemoteParent then [Record(span.traceId, span.spanId, NameFor(old(manager.View()), span.traceId, span.derived))] else []
    {
      if span.IsEntrySpan() {
        var name := GetTransactionName(span);
        records := records + [Record(span.traceId, span.spanId, name)];
        var _ := manager.Delete(span.traceId, span.spanId);
      }
    }
  }

  // ---------- histories ----------

  /** What happens to entry spans. `derived` is the name that the ending span's own data give. */
  datatype Event =
    | Start(tid: TraceId, sid: SpanId)
    | End(tid: TraceId, sid: SpanId, derived: string)
    | Rename(tid: TraceId, name: string)

  function After(m: Index, e: Event): Index {
    match e
    case Start(tid, sid) => Pushed(m, tid, sid)
    case End(tid, sid, _) => Deleted(m, tid, sid).0
    case Rename(tid, name) => Named(m, tid, name).0
  }

  /** An event is what the manager does with it. */
  method Perform(manager: StdManager, e: Event)
    requires manager.Valid()
    modifies manager, manager.CurrentEntries(e.tid), manager.CurrentHandles(e.tid)
    ensures manager.Valid() && manager.View() == After(old(manager.View()), e)
  {
    match e
    case Start(tid, sid) =>
      var span := new Span(tid, sid, false, false, "");
      manager.Push(tid, span);
    case End(tid, sid, _) =>
      var _ := manager.Delete(tid, sid);
    case Rename(tid, name) =>
      var _ := manager.SetTransactionName(tid, name);
  }

  function Run(m: Index, h: seq<Event>): Index
    decreases h
  {
    if h == [] then m else Run(After(m, h[0]), h[1..])
  }

  /** No span id starts twice in the trace, and none of those in `seen` starts again. */
  ghost predicate DistinctStarts(h: seq<Event>, tid: TraceId, seen: set<SpanId>) {
    h != [] ==>
      if h[0].Start? && h[0].tid == tid then h[0].sid !in seen && DistinctStarts(h[1..], tid, seen + {h[0].sid})
      else DistinctStarts(h[1..], tid, seen)
  }

  predicate EndsIn(h: seq<Event>, tid: TraceId, sid: SpanId) {
    exists i :: 0 <= i < |h| && h[i].End? && h[i].tid == tid && h[i].sid == sid
  }

  /** The spans of a trace that start in the history and do not end after that, in start order. */
  function StartedNotEnded(h: seq<Event>, tid: TraceId): seq<SpanId> {
    if h == [] then []
    else if h[0].Start? && h[0].tid == tid && !EndsIn(h[1..], tid, h[0].sid) then [h[0].sid] + StartedNotEnded(h[1..], tid)
    else StartedNotEnded(h[1..], tid)
  }

  function Ids(list: seq<Live>): seq<SpanId> {
    seq(|list|, i requires 0 <= i < |list| => list[i].spanId)
  }

  /** Those of the given spans that do not end in the history. */
  function Surviving(ids: seq<SpanId>, h: seq<Event>, tid: TraceId): seq<SpanId> {
    if ids == [] then []
    else (if EndsIn(h, tid, ids[0]) then [] else [ids[0]]) + Surviving(ids[1..], h, tid)
  }

  ghost predicate NoRepeats(ids: seq<SpanId>) {
    forall i, j :: 0 <= i < j < |ids| ==> ids[i] != ids[j]
  }

  function Remove(ids: seq<SpanId>, sid: SpanId): seq<SpanId> {
    if ids == [] then [] else if ids[0] == sid then ids[1..] else [ids[0]] + Remove(ids[1..], sid)
  }

  lemma IdsCons(first: Live, rest: seq<Live>)
    ensures Ids([first] + rest) == [first.spanId] + Ids(rest)
    ensures Ids([]) == []
  {
  }

  lemma HoldsIffListed(list: seq<Live>, sid: SpanId)
    ensures Holds(list, sid) <==> sid in Ids(list)
  {
    if Holds(list, sid) {
      var i :| 0 <= i < |list| && list[i].spanId == sid;
      assert Ids(list)[i] == sid;
    }
  }

  lemma {:induction false} IdsOfWithout(list: seq<Live>, sid: SpanId)
    ensures Ids(Without(list, sid)) == Remove(Ids(list), sid)
    ensures Holds(list, sid) <==> sid in Ids(list)
  {
    HoldsIffListed(list, sid);
    hide Holds;
    hide Ids;
    if list == [] {
      IdsCons(Live(sid, ""), []);
    } else {
      IdsOfWithout(list[1..], sid);
      assert list == [list[0]] + list[1..];
      IdsCons(list[0], list[1..]);
      IdsCons(list[0], Without(list[1..], sid));
    }
  }

  /** What one event does to the span ids of one trace. */
  lemma StepIds(m: Index, e: Event, tid: TraceId)
    ensures var ids := Ids(ListOf(m, tid));
            Ids(ListOf(After(m, e), tid)) ==
              if e.tid != tid then ids
              else if e.Start? then ids + [e.sid]
              else if e.End? then Remove(ids, e.sid)
              else ids
  {
    if e.End? && e.tid == tid {
      IdsOfWithout(ListOf(m, tid), e.sid);
      RemoveAbsent(Ids(ListOf(m, tid)), e.sid);
    }
  }

  lemma {:induction false} RemoveAbsent(ids: seq<SpanId>, sid: SpanId)
    ensures sid !in ids ==> Remove(ids, sid) == ids
    ensures NoRepeats(ids) ==> NoRepeats(Remove(ids, sid)) && sid !in Remove(ids, sid)
    ensures forall x :: x in Remove(ids, sid) ==> x in ids
  {
    if ids != [] {
      RemoveAbsent(ids[1..], sid);
      assert ids == [ids[0]] + ids[1..];
      var r := Remove(ids[1..], sid);
      if NoRepeats(ids) {
        assert NoRepeats(ids[1..]);
        forall j | 0 <= j < |r|
          ensures r[j] != ids[0]
        {
          assert r[j] in r;
        }
      }
    }
  }

  lemma SurvivingStep(id: SpanId, rest: seq<SpanId>, h: seq<Event>, tid: TraceId)
    ensures Surviving([id] + rest, h, tid) == (if EndsIn(h, tid, id) then [] else [id]) + Surviving(rest, h, tid)
    ensures Surviving([], h, tid) == []
  {
    hide EndsIn;
    assert ([id] + rest)[1..] == rest;
  }

  lemma {:induction false} SurvivingAppend(ids: seq<SpanId>, sid: SpanId, h: seq<Event>, tid: TraceId)
    ensures Surviving(ids + [sid], h, tid) == Surviving(ids, h, tid) + (if EndsIn(h, tid, sid) then [] else [sid])
  {
    hide EndsIn;
    hide Surviving;
    if ids == [] {
      assert ids + [sid] == [sid] + [];
      SurvivingStep(sid, [], h, tid);
    } else {
      assert ids == [ids[0]] + ids[1..] && ids + [sid] == [ids[0]] + (ids[1..] + [sid]);
      SurvivingStep(ids[0], ids[1..], h, tid);
      SurvivingStep(ids[0], ids[1..] + [sid], h, tid);
      SurvivingAppend(ids[1..], sid, h, tid);
    }
  }

  lemma EndsInCons(e: Event, h: seq<Event>, tid: TraceId, sid: SpanId)
    ensures EndsIn([e] + h, tid, sid) <==> (e.End? && e.tid == tid && e.sid == sid) || EndsIn(h, tid, sid)
  {
    var g := [e] + h;
    if EndsIn(h, tid, sid) {
      var i :| 0 <= i < |h| && h[i].End? && h[i].tid == tid && h[i].sid == sid;
      assert g[i + 1] == h[i];
    }
    if EndsIn(g, tid, sid) && !(e.End? && e.tid == tid && e.sid == sid) {
      var i :| 0 <= i < |g| && g[i].End? && g[i].tid == tid && g[i].sid == sid;
      assert h[i - 1] == g[i];
    }
    if e.End? && e.tid == tid && e.sid == sid {
      assert g[0] == e;
    }
  }

  /** Moving one event from the history into the list. */
  lemma {:induction false} SurvivingCons(ids: seq<SpanId>, e: Event, h: seq<Event>, tid: TraceId)
    requires NoRepeats(ids)
    ensures Surviving(ids, [e] + h, tid) == Surviving(if e.End? && e.tid == tid then Remove(ids, e.sid) else ids, h, tid)
  {
    if ids != [] {
      EndsInCons(e, h, tid, ids[0]);
      SurvivingCons(ids[1..], e, h, tid);
      if e.End? && e.tid == tid {
        if ids[0] == e.sid {
          RemoveAbsent(ids[1..], e.sid);
        } else {
          var r := Remove(ids[1..], e.sid);
          assert ([ids[0]] + r)[1..] == r;
        }
      }
    }
  }

  /** The list has no repeated span id and only ids that have been seen. */
  ghost predicate Sound(m: Index, tid: TraceId, seen: set<SpanId>) {
    NoRepeats(Ids(ListOf(m, tid))) && forall x :: x in Ids(ListOf(m, tid)) ==> x in seen
  }

  function SeenAfter(e: Event, tid: TraceId, seen: set<SpanId>): set<SpanId> {
    if e.Start? && e.tid == tid then seen + {e.sid} else seen
  }

  lemma StepIsSound(m: Index, e: Event, tid: TraceId, seen: set<SpanId>)
    requires Sound(m, tid, seen) && (e.Start? && e.tid == tid ==> e.sid !in seen)
    ensures Sound(After(m, e), tid, SeenAfter(e, tid, seen))
  {
    StepIds(m, e, tid);
    if e.End? {
      RemoveAbsent(Ids(ListOf(m, tid)), e.sid);
    }
    hide After;
    hide Ids;
    hide ListOf;
  }

  lemma {:induction false} RunRefines(m: Index, h: seq<Event>, tid: TraceId, seen: set<SpanId>)
    requires DistinctStarts(h, tid, seen) && Sound(m, tid, seen)
    ensures Ids(ListOf(Run(m, h), tid)) == Surviving(Ids(ListOf(m, tid)), h, tid) + StartedNotEnded(h, tid)
    ensures NoRepeats(Ids(ListOf(Run(m, h), tid)))
    decreases h
  {
    hide NoRepeats;
    hide After;
    hide Ids;
    hide ListOf;
    hide EndsIn;
    hide Remove;
    hide Surviving;
    var ids := Ids(ListOf(m, tid));
    if h == [] {
      NothingEnds(ids, tid);
    } else {
      var e, rest := h[0], h[1..];
      assert h == [e] + rest;
      StepIds(m, e, tid);
      SurvivingCons(ids, e, rest, tid);
      StepIsSound(m, e, tid, seen);
      if e.Start? && e.tid == tid {
        SurvivingAppend(ids, e.sid, rest, tid);
      }
      RunRefines(After(m, e), rest, tid, SeenAfter(e, tid, seen));
    }
  }

  lemma {:induction false} NothingEnds(ids: seq<SpanId>, tid: TraceId)
    ensures Surviving(ids, [], tid) == ids
  {
    if ids != [] {
      NothingEnds(ids[1..], tid);
      assert ids == [ids[0]] + ids[1..];
    }
  }

  ghost predicate NoEmptyLists(m: Index) {
    forall t :: t in m ==> m[t] != []
  }

  lemma {:induction false} RunKeepsNoEmptyLists(m: Index, h: seq<Event>)
    requires NoEmptyLists(m)
    ensures NoEmptyLists(Run(m, h))
    decreases h
  {
    if h != [] {
      RunKeepsNoEmptyLists(After(m, h[0]), h[1..]);
    }
  }

  ghost predicate AllStartsDistinct(h: seq<Event>) {
    forall tid :: DistinctStarts(h, tid, {})
  }

  /**
    After any history in which no span id starts twice in a trace, the list of every trace is exactly its
    started and not yet ended entry spans in start order; a trace without any has no list; and so the
    index is empty once every span has ended.
   */
  lemma IndexIsLiveSpans(h: seq<Event>)
    requires AllStartsDistinct(h)
    ensures var m := Run(map[], h);
            && (forall tid :: Ids(ListOf(m, tid)) == StartedNotEnded(h, tid) && NoRepeats(StartedNotEnded(h, tid)))
            && (forall tid :: tid in m <==> StartedNotEnded(h, tid) != [])
            && ((forall tid :: StartedNotEnded(h, tid) == []) ==> m == map[])
  {
    var m := Run(map[], h);
    RunKeepsNoEmptyLists(map[], h);
    forall tid
      ensures Ids(ListOf(m, tid)) == StartedNotEnded(h, tid) && NoRepeats(StartedNotEnded(h, tid))
      ensures tid in m <==> StartedNotEnded(h, tid) != []
    {
      assert DistinctStarts(h, tid, {});
      RunRefines(map[], h, tid, {});
      assert Ids(ListOf(m, tid)) == StartedNotEnded(h, tid);
      assert |Ids(ListOf(m, tid))| == |ListOf(m, tid)|;
      assert tid in m ==> m[tid] != [];
    }
    if forall tid :: StartedNotEnded(h, tid) == [] {
      assert forall tid :: tid !in m.Keys;
      SameIndex(m, map[]);
    }
  }

  // ---------- transaction names ----------

  /** The entry span of a trace that is current after a history, told from the history. */
  function CurrentId(h: seq<Event>, tid: TraceId): Option<SpanId> {
    var live := StartedNotEnded(h, tid);
    if live == [] then None else Some(live[|live| - 1])
  }

  /** The last name given to the trace while that span was current. */
  function LastNameWhileCurrent(h: seq<Event>, tid: TraceId, sid: SpanId): string {
    if h == [] then ""
    else
      var front, e := h[..|h| - 1], h[|h| - 1];
      if e.Rename? && e.tid == tid && CurrentId(front, tid) == Some(sid) then e.name
      else LastNameWhileCurrent(front, tid, sid)
  }

  lemma {:induction false} RunConcat(m: Index, g: seq<Event>, h: seq<Event>)
    ensures Run(m, g + h) == Run(Run(m, g), h)
    decreases g
  {
    if g == [] {
      assert g + h == h;
    } else {
      assert (g + h)[1..] == g[1..] + h;
      RunConcat(After(m, g[0]), g[1..], h);
    }
  }

  lemma {:induction false} DistinctPrefix(g: seq<Event>, h: seq<Event>, tid: TraceId, seen: set<SpanId>)
    requires DistinctStarts(g + h, tid, seen)
    ensures DistinctStarts(g, tid, seen)
    decreases g
  {
    if g != [] {
      assert (g + h)[1..] == g[1..] + h;
      DistinctPrefix(g[1..], h, tid, if g[0].Start? && g[0].tid == tid then seen + {g[0].sid} else seen);
    }
  }

  /** A span id that the whole history may still start has not been started before. */
  lemma {:induction false} StartIsNew(g: seq<Event>, tid: TraceId, sid: SpanId, seen: set<SpanId>)
    requires DistinctStarts(g + [Start(tid, sid)], tid, seen)
    ensures sid !in seen && forall i :: 0 <= i < |g| ==> g[i] != Start(tid, sid)
    decreases g
  {
    var h := g + [Start(tid, sid)];
    if g != [] {
      assert h[1..] == g[1..] + [Start(tid, sid)];
      StartIsNew(g[1..], tid, sid, if g[0].Start? && g[0].tid == tid then seen + {g[0].sid} else seen);
    }
  }

  lemma {:induction false} LiveWasStarted(h: seq<Event>, tid: TraceId, sid: SpanId)
    requires sid in StartedNotEnded(h, tid)
    ensures Start(tid, sid) in h
  {
    if h[0].Start? && h[0].tid == tid && h[0].sid == sid {
    } else {
      LiveWasStarted(h[1..], tid, sid);
    }
  }

  lemma {:induction false} NotStartedHasNoName(h: seq<Event>, tid: TraceId, sid: SpanId)
    requires Start(tid, sid) !in h
    ensures LastNameWhileCurrent(h, tid, sid) == ""
  {
    if h != [] {
      var front := h[..|h| - 1];
      NotStartedHasNoName(front, tid, sid);
      if CurrentId(front, tid) == Some(sid) {
        LiveWasStarted(front, tid, sid);
      }
    }
  }

  /** Every entry carries the last name given while it was current. */
  ghost predicate NamesFit(m: Index, h: seq<Event>, tid: TraceId) {
    forall l :: l in ListOf(m, tid) ==> l.txnName == LastNameWhileCurrent(h, tid, l.spanId)
  }

  lemma {:induction false} WithoutIsPart(list: seq<Live>, sid: SpanId)
    ensures forall l :: l in Without(list, sid) ==> l in list
  {
    if list != [] {
      WithoutIsPart(list[1..], sid);
    }
  }

  lemma LastNameOfOneMore(h: seq<Event>, e: Event, tid: TraceId, sid: SpanId)
    ensures LastNameWhileCurrent(h + [e], tid, sid)
         == if e.Rename? && e.tid == tid && CurrentId(h, tid) == Some(sid) then e.name else LastNameWhileCurrent(h, tid, sid)
  {
    hide CurrentId;
    assert (h + [e])[..|h + [e]| - 1] == h;
  }

  lemma RenamedAt(list: seq<Live>, h: seq<Event>, tid: TraceId, name: string, i: nat)
    requires i < |list| && Ids(list) == StartedNotEnded(h, tid) && NoRepeats(StartedNotEnded(h, tid))
    requires list[i].txnName == LastNameWhileCurrent(h, tid, list[i].spanId)
    ensures var l := RenamedLast(list, name)[i];
            l.txnName == LastNameWhileCurrent(h + [Rename(tid, name)], tid, l.spanId)
  {
    hide LastNameWhileCurrent;
    hide StartedNotEnded;
    var last := |list| - 1;
    LastNameOfOneMore(h, Rename(tid, name), tid, list[i].spanId);
    assert CurrentId(h, tid) == Some(Ids(list)[last]);
    assert Ids(list)[i] == list[i].spanId && Ids(list)[last] == list[last].spanId;
    if i < last {
      assert Ids(list)[i] != Ids(list)[last];
    }
  }

  lemma NamesFitRename(m: Index, h: seq<Event>, tid: TraceId, name: string)
    requires NamesFit(m, h, tid)
    requires Ids(ListOf(m, tid)) == StartedNotEnded(h, tid) && NoRepeats(StartedNotEnded(h, tid))
    ensures NamesFit(Named(m, tid, name).0, h + [Rename(tid, name)], tid)
  {
    hide LastNameWhileCurrent;
    hide StartedNotEnded;
    hide NoRepeats;
    hide Ids;
    var list := ListOf(m, tid);
    if list == [] {
      assert ListOf(Named(m, tid, name).0, tid) == [];
    } else {
      var renamed := RenamedLast(list, name);
      forall l | l in renamed
        ensures l.txnName == LastNameWhileCurrent(h + [Rename(tid, name)], tid, l.spanId)
      {
        var i :| 0 <= i < |renamed| && renamed[i] == l;
        assert list[i] in list;
        RenamedAt(list, h, tid, name, i);
      }
      assert ListOf(Named(m, tid, name).0, tid) == renamed;
    }
  }

  lemma NamesFitStart(m: Index, h: seq<Event>, tid: TraceId, sid: SpanId)
    requires NamesFit(m, h, tid) && DistinctStarts(h + [Start(tid, sid)], tid, {})
    ensures forall l :: l in ListOf(Pushed(m, tid, sid), tid) ==> l.txnName == LastNameWhileCurrent(h, tid, l.spanId)
  {
    StartIsNew(h, tid, sid, {});
    NotStartedHasNoName(h, tid, sid);
    hide LastNameWhileCurrent;
    hide DistinctStarts;
    assert ListOf(Pushed(m, tid, sid), tid) == ListOf(m, tid) + [Live(sid, "")];
    hide ListOf;
    hide Pushed;
  }

  lemma NamesFitEnd(m: Index, h: seq<Event>, tid: TraceId, sid: SpanId)
    requires NamesFit(m, h, tid)
    ensures forall l :: l in ListOf(Deleted(m, tid, sid).0, tid) ==> l.txnName == LastNameWhileCurrent(h, tid, l.spanId)
  {
    hide LastNameWhileCurrent;
    hide Without;
    hide Holds;
    WithoutIsPart(ListOf(m, tid), sid);
  }

  lemma NamesFitStep(m: Index, h: seq<Event>, e: Event, tid: TraceId)
    requires NamesFit(m, h, tid)
    requires Ids(ListOf(m, tid)) == StartedNotEnded(h, tid) && NoRepeats(StartedNotEnded(h, tid))
    requires DistinctStarts(h + [e], tid, {})
    ensures NamesFit(After(m, e), h + [e], tid)
  {
    hide LastNameWhileCurrent;
    hide StartedNotEnded;
    hide DistinctStarts;
    hide Ids;
    hide NoRepeats;
    hide Deleted;
    hide Pushed;
    hide Named;
    if e.Rename? && e.tid == tid {
      NamesFitRename(m, h, tid, e.name);
    } else {
      if e.tid != tid {
        OtherTracesStay(m, e, tid);
      }
      if e.Start? && e.tid == tid {
        NamesFitStart(m, h, tid, e.sid);
      }
      if e.End? && e.tid == tid {
        NamesFitEnd(m, h, tid, e.sid);
      }
      hide ListOf;
      forall l | l in ListOf(After(m, e), tid)
        ensures l.txnName == LastNameWhileCurrent(h + [e], tid, l.spanId)
      {
        LastNameOfOneMore(h, e, tid, l.spanId);
      }
    }
  }

  lemma OtherTracesStay(m: Index, e: Event, tid: TraceId)
    requires e.tid != tid
    ensures ListOf(After(m, e), tid) == ListOf(m, tid)
  {
  }

  lemma {:induction false} NamesFitRun(h: seq<Event>, tid: TraceId)
    requires AllStartsDistinct(h)
    ensures NamesFit(Run(map[], h), h, tid)
    decreases |h|
  {
    if h != [] {
      var front, e := h[..|h| - 1], h[|h| - 1];
      assert h == front + [e];
      forall t
        ensures DistinctStarts(front, t, {})
      {
        assert DistinctStarts(h, t, {});
        DistinctPrefix(front, [e], t, {});
      }
      NamesFitRun(front, tid);
      IndexIsLiveSpans(front);
      RunConcat(map[], front, [e]);
      assert Run(After(Run(map[], front), e), [e][1..]) == After(Run(map[], front), e);
      assert DistinctStarts(h, tid, {});
      NamesFitStep(Run(map[], front), front, e, tid);
    }
  }

  function OwnName(h: seq<Event>, tid: TraceId, sid: SpanId, derived: string): string {
    var name := LastNameWhileCurrent(h, tid, sid);
    if name != "" then name else derived
  }

  /** The name used for any span of a trace is the own name of the trace's current entry span. */
  lemma NameIsCurrentSpans(h: seq<Event>, tid: TraceId, derived: string)
    requires AllStartsDistinct(h)
    ensures NameFor(Run(map[], h), tid, derived)
         == match CurrentId(h, tid)
            case Some(current) => OwnName(h, tid, current, derived)
            case None => derived
  {
    hide Run;
    hide StartedNotEnded;
    hide LastNameWhileCurrent;
    hide NoRepeats;
    hide AllStartsDistinct;
    var list := ListOf(Run(map[], h), tid);
    IndexIsLiveSpans(h);
    NamesFitRun(h, tid);
    if list != [] {
      assert Ids(list)[|list| - 1] == list[|list| - 1].spanId;
      assert list[|list| - 1] in list;
    }
  }

  /** Spans end in the reverse of the order in which they start. */
  ghost predicate Nested(h: seq<Event>) {
    forall n :: 0 <= n < |h| && h[n].End? ==> CurrentId(h[..n], h[n].tid) == Some(h[n].sid)
  }

  lemma {:induction false} DistinctSoFar(h: seq<Event>, n: nat)
    requires n <= |h| && AllStartsDistinct(h)
    ensures AllStartsDistinct(h[..n])
  {
    assert h == h[..n] + h[n..];
    forall t
      ensures DistinctStarts(h[..n], t, {})
    {
      assert DistinctStarts(h, t, {});
      DistinctPrefix(h[..n], h[n..], t, {});
    }
  }

  /**
    When a span ends while it is the current one of its trace, what is recorded is the last name set while
    it was current, else its derived name, whatever the other spans do.
   */
  lemma CurrentSpanRecordsOwnName(h: seq<Event>, n: nat)
    requires AllStartsDistinct(h)
    requires n < |h| && h[n].End? && CurrentId(h[..n], h[n].tid) == Some(h[n].sid)
    ensures NameFor(Run(map[], h[..n]), h[n].tid, h[n].derived) == OwnName(h[..n], h[n].tid, h[n].sid, h[n].derived)
  {
    DistinctSoFar(h, n);
    hide Run;
    hide CurrentId;
    hide OwnName;
    hide AllStartsDistinct;
    NameIsCurrentSpans(h[..n], h[n].tid, h[n].derived);
  }

  /**
    When entry spans are nested, this is so for every span. Names set while an inner or outer span was
    current do not count.
   */
  lemma NestedSpansRecordOwnNames(h: seq<Event>)
    requires AllStartsDistinct(h) && Nested(h)
    ensures forall n :: 0 <= n < |h| && h[n].End? ==>
              NameFor(Run(map[], h[..n]), h[n].tid, h[n].derived) == OwnName(h[..n], h[n].tid, h[n].sid, h[n].derived)
  {
    hide Run;
    hide CurrentId;
    hide OwnName;
    hide AllStartsDistinct;
    forall n | 0 <= n < |h| && h[n].End?
      ensures NameFor(Run(map[], h[..n]), h[n].tid, h[n].derived) == OwnName(h[..n], h[n].tid, h[n].sid, h[n].derived)
    {
      CurrentSpanRecordsOwnName(h, n);
    }
  }

  lemma OneMoreRename(h: seq<Event>, tid: TraceId, name: string)
    requires AllStartsDistinct(h)
    ensures AllStartsDistinct(h + [Rename(tid, name)])
    ensures StartedNotEnded(h + [Rename(tid, name)], tid) == StartedNotEnded(h, tid)
  {
    hide StartedNotEnded;
    forall t
      ensures DistinctStarts(h + [Rename(tid, name)], t, {})
    {
      assert DistinctStarts(h, t, {});
      DistinctOneMoreRename(h, tid, name, t, {});
    }
    LiveOneMoreRename(h, tid, name);
  }

  lemma {:induction false} DistinctOneMoreRename(h: seq<Event>, tid: TraceId, name: string, t: TraceId, seen: set<SpanId>)
    requires DistinctStarts(h, t, seen)
    ensures DistinctStarts(h + [Rename(tid, name)], t, seen)
    decreases h
  {
    if h == [] {
      assert DistinctStarts([Rename(tid, name)][1..], t, seen);
    } else {
      assert (h + [Rename(tid, name)])[1..] == h[1..] + [Rename(tid, name)];
      DistinctOneMoreRename(h[1..], tid, name, t, if h[0].Start? && h[0].tid == t then seen + {h[0].sid} else seen);
    }
  }

  lemma {:induction false} LiveOneMoreRename(h: seq<Event>, tid: TraceId, name: string)
    ensures StartedNotEnded(h + [Rename(tid, name)], tid) == StartedNotEnded(h, tid)
  {
    var g := h + [Rename(tid, name)];
    if h == [] {
      assert StartedNotEnded(g[1..], tid) == [];
    } else {
      assert g[1..] == h[1..] + [Rename(tid, name)];
      LiveOneMoreRename(h[1..], tid, name);
      if h[0].Start? {
        EndsInOneMoreRename(h[1..], tid, name, h[0].sid);
      }
    }
  }

  lemma EndsInOneMoreRename(h: seq<Event>, tid: TraceId, name: string, sid: SpanId)
    ensures EndsIn(h + [Rename(tid, name)], tid, sid) <==> EndsIn(h, tid, sid)
  {
    var g := h + [Rename(tid, name)];
    if EndsIn(h, tid, sid) {
      var i :| 0 <= i < |h| && h[i].End? && h[i].tid == tid && h[i].sid == sid;
      assert g[i] == h[i];
    }
    if EndsIn(g, tid, sid) {
      var i :| 0 <= i < |g| && g[i].End? && g[i].tid == tid && g[i].sid == sid;
      assert h[i] == g[i];
    }
  }

  /** What is recorded after a further name, and what the own name of a live span then is. */
  lemma NameAfterRename(h: seq<Event>, tid: TraceId, sid: SpanId, name: string, derived: string)
    requires AllStartsDistinct(h) && sid in StartedNotEnded(h, tid)
    ensures var g := h + [Rename(tid, name)];
            && NameFor(Run(map[], g), tid, derived) == (if name != "" then name else derived)
            && OwnName(g, tid, sid, derived) ==
                 if CurrentId(h, tid) != Some(sid) then OwnName(h, tid, sid, derived) else if name != "" then name else derived
  {
    hide Run;
    hide StartedNotEnded;
    hide LastNameWhileCurrent;
    hide AllStartsDistinct;
    var g := h + [Rename(tid, name)];
    OneMoreRename(h, tid, name);
    NameIsCurrentSpans(g, tid, derived);
    LastNameOfOneMore(h, Rename(tid, name), tid, sid);
    LastNameOfOneMore(h, Rename(tid, name), tid, CurrentId(h, tid).value);
  }

  /**
    Without nesting the recorded name is somebody else's: when a live span ends that is not the current
    one, and the trace has just been given a name that is not that span's own, this name is recorded
    for it.
   */
  lemma OutOfOrderEndRecordsCurrentName(h: seq<Event>, tid: TraceId, sid: SpanId, name: string, derived: string)
    requires AllStartsDistinct(h) && sid in StartedNotEnded(h, tid) && CurrentId(h, tid) != Some(sid)
    requires name != "" && name != OwnName(h, tid, sid, derived)
    ensures var g := h + [Rename(tid, name)];
            NameFor(Run(map[], g), tid, derived) == name != OwnName(g, tid, sid, derived)
  {
    hide AllStartsDistinct;
    hide StartedNotEnded;
    hide Run;
    hide OwnName;
    NameAfterRename(h, tid, sid, name, derived);
  }

  ghost predicate OwnNameIsRecorded(h: seq<Event>, tid: TraceId, sid: SpanId, name: string, derived: string) {
    var g := h + [Rename(tid, name)];
    NameFor(Run(map[], g), tid, derived) == OwnName(g, tid, sid, derived)
  }

  /** A live span is sure to be recorded under its own name, whatever the trace is named next, exactly if it is the current one. */
  lemma OwnNameIsRecordedIffCurrent(h: seq<Event>, tid: TraceId, sid: SpanId, derived: string)
    requires AllStartsDistinct(h) && sid in StartedNotEnded(h, tid)
    ensures (forall name :: OwnNameIsRecorded(h, tid, sid, name, derived)) <==> CurrentId(h, tid) == Some(sid)
  {
    hide AllStartsDistinct;
    hide StartedNotEnded;
    hide Run;
    hide OwnName;
    hide CurrentId;
    forall name
      ensures OwnNameIsRecorded(h, tid, sid, name, derived) <==>
                CurrentId(h, tid) == Some(sid) || OwnName(h, tid, sid, derived) == if name != "" then name else derived
    {
      NameAfterRename(h, tid, sid, name, derived);
    }
    var other := if OwnName(h, tid, sid, derived) == "a" then "b" else "a";
    assert OwnNameIsRecorded(h, tid, sid, other, derived) ==> CurrentId(h, tid) == Some(sid);
  }

  /** Two entry spans of one trace, of which the first ends first: it is recorded under the name given to the second. */
  lemma FirstSpanRecordsSecondName(tid: TraceId, derived: string, name: string)
    requires name != "" && name != derived
    ensures var h := [Start(tid, 1), Start(tid, 2)];
            && AllStartsDistinct(h) && StartedNotEnded(h, tid) == [1, 2]
            && NameFor(Run(map[], h + [Rename(tid, name)]), tid, derived) == name
            && OwnName(h + [Rename(tid, name)], tid, 1, derived) == derived
  {
    var h := [Start(tid, 1), Start(tid, 2)];
    assert h[1..] == [Start(tid, 2)] && h[1..][1..] == [];
    assert StartedNotEnded([Start(tid, 2)], tid) == [2];
    forall t
      ensures DistinctStarts(h, t, {})
    {
      assert DistinctStarts(h[1..], t, {1}) && DistinctStarts(h[1..], t, {});
    }
    NeverNamed(h, tid, 1);
    NameAfterRename(h, tid, 1, name, derived);
  }

  lemma {:induction false} NeverNamed(h: seq<Event>, tid: TraceId, sid: SpanId)
    requires forall i :: 0 <= i < |h| ==> !h[i].Rename?
    ensures LastNameWhileCurrent(h, tid, sid) == ""
  {
    if h != [] {
      NeverNamed(h[..|h| - 1], tid, sid);
    }
  }

  lemma SameIndex(m: Index, n: Index)
    requires m.Keys == n.Keys && forall t :: t in m ==> m[t] == n[t]
    ensures m == n
  {
    forall t | t in m
      ensures t in n && m[t] == n[t]
    {
    }
    assert m == map t | t in m :: m[t];
  }

  lemma {:induction false} WithoutAt(list: seq<Live>, i: nat, sid: SpanId)
    requires i < |list| && list[i].spanId == sid && forall j :: 0 <= j < i ==> list[j].spanId != sid
    ensures Without(list, sid) == list[..i] + list[i + 1..]
  {
    if i > 0 {
      WithoutAt(list[1..], i - 1, sid);
      assert list[..i] == [list[0]] + list[1..][..i - 1];
    }
  }
}
