/**
  The X-Trace-Options header: parsing and signature check of internal/xtrace/xtrace.go and
  internal/xtrace/auth.go.
 */
module XTrace {
  import opened Wrappers
  import opened Text

  // ---------- splitting at runs of semicolons ----------

  function SkipSemicolons(s: string): string {
    if s != [] && s[0] == ';' then SkipSemicolons(s[1..]) else s
  }

  lemma {:induction false} SkipShortens(s: string)
    ensures |SkipSemicolons(s)| <= |s|
  {
    if s != [] {
      SkipShortens(s[1..]);
    }
  }

  /** regexp.Split at the expression `;+`. */
  function SplitRuns(s: string): (r: seq<string>)
    ensures r != []
    decreases |s|
  {
    if s == [] then [[]]
    else if s[0] == ';' then
      SkipShortens(s[1..]);
      [[]] + SplitRuns(SkipSemicolons(s[1..]))
    else
      var rest := SplitRuns(s[1..]);
      [[s[0]] + rest[0]] + rest[1..]
  }

  // ---------- one option ----------

  datatype Options = Options(swKeys: string, customKVs: map<string, string>, timestamp: int, triggerTrace: bool, ignoredKeys: seq<string>)

  const NO_OPTIONS := Options("", map[], 0, false, [])

  /** What one option is: each is accounted for in exactly one way. */
  datatype Kind =
    | Blank
    | Flag
    | SwKeys(value: string)
    | Timestamp(time: int)
    | Custom(key: string, value: string)
    | Dropped
    | Ignored(key: string)

  /** The expression `^custom-[^\s]*$`, where \s is tab, newline, form feed, carriage return and space. */
  predicate IsCustomKey(k: string) {
    "custom-" <= k && forall i :: 0 <= i < |k| ==> k[i] !in {'\t', '\n', 12 as char, '\r', ' '}
  }

  const TRIGGER_TRACE_KEY := "trigger-trace"

  function Classify(opt: string): Kind {
    var cut := Cut(opt, '=');
    var k, v := TrimSpace(cut.before), TrimSpace(cut.after);
    if k == "" then Blank
    else if !cut.found then (if k == TRIGGER_TRACE_KEY then Flag else Ignored(k))
    else if k == "sw-keys" then SwKeys(v)
    else if k == "ts" then (match ParseInt(v) case Some(n) => Timestamp(n) case None => Ignored(k))
    else if k == TRIGGER_TRACE_KEY then Dropped
    else if IsCustomKey(k) then Custom(k, v)
    else Ignored(k)
  }

  function Take(o: Options, kind: Kind): Options {
    match kind
    case Blank => o
    case Flag => o.(triggerTrace := true)
    case SwKeys(v) => o.(swKeys := v)
    case Timestamp(n) => o.(timestamp := n)
    case Custom(k, v) => o.(customKVs := o.customKVs[k := v])
    case Dropped => o
    case Ignored(k) => o.(ignoredKeys := o.ignoredKeys + [k])
  }

  function TakeAll(o: Options, opts: seq<string>): Options
    decreases opts
  {
    if opts == [] then o else TakeAll(Take(o, Classify(opts[0])), opts[1..])
  }

  /** Continue from what earlier options left. */
  function Continue(o: Options, s: string): Options {
    TakeAll(o, SplitRuns(s))
  }

  function Parse(s: string): Options {
    Continue(NO_OPTIONS, s)
  }

  lemma {:induction false} TakeAllConcat(o: Options, a: seq<string>, b: seq<string>)
    ensures TakeAll(o, a + b) == TakeAll(TakeAll(o, a), b)
    decreases a
  {
    if a == [] {
      assert a + b == b;
    } else {
      assert (a + b)[1..] == a[1..] + b;
      TakeAllConcat(Take(o, Classify(a[0])), a[1..], b);
    }
  }

  /** The loop of parseXTraceOptions. */
  method ParseOptions(opts: string) returns (x: Options)
    ensures x == Parse(opts)
  {
    var swKeys, customKVs, timestamp, tt, ignoredKeys := "", map[], 0, false, [];
    var segments := SplitRuns(opts);
    for i := 0 to |segments|
      invariant Options(swKeys, customKVs, timestamp, tt, ignoredKeys) == TakeAll(NO_OPTIONS, segments[..i])
    {
      assert segments[..i + 1] == segments[..i] + [segments[i]];
      TakeAllConcat(NO_OPTIONS, segments[..i], [segments[i]]);
      var cut := Cut(segments[i], '=');
      var k := TrimSpace(cut.before);
      if k == "" {
        continue;
      }
      if !cut.found {
        if k == TRIGGER_TRACE_KEY {
          tt := true;
        } else {
          ignoredKeys := ignoredKeys + [k];
        }
        continue;
      }
      var v := TrimSpace(cut.after);
      if k == "sw-keys" {
        swKeys := v;
      } else if k == "ts" {
        var ts := ParseInt(v);
        if ts.None? {
          ignoredKeys := ignoredKeys + [k];
        } else {
          timestamp := ts.value;
        }
      } else if k == TRIGGER_TRACE_KEY {
      } else if IsCustomKey(k) {
        customKVs := customKVs[k := v];
      } else {
        ignoredKeys := ignoredKeys + [k];
      }
    }
    assert segments[..|segments|] == segments;
    x := Options(swKeys, customKVs, timestamp, tt, ignoredKeys);
  }

  // ---------- the parser is a fold over its options ----------

  function NonEmpty(opts: seq<string>): seq<string> {
    if opts == [] then [] else (if opts[0] == "" then [] else [opts[0]]) + NonEmpty(opts[1..])
  }

  lemma {:induction false} NonEmptyConcat(a: seq<string>, b: seq<string>)
    ensures NonEmpty(a + b) == NonEmpty(a) + NonEmpty(b)
  {
    if a == [] {
      assert a + b == b;
    } else {
      assert (a + b)[1..] == a[1..] + b;
      NonEmptyConcat(a[1..], b);
    }
  }

  lemma {:induction false} SkippingAddsNothing(s: string)
    ensures NonEmpty(Split(SkipSemicolons(s), ';')) == NonEmpty(Split(s, ';'))
  {
    if s != [] && s[0] == ';' {
      SkippingAddsNothing(s[1..]);
      assert ([[]] + Split(s[1..], ';'))[1..] == Split(s[1..], ';');
    }
  }

  lemma {:induction false} RunsAreSeparators(s: string)
    ensures SplitRuns(s)[0] == Split(s, ';')[0]
    ensures NonEmpty(SplitRuns(s)[1..]) == NonEmpty(Split(s, ';')[1..])
    decreases |s|
  {
    if s != [] {
      if s[0] == ';' {
        var t := SkipSemicolons(s[1..]);
        SkipShortens(s[1..]);
        RunsAreSeparators(t);
        SkippingAddsNothing(s[1..]);
        assert SplitRuns(s)[1..] == SplitRuns(t);
        assert Split(s, ';')[1..] == Split(s[1..], ';');
        var p, q := SplitRuns(t), Split(t, ';');
        assert p == [p[0]] + p[1..] && q == [q[0]] + q[1..];
      } else {
        RunsAreSeparators(s[1..]);
      }
    }
  }

  lemma {:induction false} EmptyOptionsAreNothing(o: Options, opts: seq<string>)
    ensures TakeAll(o, NonEmpty(opts)) == TakeAll(o, opts)
    decreases opts
  {
    if opts != [] {
      EmptyOptionsAreNothing(Take(o, Classify(opts[0])), opts[1..]);
      var rest := NonEmpty(opts[1..]);
      assert ([opts[0]] + rest)[1..] == rest;
      assert [] + rest == rest;
    }
  }

  lemma ContinueBySingles(o: Options, s: string)
    ensures Continue(o, s) == TakeAll(o, NonEmpty(Split(s, ';')))
  {
    RunsAreSeparators(s);
    var p, q := SplitRuns(s), Split(s, ';');
    assert p == [p[0]] + p[1..] && q == [q[0]] + q[1..];
    EmptyOptionsAreNothing(o, p);
  }

  /** Parsing two headers joined by a semicolon is parsing the second from where the first left off. */
  lemma ParserIsFold(o: Options, a: string, b: string)
    ensures Continue(o, a + ";" + b) == Continue(Continue(o, a), b)
  {
    SplitConcat(a, ';', b);
    NonEmptyConcat(Split(a, ';'), Split(b, ';'));
    TakeAllConcat(o, NonEmpty(Split(a, ';')), NonEmpty(Split(b, ';')));
    ContinueBySingles(o, a + ";" + b);
    ContinueBySingles(o, a);
    ContinueBySingles(Continue(o, a), b);
  }

  lemma {:induction false} OneSegment(s: string)
    requires ';' !in s
    ensures SplitRuns(s) == [s]
  {
    if s != [] {
      assert s[0] in s && s == [s[0]] + s[1..];
      OneSegment(s[1..]);
    }
  }

  lemma OneOption(o: Options, s: string)
    requires ';' !in s
    ensures Continue(o, s) == Take(o, Classify(s))
  {
    OneSegment(s);
    assert TakeAll(Take(o, Classify(s)), [s][1..]) == Take(o, Classify(s));
  }

  function Semicolons(n: nat): string {
    if n == 0 then "" else ";" + Semicolons(n - 1)
  }

  lemma {:induction false} SemicolonsAreNothing(o: Options, n: nat)
    ensures Continue(o, Semicolons(n)) == o
  {
    OneOption(o, "");
    if n > 0 {
      assert Semicolons(n) == "" + ";" + Semicolons(n - 1);
      ParserIsFold(o, "", Semicolons(n - 1));
      SemicolonsAreNothing(o, n - 1);
    }
  }

  /** The length of a run of semicolons does not matter, nor do leading and trailing ones. */
  lemma RunLengthDoesNotMatter(a: string, n: nat, b: string)
    ensures Parse(a + ";" + Semicolons(n) + ";" + b) == Parse(a + ";" + b)
    ensures Parse(Semicolons(n) + ";" + b) == Parse(b)
    ensures Parse(a + ";" + Semicolons(n)) == Parse(a)
  {
    ParserIsFold(NO_OPTIONS, a + ";" + Semicolons(n), b);
    ParserIsFold(NO_OPTIONS, a, Semicolons(n));
    SemicolonsAreNothing(Parse(a), n);
    ParserIsFold(NO_OPTIONS, a, b);
    ParserIsFold(NO_OPTIONS, Semicolons(n), b);
    SemicolonsAreNothing(NO_OPTIONS, n);
  }

  // ---------- blanks around keys and values ----------

  lemma BlankHasNo(p: string, c: char)
    requires IsBlank(p) && !IsSpace(c)
    ensures c !in p
  {
  }

  lemma PaddingDoesNotMatter(p: string, k: string, q: string, r: string, v: string, s: string)
    requires IsBlank(p) && IsBlank(q) && IsBlank(r) && IsBlank(s) && '=' !in k
    ensures Classify(p + k + q + "=" + r + v + s) == Classify(k + "=" + v)
    ensures Classify(p + k + q) == Classify(k)
  {
    hide Cut;
    hide TrimSpace;
    hide IsBlank;
    PaddedKeyHasNo(p, k, q, '=');
    hide IsSpace;
    var key, val := p + k + q, r + v + s;
    assert p + k + q + "=" + r + v + s == key + "=" + val;
    CutAtFirst(key, '=', val);
    CutAtFirst(k, '=', v);
    TrimSpacePadding(p, k, q);
    TrimSpacePadding(r, v, s);
    SameCut(key + "=" + val, k + "=" + v);
    SameCut(key, k);
    hide Classify;
  }

  lemma PaddedKeyHasNo(p: string, k: string, q: string, c: char)
    requires IsBlank(p) && IsBlank(q) && !IsSpace(c) && c !in k
    ensures c !in p + k + q
  {
    BlankHasNo(p, c);
    BlankHasNo(q, c);
  }

  /** An option is classified by what is left of its two parts without blanks around them. */
  lemma SameCut(x: string, y: string)
    ensures var (a, b) := (Cut(x, '='), Cut(y, '='));
            a.found == b.found && TrimSpace(a.before) == TrimSpace(b.before) && TrimSpace(a.after) == TrimSpace(b.after) ==>
              Classify(x) == Classify(y)
  {
    hide Cut;
    hide TrimSpace;
    hide IsCustomKey;
    hide ParseInt;
  }

  lemma FlagIsPlain()
    ensures var s := TRIGGER_TRACE_KEY;
            '=' !in s && ';' !in s && s != "" && !IsSpace(s[0]) && !IsSpace(s[|s| - 1])
  {
  }

  /** The bare flag is a header on its own. */
  lemma FlagOptionSetsFlag()
    ensures Parse(TRIGGER_TRACE_KEY).triggerTrace
  {
    var s := TRIGGER_TRACE_KEY;
    FlagIsPlain();
    hide IsSpace;
    CutAtFirst(s, '=', "");
    assert TrimLeft(s) == s && TrimRight(s) == s;
    hide Cut;
    hide TrimSpace;
    assert Classify(s) == Flag by {
      assert TrimSpace(s) == s;
    }
    OneOption(NO_OPTIONS, s);
  }

  /** An option matters only by what it is classified as. */
  lemma SameOption(a: string, x: string, y: string, b: string)
    requires ';' !in x && ';' !in y && Classify(x) == Classify(y)
    ensures Parse(a + ";" + x + ";" + b) == Parse(a + ";" + y + ";" + b)
  {
    OneOption(Parse(a), x);
    OneOption(Parse(a), y);
    ParserIsFold(NO_OPTIONS, a, x);
    ParserIsFold(NO_OPTIONS, a, y);
    ParserIsFold(NO_OPTIONS, a + ";" + x, b);
    ParserIsFold(NO_OPTIONS, a + ";" + y, b);
  }

  /** Anywhere in a header, blanks around a key, with or without a value, and around its value change nothing. */
  lemma PaddingAnywhereDoesNotMatter(a: string, p: string, k: string, q: string, r: string, v: string, s: string, b: string)
    requires IsBlank(p) && IsBlank(q) && IsBlank(r) && IsBlank(s)
    requires '=' !in k && ';' !in k && ';' !in v
    ensures Parse(a + ";" + (p + k + q + "=" + r + v + s) + ";" + b) == Parse(a + ";" + (k + "=" + v) + ";" + b)
    ensures Parse(a + ";" + (p + k + q) + ";" + b) == Parse(a + ";" + k + ";" + b)
  {
    BlankHasNo(p, ';');
    BlankHasNo(q, ';');
    BlankHasNo(r, ';');
    BlankHasNo(s, ';');
    PaddingDoesNotMatter(p, k, q, r, v, s);
    SameOption(a, p + k + q + "=" + r + v + s, k + "=" + v, b);
    SameOption(a, p + k + q, k, b);
  }

  // ---------- what each option does ----------

  /** A key or value as it stands in a header: without blanks around it and without separators. */
  predicate IsPlain(s: string) {
    IsTrimmed(s) && ';' !in s
  }

  lemma PlainOption(k: string, v: string)
    requires IsTrimmed(k) && '=' !in k && IsTrimmed(v)
    ensures var c := Cut(k + "=" + v, '=');
            c.found && TrimSpace(c.before) == k && TrimSpace(c.after) == v
    ensures !Cut(k, '=').found && TrimSpace(Cut(k, '=').before) == k
  {
    CutAtFirst(k, '=', v);
    TrimSpaceTells("", k, "");
    TrimSpaceTells("", v, "");
    assert "" + k + "" == k && "" + v + "" == v;
    hide TrimSpace;
  }

  lemma AfterHeader(a: string, x: string)
    requires ';' !in x
    ensures Parse(a + ";" + x) == Take(Parse(a), Classify(x))
  {
    ParserIsFold(NO_OPTIONS, a, x);
    OneOption(Parse(a), x);
  }

  /** Starts with `custom-` and has no blank in it. */
  predicate IsCustomName(k: string) {
    "custom-" <= k && forall c :: c in k ==> c != ' ' && c != '\t' && c != '\n' && c != '\r' && c != 12 as char
  }

  lemma CustomNames(k: string)
    ensures IsCustomName(k) <==> IsCustomKey(k)
  {
    assert forall i :: 0 <= i < |k| ==> k[i] in k;
  }

  lemma ClassifiedOption(k: string, v: string)
    requires IsTrimmed(k) && '=' !in k && IsTrimmed(v)
    ensures Classify(k + "=" + v) ==
              if k == "" then Blank
              else if k == "sw-keys" then SwKeys(v)
              else if k == "ts" then (if ParseInt(v).Some? then Timestamp(ParseInt(v).value) else Ignored(k))
              else if k == "trigger-trace" then Dropped
              else if IsCustomName(k) then Custom(k, v)
              else Ignored(k)
  {
    PlainOption(k, v);
    CustomNames(k);
    hide Cut;
    hide TrimSpace;
    hide ParseInt;
    hide IsCustomKey;
    hide IsCustomName;
    hide IsTrimmed;
  }

  /**
    What an option of key and value does after any header. Fields that are not named stay as they are.
   */
  lemma OptionTells(a: string, k: string, v: string)
    requires IsPlain(k) && '=' !in k && IsPlain(v)
    ensures var (was, now) := (Parse(a), Parse(a + ";" + (k + "=" + v)));
            now ==
              if k == "" then was
              else if k == "sw-keys" then was.(swKeys := v)
              else if k == "ts" then
                (if ParseInt(v).Some? then was.(timestamp := ParseInt(v).value) else was.(ignoredKeys := was.ignoredKeys + [k]))
              else if k == "trigger-trace" then was
              else if IsCustomName(k) then was.(customKVs := was.customKVs[k := v])
              else was.(ignoredKeys := was.ignoredKeys + [k])
  {
    AfterHeader(a, k + "=" + v);
    ClassifiedOption(k, v);
    hide Classify;
    hide ParseInt;
    hide Parse;
    hide IsCustomName;
    hide IsTrimmed;
  }

  /** What an option without a value does after any header. */
  lemma BareOptionTells(a: string, k: string)
    requires IsPlain(k) && '=' !in k
    ensures var (was, now) := (Parse(a), Parse(a + ";" + k));
            now ==
              if k == "" then was
              else if k == "trigger-trace" then was.(triggerTrace := true)
              else was.(ignoredKeys := was.ignoredKeys + [k])
  {
    AfterHeader(a, k);
    PlainOption(k, "");
    hide Cut;
    hide TrimSpace;
    hide Parse;
  }

  /** Every 64-bit number is taken as a timestamp, and a text with anything but digits after an optional sign is not. */
  lemma TimestampTells(a: string, n: int, v: string)
    requires -0x8000_0000_0000_0000 <= n <= 0x7FFF_FFFF_FFFF_FFFF
    requires IsPlain(v) && (v == "" || exists i :: (if v[0] == '-' || v[0] == '+' then 1 else 0) <= i < |v| && !('0' <= v[i] <= '9'))
    ensures Parse(a + ";" + ("ts=" + FormatInt(n))) == Parse(a).(timestamp := n)
    ensures Parse(a + ";" + ("ts=" + v)) == Parse(a).(ignoredKeys := Parse(a).ignoredKeys + ["ts"])
  {
    FormattedIsPlain(n);
    ParseFormatted(n);
    NotANumber(v);
    hide FormatInt;
    hide ParseInt;
    hide Parse;
    TsIsPlain();
    OptionTells(a, "ts", FormatInt(n));
    OptionTells(a, "ts", v);
    assert "ts" + "=" == "ts=";
  }

  lemma TsIsPlain()
    ensures IsPlain("ts") && '=' !in "ts"
  {
  }

  lemma NotANumber(v: string)
    requires v == "" || exists i :: (if v[0] == '-' || v[0] == '+' then 1 else 0) <= i < |v| && !('0' <= v[i] <= '9')
    ensures ParseInt(v).None?
  {
    if v != "" {
      var sign := if v[0] == '-' || v[0] == '+' then 1 else 0;
      var i :| sign <= i < |v| && !('0' <= v[i] <= '9');
      assert v[sign..][i - sign] == v[i];
    }
  }

  predicate IsNumeral(c: char) {
    IsDigit(c) || c == '-'
  }

  lemma NumeralsArePlain(s: string)
    requires forall i :: 0 <= i < |s| ==> IsNumeral(s[i])
    ensures IsPlain(s)
  {
    assert forall c :: IsNumeral(c) ==> !IsSpace(c) && c != ';';
    hide IsNumeral;
    hide IsSpace;
  }

  lemma FormattedIsPlain(n: int)
    ensures IsPlain(FormatInt(n))
  {
    var d := FormatNat(if n < 0 then -n else n);
    FormatNatInverse(if n < 0 then -n else n);
    DigitsAreNumerals(d);
    hide FormatNat;
    hide AllDigits;
    NumeralsArePlain(FormatInt(n));
  }

  lemma DigitsAreNumerals(d: string)
    requires AllDigits(d)
    ensures forall i :: 0 <= i < |d| ==> IsNumeral(d[i])
    ensures forall i :: 0 <= i < |"-" + d| ==> IsNumeral(("-" + d)[i])
  {
  }

  /** The empty header says nothing. */
  lemma EmptyHeader()
    ensures Parse("") == Options("", map[], 0, false, [])
  {
    OneOption(NO_OPTIONS, "");
  }

  // ---------- what a header means, said without the fold ----------

  /** The places of the result that a later option overwrites. */
  datatype Slot = SwKeysSlot | TimestampSlot | CustomSlot(key: string)

  predicate Fills(kind: Kind, slot: Slot) {
    match slot
    case SwKeysSlot => kind.SwKeys?
    case TimestampSlot => kind.Timestamp?
    case CustomSlot(k) => kind.Custom? && kind.key == k
  }

  /** Option `i` is the last one that fills the slot. */
  ghost predicate Last(opts: seq<string>, i: int, slot: Slot) {
    0 <= i < |opts| && Fills(Classify(opts[i]), slot) && forall j :: i < j < |opts| ==> !Fills(Classify(opts[j]), slot)
  }

  ghost predicate Never(opts: seq<string>, slot: Slot) {
    forall j :: 0 <= j < |opts| ==> !Fills(Classify(opts[j]), slot)
  }

  function IgnoredIn(opts: seq<string>): seq<string> {
    if opts == [] then []
    else
      var kind := Classify(opts[|opts| - 1]);
      IgnoredIn(opts[..|opts| - 1]) + (if kind.Ignored? then [kind.key] else [])
  }

  ghost predicate MeansPlain(x: Options, opts: seq<string>) {
    && (x.triggerTrace <==> exists i :: 0 <= i < |opts| && Classify(opts[i]).Flag?)
    && x.ignoredKeys == IgnoredIn(opts)
  }

  ghost predicate MeansSwKeys(x: Options, opts: seq<string>) {
    && (forall i :: Last(opts, i, SwKeysSlot) ==> x.swKeys == Classify(opts[i]).value)
    && (Never(opts, SwKeysSlot) ==> x.swKeys == "")
  }

  ghost predicate MeansTimestamp(x: Options, opts: seq<string>) {
    && (forall i :: Last(opts, i, TimestampSlot) ==> x.timestamp == Classify(opts[i]).time)
    && (Never(opts, TimestampSlot) ==> x.timestamp == 0)
  }

  ghost predicate MeansCustomKey(x: Options, opts: seq<string>, k: string) {
    && (forall i :: Last(opts, i, CustomSlot(k)) ==> k in x.customKVs && x.customKVs[k] == Classify(opts[i]).value)
    && (Never(opts, CustomSlot(k)) ==> k !in x.customKVs)
  }

  ghost predicate MeansCustom(x: Options, opts: seq<string>) {
    forall k :: MeansCustomKey(x, opts, k)
  }

  ghost predicate Means(x: Options, opts: seq<string>) {
    MeansPlain(x, opts) && MeansSwKeys(x, opts) && MeansTimestamp(x, opts) && MeansCustom(x, opts)
  }

  lemma LastOfOneMore(opts: seq<string>, s: string, i: int, slot: Slot)
    requires Last(opts + [s], i, slot)
    ensures 0 <= i <= |opts| && (opts + [s])[i] == (if i < |opts| then opts[i] else s)
    ensures Fills(Classify((opts + [s])[i]), slot)
    ensures if Fills(Classify(s), slot) then i == |opts| else i < |opts| && Last(opts, i, slot)
  {
    var all := opts + [s];
    assert all[|opts|] == s;
    if !Fills(Classify(s), slot) {
      assert forall j :: 0 <= j < |opts| ==> all[j] == opts[j];
    }
    hide Classify;
  }

  lemma NeverInOneMore(opts: seq<string>, s: string, slot: Slot)
    requires Never(opts + [s], slot)
    ensures Never(opts, slot) && !Fills(Classify(s), slot)
  {
    var all := opts + [s];
    assert all[|opts|] == s && forall j :: 0 <= j < |opts| ==> all[j] == opts[j];
    hide Classify;
  }

  lemma PlainOneMore(x: Options, opts: seq<string>, s: string)
    requires MeansPlain(x, opts)
    ensures MeansPlain(Take(x, Classify(s)), opts + [s])
  {
    var all := opts + [s];
    assert all[|opts|] == s && all[..|all| - 1] == opts && forall j :: 0 <= j < |opts| ==> all[j] == opts[j];
    hide Classify;
  }

  lemma SwKeysOneMore(x: Options, opts: seq<string>, s: string)
    requires MeansSwKeys(x, opts)
    ensures MeansSwKeys(Take(x, Classify(s)), opts + [s])
  {
    hide Last;
    hide Never;
    hide Classify;
    var all := opts + [s];
    forall i | Last(all, i, SwKeysSlot)
      ensures 0 <= i < |all| && Classify(all[i]).SwKeys? && Take(x, Classify(s)).swKeys == Classify(all[i]).value
    {
      LastOfOneMore(opts, s, i, SwKeysSlot);
    }
    if Never(all, SwKeysSlot) {
      NeverInOneMore(opts, s, SwKeysSlot);
    }
  }

  lemma TimestampOneMore(x: Options, opts: seq<string>, s: string)
    requires MeansTimestamp(x, opts)
    ensures MeansTimestamp(Take(x, Classify(s)), opts + [s])
  {
    hide Last;
    hide Never;
    hide Classify;
    var all := opts + [s];
    forall i | Last(all, i, TimestampSlot)
      ensures 0 <= i < |all| && Classify(all[i]).Timestamp? && Take(x, Classify(s)).timestamp == Classify(all[i]).time
    {
      LastOfOneMore(opts, s, i, TimestampSlot);
    }
    if Never(all, TimestampSlot) {
      NeverInOneMore(opts, s, TimestampSlot);
    }
  }

  lemma CustomOneMore(x: Options, opts: seq<string>, s: string, k: string)
    requires MeansCustomKey(x, opts, k)
    ensures MeansCustomKey(Take(x, Classify(s)), opts + [s], k)
  {
    hide Last;
    hide Never;
    hide Classify;
    var all := opts + [s];
    var y := Take(x, Classify(s));
    forall i | Last(all, i, CustomSlot(k))
      ensures 0 <= i < |all| && Classify(all[i]).Custom? && k in y.customKVs && y.customKVs[k] == Classify(all[i]).value
    {
      LastOfOneMore(opts, s, i, CustomSlot(k));
    }
    if Never(all, CustomSlot(k)) {
      NeverInOneMore(opts, s, CustomSlot(k));
    }
  }

  lemma NoOptionsMeanNothing()
    ensures Means(TakeAll(NO_OPTIONS, []), [])
  {
    forall k
      ensures MeansCustomKey(NO_OPTIONS, [], k)
    {
    }
  }

  lemma {:induction false} TakeAllMeans(opts: seq<string>)
    ensures Means(TakeAll(NO_OPTIONS, opts), opts)
  {
    if opts == [] {
      NoOptionsMeanNothing();
    } else {
      var front, s := opts[..|opts| - 1], opts[|opts| - 1];
      var x := TakeAll(NO_OPTIONS, front);
      assert opts == front + [s];
      TakeAllMeans(front);
      TakeAllConcat(NO_OPTIONS, front, [s]);
      assert TakeAll(Take(x, Classify(s)), [s][1..]) == Take(x, Classify(s));
      PlainOneMore(x, front, s);
      SwKeysOneMore(x, front, s);
      TimestampOneMore(x, front, s);
      forall k
        ensures MeansCustomKey(Take(x, Classify(s)), opts, k)
      {
        assert MeansCustomKey(x, front, k);
        CustomOneMore(x, front, s, k);
      }
      hide MeansPlain;
      hide MeansSwKeys;
      hide MeansTimestamp;
      hide MeansCustomKey;
      hide Classify;
    }
  }

  /**
    The meaning of a header, option by option: the trigger-trace flag is set exactly when some option is
    the bare flag; sw-keys, the timestamp and each custom key have the value of the last option that
    gives one, and none otherwise; and the ignored keys are those of the ignored options, in order.
   */
  lemma {:induction false} ParsedHeaderMeans(s: string)
    ensures Means(Parse(s), SplitRuns(s))
  {
    TakeAllMeans(SplitRuns(s));
  }

  lemma {:induction false} CustomKeysAreCustom(o: Options, opts: seq<string>)
    requires forall k :: k in o.customKVs ==> "custom-" <= k
    ensures forall k :: k in TakeAll(o, opts).customKVs ==> "custom-" <= k
    decreases opts
  {
    if opts != [] {
      CustomKeysAreCustom(Take(o, Classify(opts[0])), opts[1..]);
    }
  }

  // ---------- the signature ----------

  datatype AuthStatus = AuthOK | AuthBadTimestamp | AuthNoSignatureKey | AuthBadSignature {
    function Msg(): string {
      match this
      case AuthOK => "ok"
      case AuthBadTimestamp => "bad-timestamp"
      case AuthNoSignatureKey => "no-signature-key"
      case AuthBadSignature => "bad-signature"
    }
  }

  datatype SignatureState = NoSignature | ValidSignature | InvalidSignature

  const SECOND: int := 1000000000
  const SCOPE: int := 300 * SECOND

  /** What the check depends on besides the request: two clock readings, the key, and the hash. */
  datatype Verifier = Verifier(now1: int, now2: int, token: Option<string>, hmac: (string, string) -> string)

  /** The second element tells an error. Times are in nanoseconds of Unix time. */
  function TsInScope(ts: string, now1: int, now2: int): Option<string> {
    match ParseInt(ts)
    case None => None
    case Some(n) => if n * SECOND < now1 - SCOPE || n * SECOND > now2 + SCOPE then None else Some(FormatInt(n))
  }

  function ValidateSignature(o: Verifier, signature: string, ts: string, data: string): AuthStatus {
    if TsInScope(ts, o.now1, o.now2).None? then AuthBadTimestamp
    else if o.token.None? then AuthNoSignatureKey
    else if o.hmac(o.token.value, data) != signature then AuthBadSignature
    else AuthOK
  }

  datatype Header = Header(opts: string, sig: string, options: Options, sigState: SignatureState, authStatus: AuthStatus)

  function ParseHeader(o: Verifier, opts: string, sig: string): Header {
    var x := Parse(opts);
    var status := if sig == "" then AuthOK else ValidateSignature(o, sig, FormatInt(x.timestamp), opts);
    Header(opts, sig, x, if sig == "" then NoSignature else if status.AuthOK? then ValidSignature else InvalidSignature, status)
  }

  lemma {:induction false} TimestampFits(x: Options, opts: seq<string>)
    requires MIN_INT64 <= x.timestamp <= MAX_INT64
    ensures MIN_INT64 <= TakeAll(x, opts).timestamp <= MAX_INT64
    decreases opts
  {
    if opts != [] {
      TimestampFits(Take(x, Classify(opts[0])), opts[1..]);
    }
  }

  /** The outcome of the signature check and its text; the first thing that is wrong counts. */
  lemma StatusTells(o: Verifier, opts: string, sig: string)
    ensures var (h, stamp) := (ParseHeader(o, opts, sig), Parse(opts).timestamp * 1000000000);
            (h.sigState, h.authStatus.Msg()) ==
              if sig == "" then (NoSignature, "ok")
              else if stamp < o.now1 - 300000000000 || o.now2 + 300000000000 < stamp then (InvalidSignature, "bad-timestamp")
              else if o.token.None? then (InvalidSignature, "no-signature-key")
              else if o.hmac(o.token.value, opts) != sig then (InvalidSignature, "bad-signature")
              else (ValidSignature, "ok")
  {
    TimestampFits(NO_OPTIONS, SplitRuns(opts));
    ParseFormatted(Parse(opts).timestamp);
    hide Parse;
    hide ParseInt;
    hide FormatInt;
  }

  /**
    A signature is accepted exactly when there is one, the header's own timestamp lies within five
    minutes of the clock, a key is known, and the signature is the hash of the whole header.
   */
  lemma SignatureValidIff(o: Verifier, opts: string, sig: string)
    ensures ParseHeader(o, opts, sig).sigState == ValidSignature <==>
              && sig != ""
              && o.now1 - 300000000000 <= Parse(opts).timestamp * 1000000000 <= o.now2 + 300000000000
              && o.token.Some? && o.hmac(o.token.value, opts) == sig
  {
    TimestampFits(NO_OPTIONS, SplitRuns(opts));
    ParseFormatted(Parse(opts).timestamp);
  }
}
