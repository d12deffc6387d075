/**
  The tracestate entries of internal/swotel/tracestate.go.

  A trace state is an ordered list of key/value entries (section 3.3 of W3C Trace Context). Setting an
  entry moves it to the front (section 3.5). Insertion is taken to succeed.
 */
module TraceStates {
  import opened Text
  import opened Wrappers

  // ---------- the list ----------

  datatype Entry = Entry(key: string, value: string)

  type TraceState = seq<Entry>

  function Delete(ts: TraceState, key: string): TraceState {
    if ts == [] then []
    else if ts[0].key == key then Delete(ts[1..], key)
    else [ts[0]] + Delete(ts[1..], key)
  }

  function Insert(ts: TraceState, key: string, value: string): TraceState {
    [Entry(key, value)] + Delete(ts, key)
  }

  function Get(ts: TraceState, key: string): string {
    if ts == [] then "" else if ts[0].key == key then ts[0].value else Get(ts[1..], key)
  }

  const SW := "sw"
  const XTRACE_OPT_RESP_KEY := "xtrace_options_response"

  function GetSw(ts: TraceState): string {
    Get(ts, SW)
  }

  function SetSw(ts: TraceState, val: string): TraceState {
    Insert(ts, SW, val)
  }

  /** Internal entries are named by a number, of which only one is known. */
  type InternalKey = int

  const XTRACE_OPT_RESP: InternalKey := 0

  function InternalKeyStr(key: InternalKey): Option<string> {
    if key == XTRACE_OPT_RESP then Some(XTRACE_OPT_RESP_KEY) else None
  }

  /** The new trace state, and whether the key was known; an unknown key changes nothing. */
  function RemoveInternalState(ts: TraceState, key: InternalKey): (TraceState, bool) {
    match InternalKeyStr(key)
    case None => (ts, false)
    case Some(k) => (Delete(ts, k), true)
  }

  /** The entries of other vendors. */
  function Capture(ts: TraceState): TraceState {
    Delete(Delete(ts, SW), XTRACE_OPT_RESP_KEY)
  }

  lemma {:induction false} DeleteLaws(ts: TraceState, key: string, other: string)
    ensures Get(Delete(ts, key), key) == ""
    ensures key != other ==> Get(Delete(ts, key), other) == Get(ts, other)
    ensures Delete(Delete(ts, key), key) == Delete(ts, key)
    ensures Delete(Delete(ts, key), other) == Delete(Delete(ts, other), key)
  {
    if ts != [] {
      DeleteLaws(ts[1..], key, other);
      var a, b := Delete(ts[1..], key), Delete(ts[1..], other);
      assert ([ts[0]] + a)[1..] == a && ([ts[0]] + b)[1..] == b;
    }
  }

  /** Deletion goes entry by entry, and so do the other vendors' entries: all but those of the two keys, in order. */
  lemma {:induction false} DeleteTells(a: TraceState, b: TraceState, e: Entry, key: string)
    ensures Delete(a + b, key) == Delete(a, key) + Delete(b, key)
    ensures Delete([e], key) == (if e.key == key then [] else [e]) && Delete([], key) == []
  {
    assert [e][1..] == [];
    if a == [] {
      assert a + b == b;
    } else {
      assert (a + b)[1..] == a[1..] + b;
      DeleteTells(a[1..], b, e, key);
    }
  }

  lemma CaptureTells(a: TraceState, b: TraceState, e: Entry)
    ensures Capture(a + b) == Capture(a) + Capture(b) && Capture([]) == []
    ensures Capture([e]) == if e.key == "sw" || e.key == "xtrace_options_response" then [] else [e]
  {
    DeleteTells(a, b, e, SW);
    DeleteTells(Delete(a, SW), Delete(b, SW), e, XTRACE_OPT_RESP_KEY);
    hide Delete;
  }

  /** The value of a key is that of its first entry. */
  lemma {:induction false} GetTells(a: TraceState, key: string, value: string, b: TraceState)
    requires forall i :: 0 <= i < |a| ==> a[i].key != key
    ensures Get(a + [Entry(key, value)] + b, key) == value && Get(a, key) == ""
  {
    var s := a + [Entry(key, value)] + b;
    if a != [] {
      GetTells(a[1..], key, value, b);
      assert s[1..] == a[1..] + [Entry(key, value)] + b && s[0] == a[0];
    }
  }

  lemma InsertLaws(ts: TraceState, key: string, value: string, other: string)
    ensures Get(Insert(ts, key, value), key) == value
    ensures key != other ==> Get(Insert(ts, key, value), other) == Get(ts, other)
    ensures Delete(Insert(ts, key, value), key) == Delete(ts, key)
    ensures Insert(ts, key, value)[0] == Entry(key, value)
  {
    DeleteLaws(ts, key, other);
    assert Insert(ts, key, value)[1..] == Delete(ts, key);
  }

  // ---------- escaping ----------

  const COMMA_SEP := "...."
  const EQ_SEP := "####"

  function Encode(v: string): string {
    ReplaceAll(ReplaceAll(v, ",", COMMA_SEP), "=", EQ_SEP)
  }

  /** Every four marks become the separator they stand for. */
  function Collapse(s: string, a: char, r: char): string {
    ReplaceAll(s, [r, r, r, r], [a])
  }

  function Decode(v: string): string {
    Collapse(Collapse(v, ',', '.'), '=', '#')
  }

  function SetInternalState(ts: TraceState, key: InternalKey, val: string): (TraceState, bool) {
    match InternalKeyStr(key)
    case None => (ts, false)
    case Some(k) => (Insert(ts, k, Encode(val)), true)
  }

  function GetInternalState(ts: TraceState, key: InternalKey): Option<string> {
    match InternalKeyStr(key)
    case None => None
    case Some(k) => Some(Decode(Get(ts, k)))
  }

  /** None of the four patterns on which the escaping is ambiguous. */
  ghost predicate Unambiguous(v: string) {
    !Contains(v, "....") && !Contains(v, ".,") && !Contains(v, "####") && !Contains(v, "#=")
  }

  function EncodeChar(c: char): string {
    if c == ',' then "...." else if c == '=' then "####" else [c]
  }

  lemma PrefixOfOne(p: char, s: string)
    ensures [p] <= s <==> s != [] && s[0] == p
  {
  }

  /** Characters that the pattern does not start with pass through one by one. */
  lemma {:induction false} ReplaceAllSkips(p: string, s: string, old_: string, new_: string)
    requires old_ != [] && forall i :: 0 <= i < |p| ==> p[i] != old_[0]
    ensures ReplaceAll(p + s, old_, new_) == p + ReplaceAll(s, old_, new_)
  {
    if p == [] {
      assert p + s == s;
    } else {
      assert (p + s)[0] == p[0] && (p + s)[1..] == p[1..] + s;
      ReplaceAllSkips(p[1..], s, old_, new_);
    }
  }

  lemma ReplaceAllHits(s: string, old_: string, new_: string)
    requires old_ != []
    ensures ReplaceAll(old_ + s, old_, new_) == new_ + ReplaceAll(s, old_, new_)
  {
    assert (old_ + s)[|old_|..] == s && old_ <= old_ + s;
  }

  lemma ReplaceAllMisses(c: char, s: string, old_: string, new_: string)
    requires old_ != [] && !(old_ <= [c] + s)
    ensures ReplaceAll([c] + s, old_, new_) == [c] + ReplaceAll(s, old_, new_)
  {
    assert ([c] + s)[1..] == s;
  }

  lemma EncodeStep(c: char, v: string)
    ensures Encode([c] + v) == EncodeChar(c) + Encode(v)
  {
    hide ReplaceAll;
    var once := ReplaceAll(v, ",", COMMA_SEP);
    PrefixOfOne(',', [c] + v);
    PrefixOfOne('=', [c] + once);
    if c == ',' {
      ReplaceAllHits(v, ",", COMMA_SEP);
      ReplaceAllSkips("....", once, "=", EQ_SEP);
    } else {
      ReplaceAllMisses(c, v, ",", COMMA_SEP);
      if c == '=' {
        ReplaceAllHits(once, "=", EQ_SEP);
      } else {
        ReplaceAllMisses(c, once, "=", EQ_SEP);
      }
    }
  }

  /** A separator and the character whose fourfold repetition stands for it. */
  predicate IsPair(a: char, r: char) {
    (a == ',' && r == '.') || (a == '=' && r == '#')
  }

  function Rep(r: char, k: nat): string {
    if k == 0 then [] else [r] + Rep(r, k - 1)
  }

  /** The text starts with `k` marks, or with fewer and then the separator. */
  predicate Marks(v: string, a: char, r: char, k: nat) {
    k == 0 || (v != [] && (v[0] == a || (v[0] == r && Marks(v[1..], a, r, k - 1))))
  }

  lemma ConsPrefix(c: char, p: string, d: char, s: string)
    ensures [c] + p <= [d] + s <==> c == d && p <= s
  {
    assert ([c] + p)[1..] == p && ([d] + s)[1..] == s;
    if [c] + p <= [d] + s {
      assert ([d] + s)[..|p| + 1] == [c] + p;
      assert ([d] + s)[0] == ([c] + p)[0];
      assert s[..|p|] == ([d] + s)[..|p| + 1][1..] == p;
    }
    if c == d && p <= s {
      assert s == p + s[|p|..];
      assert [d] + s == ([c] + p) + s[|p|..];
      assert ([d] + s)[..|[c] + p|] == [c] + p;
    }
  }

  lemma Rep4(r: char)
    ensures Rep(r, 1) == [r] && Rep(r, 2) == [r, r] && Rep(r, 3) == [r, r, r] && Rep(r, 4) == [r, r, r, r]
  {
    assert Rep(r, 1) == [r] + Rep(r, 0);
    assert Rep(r, 2) == [r] + Rep(r, 1);
    assert Rep(r, 3) == [r] + Rep(r, 2);
    assert Rep(r, 4) == [r] + Rep(r, 3);
  }

  lemma {:induction false} EncodedMarks(v: string, a: char, r: char, k: nat)
    requires IsPair(a, r) && k <= 4
    ensures Rep(r, k) <= Encode(v) <==> Marks(v, a, r, k)
  {
    hide ReplaceAll;
    if k > 0 {
      if v == [] {
        assert Encode(v) == [] by { EncodeNothing(); }
      } else {
        var rest := Encode(v[1..]);
        EncodeStep(v[0], v[1..]);
        assert v == [v[0]] + v[1..];
        EncodedMarks(v[1..], a, r, k - 1);
        if v[0] == a {
          Rep4(r);
          assert Encode(v) == [r, r, r, r] + rest;
        } else if v[0] == r {
          ConsPrefix(r, Rep(r, k - 1), r, rest);
        } else {
          assert Encode(v)[0] != r;
        }
      }
    }
  }

  lemma EncodeNothing()
    ensures Encode("") == ""
  {
  }

  /** A text that starts with a mark is encoded to four marks exactly when it starts with an ambiguous pattern. */
  lemma BlockedIffAmbiguousRun(v: string, a: char, r: char)
    requires IsPair(a, r) && v != [] && v[0] == r
    ensures [r, r, r, r] <= Encode(v) ==> Contains(v, [r, r, r, r]) || Contains(v, [r, a])
    ensures [r, r, r, r] <= v || [r, a] <= v ==> [r, r, r, r] <= Encode(v)
  {
    EncodedMarks(v, a, r, 4);
    Rep4(r);
    hide Encode;
    if [r, a] <= v {
      assert v[1] == a && v[1..][0] == a;
      assert Marks(v[1..], a, r, 3);
    }
    if [r, r, r, r] <= v {
      assert v[0] == r && v[1] == r && v[2] == r && v[3] == r;
      assert Marks(v[1..][1..][1..], a, r, 1);
      assert Marks(v[1..][1..], a, r, 2);
      assert Marks(v[1..], a, r, 3);
    }
    if Marks(v, a, r, 4) {
      assert Marks(v[1..], a, r, 3);
      if v[1] == a {
        assert OccursAt(v, [r, a], 0);
      } else {
        assert Marks(v[1..][1..], a, r, 2);
        if v[2] == a {
          assert OccursAt(v, [r, a], 1);
        } else {
          assert Marks(v[1..][1..][1..], a, r, 1);
          if v[3] == a {
            assert OccursAt(v, [r, a], 2);
          } else {
            assert OccursAt(v, [r, r, r, r], 0);
          }
        }
      }
    }
  }

  // ---------- the exact round trip ----------

  /** Four hashes come through the first replacement and do not come out of it otherwise. */
  lemma {:induction false} HashesSurvive(s: string, k: nat)
    requires k <= 4
    ensures Rep('#', k) <= Collapse(s, ',', '.') <==> Rep('#', k) <= s
  {
    if k > 0 && s != [] {
      if COMMA_SEP <= s {
        ReplaceAllHits(s[4..], COMMA_SEP, ",");
        assert s == COMMA_SEP + s[4..];
        assert s[0] == '.' && Collapse(s, ',', '.')[0] == ',';
      } else {
        assert s == [s[0]] + s[1..];
        ReplaceAllMisses(s[0], s[1..], COMMA_SEP, ",");
        HashesSurvive(s[1..], k - 1);
        ConsPrefix('#', Rep('#', k - 1), s[0], s[1..]);
        ConsPrefix('#', Rep('#', k - 1), s[0], Collapse(s[1..], ',', '.'));
      }
    }
  }

  /** What decoding makes of an encoded text, told by its first character. */
  lemma DecodeStep(v: string)
    requires v != []
    ensures v[0] == '.' && "...." <= Encode(v) ==> Decode(Encode(v)) != [] && Decode(Encode(v))[0] == ','
    ensures v[0] == '#' && "####" <= Encode(v) ==> Decode(Encode(v)) != [] && Decode(Encode(v))[0] == '='
    ensures ((v[0] == '.' ==> !("...." <= Encode(v))) && (v[0] == '#' ==> !("####" <= Encode(v)))) ==>
              Decode(Encode(v)) == [v[0]] + Decode(Encode(v[1..]))
  {
    var c, w, s, t := v[0], v[1..], Encode(v), Encode(v[1..]);
    assert v == [c] + w;
    EncodeStep(c, w);
    Rep4('#');
    HashesSurvive(s, 4);
    HashesSurvive(t, 4);
    hide ReplaceAll;
    hide Encode;
    if COMMA_SEP <= s {
      var rest := s[4..];
      assert s == COMMA_SEP + rest;
      ReplaceAllHits(rest, COMMA_SEP, ",");
      ReplaceAllSkips(",", Collapse(rest, ',', '.'), EQ_SEP, "=");
      if c == ',' {
        assert rest == t;
      }
    } else if EQ_SEP <= s {
      var rest := s[4..];
      assert s == EQ_SEP + rest;
      ReplaceAllSkips(EQ_SEP, rest, COMMA_SEP, ",");
      ReplaceAllHits(Collapse(rest, ',', '.'), EQ_SEP, "=");
      if c == '=' {
        assert rest == t;
      }
    } else {
      assert s == [c] + t;
      ReplaceAllMisses(c, t, COMMA_SEP, ",");
      ReplaceAllMisses(c, Collapse(t, ',', '.'), EQ_SEP, "=");
    }
  }

  /**
    The exact condition for a value to survive: encoding and decoding gives it back if and only if it
    contains none of `....`, `.,`, `####` and `#=`.
   */
  lemma {:induction false} RoundTripIffUnambiguous(v: string)
    ensures Decode(Encode(v)) == v <==> Unambiguous(v)
  {
    if v != [] {
      var w := v[1..];
      DecodeStep(v);
      RoundTripIffUnambiguous(w);
      ContainsStep(v, "....");
      ContainsStep(v, ".,");
      ContainsStep(v, "####");
      ContainsStep(v, "#=");
      if v[0] == '.' {
        BlockedIffAmbiguousRun(v, ',', '.');
      }
      if v[0] == '#' {
        BlockedIffAmbiguousRun(v, '=', '#');
      }
      hide Encode;
      hide Decode;
      hide Contains;
      assert v == [v[0]] + w;
    }
  }

  /** Each of the four patterns is itself a value that is lost. */
  lemma PatternsAreLost(v: string)
    requires v == "...." || v == ".," || v == "####" || v == "#="
    ensures Decode(Encode(v)) != v
  {
    assert OccursAt(v, v, 0);
    RoundTripIffUnambiguous(v);
    hide Encode;
    hide Decode;
  }

  /** What is stored carries neither separator of the header. */
  lemma {:induction false} EncodingIsClean(v: string)
    ensures ',' !in Encode(v) && '=' !in Encode(v)
  {
    if v != [] {
      EncodeStep(v[0], v[1..]);
      assert v == [v[0]] + v[1..];
      EncodingIsClean(v[1..]);
    }
  }

  // ---------- decoding is a normal form ----------

  lemma CollapseStep(s: string, a: char, r: char)
    requires s != []
    ensures [r, r, r, r] <= s ==> Collapse(s, a, r) == [a] + Collapse(s[4..], a, r)
    ensures !([r, r, r, r] <= s) ==> Collapse(s, a, r) == [s[0]] + Collapse(s[1..], a, r)
  {
    var p := [r, r, r, r];
    if p <= s {
      assert s == p + s[4..];
      ReplaceAllHits(s[4..], p, [a]);
    } else {
      assert s == [s[0]] + s[1..];
      ReplaceAllMisses(s[0], s[1..], p, [a]);
    }
  }

  lemma {:induction false} CollapseKeepsFront(s: string, a: char, r: char, k: nat)
    requires a != r && Rep(r, k) <= Collapse(s, a, r)
    ensures Rep(r, k) <= s
  {
    if k > 0 && s != [] {
      CollapseStep(s, a, r);
      assert Collapse(s, a, r)[0] == Rep(r, k)[0] == r;
      if !([r, r, r, r] <= s) {
        ConsPrefix(r, Rep(r, k - 1), s[0], Collapse(s[1..], a, r));
        ConsPrefix(r, Rep(r, k - 1), s[0], s[1..]);
        CollapseKeepsFront(s[1..], a, r, k - 1);
        assert s == [s[0]] + s[1..];
      }
    }
  }

  lemma SeparatorComesFromMarks(s: string, a: char, r: char)
    requires a != r && a !in s && Collapse(s, a, r) != [] && Collapse(s, a, r)[0] == a
    ensures [r, r, r, r] <= s
  {
    if s != [] {
      CollapseStep(s, a, r);
      assert s[0] in s;
    }
  }

  lemma OneMoreMark(s: string, r: char)
    requires s != [] && s[0] == r && [r, r, r, r] <= s[1..]
    ensures [r, r, r, r] <= s
  {
    assert s[1] == s[1..][0] && s[2] == s[1..][1] && s[3] == s[1..][2];
  }

  lemma {:induction false} CollapseIsClean(s: string, a: char, r: char)
    requires a != r && a !in s
    ensures !Contains(Collapse(s, a, r), [r, r, r, r]) && !Contains(Collapse(s, a, r), [r, a])
  {
    if s != [] {
      var u := Collapse(s, a, r);
      CollapseStep(s, a, r);
      ContainsStep(u, [r, r, r, r]);
      ContainsStep(u, [r, a]);
      assert [r, a] <= u ==> u[0] == [r, a][0];
      if [r, r, r, r] <= s {
        CollapseIsClean(s[4..], a, r);
      } else {
        CollapseIsClean(s[1..], a, r);
        Rep4(r);
        if [r, r, r, r] <= u {
          CollapseKeepsFront(s, a, r, 4);
        }
        if [r, a] <= u {
          assert u[0] == [r, a][0] == r && u[1] == [r, a][1] == a;
          SeparatorComesFromMarks(s[1..], a, r);
          OneMoreMark(s, r);
        }
      }
      hide Collapse;
    }
  }

  lemma {:induction false} CollapseAddsNoPrefix(s: string, a: char, r: char, p: string)
    requires p <= Collapse(s, a, r) && a !in p && r !in p
    ensures p <= s
  {
    if p != [] && s != [] {
      CollapseStep(s, a, r);
      assert p[0] == Collapse(s, a, r)[0] && p[0] in p;
      assert p == [p[0]] + p[1..] && s == [s[0]] + s[1..];
      ConsPrefix(p[0], p[1..], s[0], Collapse(s[1..], a, r));
      ConsPrefix(p[0], p[1..], s[0], s[1..]);
      CollapseAddsNoPrefix(s[1..], a, r, p[1..]);
    }
  }

  lemma ContainedFurtherOn(s: string, n: nat, p: string)
    requires n <= |s| && Contains(s[n..], p)
    ensures Contains(s, p)
  {
    var i: nat :| OccursAt(s[n..], p, i);
    assert s[n + i..n + i + |p|] == s[n..][i..i + |p|];
    assert OccursAt(s, p, n + i);
  }

  lemma {:induction false} CollapseAddsNothingElse(s: string, a: char, r: char, p: string)
    requires p != [] && a !in p && r !in p && Contains(Collapse(s, a, r), p)
    ensures Contains(s, p)
  {
    if s != [] {
      var u := Collapse(s, a, r);
      CollapseStep(s, a, r);
      ContainsStep(u, p);
      if p <= u {
        CollapseAddsNoPrefix(s, a, r, p);
        assert OccursAt(s, p, 0);
      } else if [r, r, r, r] <= s {
        CollapseAddsNothingElse(s[4..], a, r, p);
        ContainedFurtherOn(s, 4, p);
      } else {
        CollapseAddsNothingElse(s[1..], a, r, p);
        ContainedFurtherOn(s, 1, p);
      }
    }
  }

  lemma {:induction false} CollapseAddsOnlyItsSeparator(s: string, a: char, r: char, c: char)
    requires c != a && c !in s
    ensures c !in Collapse(s, a, r)
  {
    if s != [] {
      CollapseStep(s, a, r);
      if [r, r, r, r] <= s {
        CollapseAddsOnlyItsSeparator(s[4..], a, r, c);
      } else {
        CollapseAddsOnlyItsSeparator(s[1..], a, r, c);
      }
    }
  }

  /** One trip leaves an unambiguous value, so a second trip changes nothing. */
  lemma SecondTripChangesNothing(v: string)
    ensures Unambiguous(Decode(Encode(v)))
    ensures Decode(Encode(Decode(Encode(v)))) == Decode(Encode(v))
  {
    var s := Encode(v);
    var u := Collapse(s, ',', '.');
    assert Decode(s) == Collapse(u, '=', '#');
    EncodingIsClean(v);
    CollapseIsClean(s, ',', '.');
    CollapseAddsOnlyItsSeparator(s, ',', '.', '=');
    CollapseIsClean(u, '=', '#');
    if Contains(Decode(s), "....") {
      CollapseAddsNothingElse(u, '=', '#', "....");
    }
    if Contains(Decode(s), ".,") {
      CollapseAddsNothingElse(u, '=', '#', ".,");
    }
    RoundTripIffUnambiguous(Decode(s));
  }

  /** Operations on internal entries fail, and change nothing, exactly for unknown keys; the known one is number 0. */
  lemma UnknownKeysFail(ts: TraceState, key: InternalKey, val: string)
    ensures SetInternalState(ts, key, val).1 == RemoveInternalState(ts, key).1 == GetInternalState(ts, key).Some? == (key == 0)
    ensures key != 0 ==> SetInternalState(ts, key, val).0 == ts && RemoveInternalState(ts, key).0 == ts
    ensures key == 0 ==> Get(RemoveInternalState(ts, key).0, "xtrace_options_response") == ""
  {
    DeleteLaws(ts, XTRACE_OPT_RESP_KEY, SW);
    hide Encode;
    hide Decode;
    hide Delete;
  }

  /** What was set is read back exactly when the key is known and the value unambiguous. */
  lemma InternalStateRoundTrip(ts: TraceState, key: InternalKey, val: string)
    ensures GetInternalState(SetInternalState(ts, key, val).0, key) == Some(val) <==> key == XTRACE_OPT_RESP && Unambiguous(val)
  {
    InsertLaws(ts, XTRACE_OPT_RESP_KEY, Encode(val), SW);
    RoundTripIffUnambiguous(val);
  }

  lemma WithoutMarksIsUnambiguous(v: string)
    requires '.' !in v && '#' !in v
    ensures Unambiguous(v)
  {
    forall p: string, i: nat | p != [] && OccursAt(v, p, i)
      ensures p[0] in v
    {
      assert v[i..i + |p|][0] == v[i];
    }
  }
}
