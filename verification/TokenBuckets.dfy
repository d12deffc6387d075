/**
  The lazily refilled token bucket of internal/oboe/token_bucket.go.

  The bucket is a class whose methods update its fields as the source does. Each method is proved
  against a function on the value `Bucket`, and the laws are proved about runs of those functions.
  The mutex makes every call one atomic step, so a run is a sequence of attempts.
 */
module TokenBuckets {
  import opened Metrics

  // ---------- Go time ----------

  // A time.Time is the number of nanoseconds since Go's zero time; a Duration is a 64-bit count.
  const MAX_DURATION: int := 0x7FFF_FFFF_FFFF_FFFF
  const MIN_DURATION: int := -0x8000_0000_0000_0000
  const ZERO_TIME: int := 0

  /** Time.Sub saturates instead of overflowing, which is what the first refill of a bucket meets. */
  function Sub(t: int, u: int): int {
    if t - u > MAX_DURATION then MAX_DURATION
    else if t - u < MIN_DURATION then MIN_DURATION
    else t - u
  }

  function Seconds(d: int): real {
    d as real / 1000000000.0
  }

  /** The forward part of a clock move; a step backwards counts as no move. */
  function Forward(from: int, to: int): nat {
    if Sub(to, from) <= 0 then 0 else Sub(to, from)
  }

  /** The tokens that a rate generates in a duration. */
  function Tokens(rate: real, d: int): real {
    rate * Seconds(d)
  }

  function MinReal(x: real, y: real): real {
    if x <= y then x else y
  }

  /** The positive part of a configured rate or capacity. */
  function Pos(x: real): real {
    if x <= 0.0 then 0.0 else x
  }

  // ---------- the bucket as a value ----------

  datatype Outcome = Outcome(bucket: Bucket, granted: bool)

  datatype Bucket = Bucket(ratePerSec: real, capacity: real, available: real, last: int) {

    function SetRateCap(rate: real, cap: real): Bucket {
      Bucket(rate, cap, MinReal(available, cap), last)
    }

    function Update(now: int): Bucket {
      if available < capacity then
        if Sub(now, last) <= 0 then this.(last := now)
        else this.(last := now, available := MinReal(capacity, available + Tokens(ratePerSec, Sub(now, last))))
      else this
    }

    function Consume(size: real, now: int): Outcome {
      var u := Update(now);
      if u.available >= size then Outcome(u.(available := u.available - size), true) else Outcome(u, false)
    }
  }

  /** What counting one request leaves behind. */
  datatype Counting = Counting(bucket: Bucket, counts: Counters, traced: bool)

  function CountRequest(b: Bucket, c: Counters, sampled: bool, hasMetadata: bool, rateLimit: bool, isTriggerTrace: bool, now: int): (r: Counting)
    ensures r.bucket.capacity == b.capacity && r.bucket.ratePerSec == b.ratePerSec
  {
    var seen := c.(requested := c.requested + 1, sampled := if hasMetadata then c.sampled else c.sampled + 1);
    var o := if sampled && rateLimit then b.Consume(1.0, now) else Outcome(b, sampled);
    if !sampled then Counting(b, seen, false)
    else if !o.granted then Counting(o.bucket, seen.(limited := seen.limited + 1), false)
    else Counting(o.bucket,
                  seen.(through := if hasMetadata then seen.through + 1 else seen.through,
                        ttraced := if isTriggerTrace then seen.ttraced + 1 else seen.ttraced,
                        traced := seen.traced + 1),
                  true)
  }

  /**
    What counting a request does: which counters rise by one, and that the bucket is asked for one token
    exactly by a sampled request under rate limiting.
   */
  lemma CountRequestTells(b: Bucket, c: Counters, sampled: bool, hasMetadata: bool, rateLimit: bool, isTriggerTrace: bool, now: int)
    ensures var r := CountRequest(b, c, sampled, hasMetadata, rateLimit, isTriggerTrace, now);
            var asked := sampled && rateLimit;
            && r.traced == (sampled && (rateLimit ==> b.Consume(1.0, now).granted))
            && r.bucket == (if asked then b.Consume(1.0, now).bucket else b)
            && r.counts.requested - c.requested == 1
            && r.counts.sampled - c.sampled == (if hasMetadata then 0 else 1)
            && r.counts.limited - c.limited == (if asked && !r.traced then 1 else 0)
            && r.counts.through - c.through == (if hasMetadata && r.traced then 1 else 0)
            && r.counts.ttraced - c.ttraced == (if isTriggerTrace && r.traced then 1 else 0)
            && r.counts.traced - c.traced == (if r.traced then 1 else 0)
  {
    hide Bucket.Consume;
  }

  /** Taking tokens: granted exactly when the refilled bucket has them, and then exactly they are gone. */
  lemma ConsumeTells(b: Bucket, size: real, now: int)
    ensures var (u, o) := (b.Update(now), b.Consume(size, now));
            && (o.granted <==> size <= u.available)
            && (o.granted ==> o.bucket.available + size == u.available)
            && (!o.granted ==> o.bucket == u)
            && o.bucket.last == u.last && o.bucket.capacity == b.capacity && o.bucket.ratePerSec == b.ratePerSec
  {
    hide Tokens;
    hide Sub;
  }

  const EMPTY_BUCKET := Bucket(0.0, 0.0, 0.0, ZERO_TIME)

  /** The bucket that every settings generation starts with. */
  function Fresh(rate: real, cap: real): Bucket {
    EMPTY_BUCKET.SetRateCap(rate, cap)
  }

  /** A new bucket has these settings and no tokens yet; a negative capacity is a debt. Its clock is at Go's zero time. */
  lemma FreshTells(rate: real, cap: real)
    ensures var b := Fresh(rate, cap);
            && b.ratePerSec == rate && b.capacity == cap && b.last == 0
            && b.available <= 0.0 && b.available <= cap && (b.available == 0.0 || b.available == cap)
  {
  }

  /** What an update at time `to` adds, before the cap, to a bucket last updated at `from`. */
  function Refill(rate: real, from: int, to: int): real {
    Tokens(rate, Forward(from, to))
  }

  // ---------- the bucket as the source has it ----------

  class TokenBucket {
    var ratePerSec: real
    var capacity: real
    var available: real
    var last: int

    ghost function View(): Bucket
      reads this
    {
      Bucket(ratePerSec, capacity, available, last)
    }

    constructor ()
      ensures View() == EMPTY_BUCKET
    {
      ratePerSec, capacity, available, last := 0.0, 0.0, 0.0, ZERO_TIME;
    }

    method SetRateCap(rate: real, cap: real)
      modifies this
      ensures View() == old(View()).SetRateCap(rate, cap)
    {
      ratePerSec := rate;
      capacity := cap;
      if available > capacity {
        available := capacity;
      }
    }

    method Count(counts: RateCounts, sampled: bool, hasMetadata: bool, rateLimit: bool, isTriggerTrace: bool, now: int)
      returns (traced: bool)
      modifies this, counts
      ensures Counting(View(), counts.View(), traced)
           == CountRequest(old(View()), old(counts.View()), sampled, hasMetadata, rateLimit, isTriggerTrace, now)
    {
      counts.requested := counts.requested + 1;
      if !hasMetadata {
        counts.sampled := counts.sampled + 1;
      }
      if !sampled {
        return sampled;
      }
      if rateLimit {
        var ok := Consume(1.0, now);
        if !ok {
          counts.limited := counts.limited + 1;
          return false;
        }
      }
      if hasMetadata {
        counts.through := counts.through + 1;
      }
      if isTriggerTrace {
        counts.ttraced := counts.ttraced + 1;
      }
      counts.traced := counts.traced + 1;
      return sampled;
    }

    method Consume(size: real, now: int) returns (granted: bool)
      modifies this
      ensures Outcome(View(), granted) == old(View()).Consume(size, now)
    {
      Update(now);
      if available >= size {
        available := available - size;
        return true;
      }
      return false;
    }

    method Update(now: int)
      modifies this
      ensures View() == old(View()).Update(now)
    {
      if available < capacity {
        var delta := Sub(now, last);
        last := now;
        if delta <= 0 {
          return;
        }
        var newTokens := Tokens(ratePerSec, delta);
        available := MinReal(capacity, available + newTokens);
      }
    }
  }

  // ---------- runs ----------

  /** The bucket after attempts to take one token at the given times. */
  function After(b: Bucket, ts: seq<int>): Bucket
    decreases ts
  {
    if ts == [] then b else After(b.Consume(1.0, ts[0]).bucket, ts[1..])
  }

  function Unit(granted: bool): nat {
    if granted then 1 else 0
  }

  /** How many of those attempts are granted. */
  function Grants(b: Bucket, ts: seq<int>): nat
    decreases ts
  {
    if ts == [] then 0
    else Unit(b.Consume(1.0, ts[0]).granted) + Grants(b.Consume(1.0, ts[0]).bucket, ts[1..])
  }

  lemma {:induction false} RunSplits(b: Bucket, ts: seq<int>, us: seq<int>)
    ensures After(b, ts + us) == After(After(b, ts), us)
    ensures Grants(b, ts + us) == Grants(b, ts) + Grants(After(b, ts), us)
    decreases ts
  {
    if ts == [] {
      assert ts + us == us;
    } else {
      assert (ts + us)[1..] == ts[1..] + us;
      RunSplits(b.Consume(1.0, ts[0]).bucket, ts[1..], us);
    }
  }

  /**
    Between attempts a bucket that can ever grant has room for more tokens, because its caller takes
    exactly one token at a time. So the guard of `Update` is always taken and `last` follows every
    attempt. A bucket with capacity below one never grants.
   */
  ghost predicate AtRest(b: Bucket) {
    b.available <= b.capacity && (b.capacity < 1.0 || b.available < b.capacity)
  }

  lemma StepStaysAtRest(b: Bucket, now: int)
    requires AtRest(b)
    ensures var (a, granted) := (b.Consume(1.0, now).bucket, b.Consume(1.0, now).granted);
            && AtRest(a) && a.ratePerSec == b.ratePerSec && a.capacity == b.capacity
            && (b.capacity < 1.0 ==> !granted)
            && (b.capacity >= 1.0 ==> a.last == now)
            && (b.ratePerSec >= 0.0 && b.available >= 0.0 ==> a.available >= 0.0)
            && (b.ratePerSec <= 0.0 && b.available <= 0.0 ==> a.available <= 0.0 && !granted)
  {
    TokensSign(b.ratePerSec, Sub(now, b.last));
    hide Tokens;
    hide Sub;
  }

  lemma {:induction false} StaysAtRest(b: Bucket, ts: seq<int>)
    requires AtRest(b)
    ensures var a := After(b, ts);
            AtRest(a) && a.ratePerSec == b.ratePerSec && a.capacity == b.capacity
    ensures b.capacity < 1.0 ==> Grants(b, ts) == 0
    ensures b.capacity >= 1.0 && ts != [] ==> After(b, ts).last == ts[|ts| - 1]
    ensures b.ratePerSec >= 0.0 && b.available >= 0.0 ==> After(b, ts).available >= 0.0
    ensures b.ratePerSec <= 0.0 && b.available <= 0.0 ==> After(b, ts).available <= 0.0 && Grants(b, ts) == 0
    decreases ts
  {
    hide Tokens;
    if ts != [] {
      StepStaysAtRest(b, ts[0]);
      StaysAtRest(b.Consume(1.0, ts[0]).bucket, ts[1..]);
    }
  }

  // ---------- refill arithmetic ----------

  lemma MulMonotone(r: real, x: real, y: real)
    requires 0.0 <= r && x <= y
    ensures r * x <= r * y
  {
    assert 0.0 <= r * (y - x);
  }

  lemma TokensSign(rate: real, d: int)
    ensures d >= 0 && rate >= 0.0 ==> Tokens(rate, d) >= 0.0
    ensures d >= 0 && rate <= 0.0 ==> Tokens(rate, d) <= 0.0
    ensures Tokens(rate, 0) == 0.0
  {
    if d >= 0 {
      MulMonotone(Seconds(d), if rate >= 0.0 then 0.0 else rate, if rate >= 0.0 then rate else 0.0);
    }
  }

  lemma TokensAdd(rate: real, x: int, y: int)
    ensures Tokens(rate, x + y) == Tokens(rate, x) + Tokens(rate, y)
  {
    assert Seconds(x + y) == Seconds(x) + Seconds(y);
    assert rate * (Seconds(x) + Seconds(y)) == rate * Seconds(x) + rate * Seconds(y);
  }

  lemma TokensMonotone(rate: real, more: real, x: int, y: int)
    requires 0.0 <= rate <= more && 0 <= x <= y
    ensures Tokens(rate, x) <= Tokens(more, y)
  {
    MulMonotone(rate, Seconds(x), Seconds(y));
    MulMonotone(Seconds(y), rate, more);
  }

  /** A refill over a detour brings at least as much as the direct one, and more at a higher rate. */
  lemma RefillLaws(rate: real, more: real, a: int, b: int, c: int)
    requires 0.0 <= rate <= more
    ensures 0.0 <= Refill(rate, a, c) <= Refill(rate, a, b) + Refill(rate, b, c)
    ensures Refill(rate, a, c) <= Refill(more, a, c)
    ensures Refill(rate, a, a) == 0.0
  {
    TokensSign(rate, Forward(a, c));
    TokensSign(rate, 0);
    TokensAdd(rate, Forward(a, b), Forward(b, c));
    TokensMonotone(rate, rate, Forward(a, c), Forward(a, b) + Forward(b, c));
    TokensMonotone(rate, more, Forward(a, c), Forward(a, c));
    hide Tokens;
  }

  lemma UpdateRefills(b: Bucket, now: int)
    requires b.available < b.capacity
    ensures b.Update(now) == b.(last := now, available := MinReal(b.capacity, b.available + Refill(b.ratePerSec, b.last, now)))
  {
    TokensSign(b.ratePerSec, 0);
    hide Tokens;
  }

  // ---------- the same in nanoseconds ----------

  lemma TokensInNanoseconds(rate: real, d: int)
    ensures 1000000000.0 * Tokens(rate, d) == rate * d as real
  {
    assert 1000000000.0 * Seconds(d) == d as real;
    assert 1000000000.0 * (rate * Seconds(d)) == rate * (1000000000.0 * Seconds(d));
  }

  /**
    A bucket that has room gains its rate per second times the nanoseconds passed, over 10^9, unless it is
    filled first. It gains nothing when the clock stands still or steps back, and a difference that does
    not fit in 64 bits counts as the largest one that does. A full bucket does not change.
   */
  lemma UpdateInNanoseconds(b: Bucket, now: int)
    ensures b.available >= b.capacity ==> b.Update(now) == b
    ensures b.available < b.capacity ==>
              var u := b.Update(now);
              var passed := if now - b.last > 9223372036854775807 then 9223372036854775807 else if now <= b.last then 0 else now - b.last;
              && u.last == now && u.ratePerSec == b.ratePerSec && u.capacity == b.capacity && u.available <= b.capacity
              && (|| 1000000000.0 * (u.available - b.available) == b.ratePerSec * passed as real
                  || (u.available == b.capacity && 1000000000.0 * (b.capacity - b.available) <= b.ratePerSec * passed as real))
  {
    if b.available < b.capacity {
      UpdateRefills(b, now);
      TokensInNanoseconds(b.ratePerSec, Forward(b.last, now));
      hide Tokens;
    }
  }

  // ---------- the windowed rate bound ----------

  /** The forward clock moves between consecutive attempts, added up. */
  function ForwardMoves(ts: seq<int>): nat {
    if |ts| <= 1 then 0 else Forward(ts[0], ts[1]) + ForwardMoves(ts[1..])
  }

  /** What a bucket at rest can still pay for is what it holds and what the clock brings. */
  lemma {:induction false} TokensPayForGrants(b: Bucket, ts: seq<int>)
    requires AtRest(b) && b.capacity >= 1.0 && b.ratePerSec >= 0.0
    ensures Grants(b, ts) as real + After(b, ts).available
         <= b.available + Tokens(b.ratePerSec, ForwardMoves([b.last] + ts))
    decreases ts
  {
    hide Tokens;
    TokensSign(b.ratePerSec, 0);
    if ts != [] {
      var next := b.Consume(1.0, ts[0]).bucket;
      StepStaysAtRest(b, ts[0]);
      UpdateRefills(b, ts[0]);
      TokensPayForGrants(next, ts[1..]);
      assert [next.last] + ts[1..] == ts;
      assert ([b.last] + ts)[1..] == ts;
      TokensAdd(b.ratePerSec, Forward(b.last, ts[0]), ForwardMoves(ts));
    }
  }

  lemma WindowFromRest(b: Bucket, ts: seq<int>)
    requires AtRest(b)
    requires if b.ratePerSec >= 0.0 then b.available >= 0.0 else b.available <= 0.0
    ensures Grants(b, ts) as real <= Pos(b.capacity) + Tokens(Pos(b.ratePerSec), ForwardMoves(ts))
  {
    hide Tokens;
    StaysAtRest(b, ts);
    TokensSign(Pos(b.ratePerSec), ForwardMoves(ts));
    if b.capacity >= 1.0 && b.ratePerSec >= 0.0 && ts != [] {
      var next := b.Consume(1.0, ts[0]).bucket;
      StepStaysAtRest(b, ts[0]);
      UpdateRefills(b, ts[0]);
      TokensPayForGrants(next, ts[1..]);
      StaysAtRest(next, ts[1..]);
      assert [next.last] + ts[1..] == ts;
    }
  }

  /**
    Rate limiting, for every history of a settings generation and every window of it: the grants in
    attempts i..j are at most the capacity plus the rate times the forward clock moves inside the
    window. Clock steps backwards are allowed anywhere. Negative settings behave as zero.
   */
  lemma WindowedRateBound(rate: real, cap: real, ts: seq<int>, i: nat, j: nat)
    requires i <= j <= |ts|
    ensures var atI := After(Fresh(rate, cap), ts[..i]);
            Grants(atI, ts[i..j]) as real <= Pos(cap) + Tokens(Pos(rate), ForwardMoves(ts[i..j]))
  {
    hide Tokens;
    var b := Fresh(rate, cap);
    StaysAtRest(b, ts[..i]);
    if cap < 1.0 {
      StaysAtRest(After(b, ts[..i]), ts[i..j]);
      TokensSign(Pos(rate), ForwardMoves(ts[i..j]));
    } else {
      WindowFromRest(After(b, ts[..i]), ts[i..j]);
    }
  }

  /** On a clock that does not step back the forward moves are the time from the first attempt to the last. */
  lemma {:induction false} ForwardMovesAreElapsed(ts: seq<int>)
    requires ts != [] && forall k, l :: 0 <= k <= l < |ts| ==> ts[k] <= ts[l]
    requires ts[|ts| - 1] - ts[0] <= 9223372036854775807
    ensures ForwardMoves(ts) == ts[|ts| - 1] - ts[0]
  {
    if |ts| > 1 {
      assert ts[0] <= ts[1] <= ts[|ts| - 1];
      ForwardMovesAreElapsed(ts[1..]);
    }
  }

  /** So many grants are within the capacity and what the rate per second brings in so many nanoseconds. */
  predicate Within(grants: nat, rate: real, cap: real, nanoseconds: int) {
    var atOnce := if cap <= 0.0 then 0.0 else cap;
    var perSecond := if rate <= 0.0 then 0.0 else rate;
    1000000000.0 * (grants as real - atOnce) <= perSecond * nanoseconds as real
  }

  lemma WithinByTokens(grants: nat, rate: real, cap: real, d: int)
    requires grants as real <= Pos(cap) + Tokens(Pos(rate), d)
    ensures Within(grants, rate, cap, d)
  {
    TokensInNanoseconds(Pos(rate), d);
    hide Tokens;
    assert 1000000000.0 * (grants as real - Pos(cap)) <= 1000000000.0 * Tokens(Pos(rate), d);
  }

  /**
    In any stretch of time a new bucket grants at most its capacity and its rate times the time: the
    forward clock moves, or on a clock that does not step back the time from first to last attempt.
   */
  lemma GrantsInElapsedTime(rate: real, cap: real, ts: seq<int>, i: nat, j: nat)
    requires i < j <= |ts|
    ensures var grants := Grants(After(Fresh(rate, cap), ts[..i]), ts[i..j]);
            && Within(grants, rate, cap, ForwardMoves(ts[i..j]))
            && ((forall k, l :: i <= k <= l < j ==> ts[k] <= ts[l]) && ts[j - 1] - ts[i] <= 9223372036854775807 ==>
                  Within(grants, rate, cap, ts[j - 1] - ts[i]))
  {
    hide Within;
    hide Grants;
    hide After;
    hide Fresh;
    hide Tokens;
    WindowedRateBound(rate, cap, ts, i, j);
    WithinByTokens(Grants(After(Fresh(rate, cap), ts[..i]), ts[i..j]), rate, cap, ForwardMoves(ts[i..j]));
    if (forall k, l :: i <= k <= l < j ==> ts[k] <= ts[l]) && ts[j - 1] - ts[i] <= 9223372036854775807 {
      ForwardMovesAreElapsed(ts[i..j]);
    }
  }

  // ---------- greedy grants are optimal, and stronger buckets dominate ----------

  /** What a scheduler may do at an attempt: not ask at all, ask for a refill only, or ask for a token. */
  datatype Move = Absent | Skip | Try

  function Act(b: Bucket, m: Move, now: int): Outcome {
    match m
    case Absent => Outcome(b, false)
    case Skip => Outcome(b.Update(now), false)
    case Try => b.Consume(1.0, now)
  }

  function ScheduledGrants(b: Bucket, ms: seq<Move>, ts: seq<int>): nat
    requires |ms| == |ts|
    decreases ts
  {
    if ts == [] then 0
    else Unit(Act(b, ms[0], ts[0]).granted) + ScheduledGrants(Act(b, ms[0], ts[0]).bucket, ms[1..], ts[1..])
  }

  ghost predicate Dominates(strong: Bucket, weak: Bucket) {
    0.0 <= weak.ratePerSec <= strong.ratePerSec && weak.capacity <= strong.capacity
  }

  /**
    What the scheduled bucket is worth at time `prev`. While it is full its `last` goes stale, so the
    first token taken from it can be paid back once, later, out of time already passed.
   */
  function Worth(w: Bucket, prev: int): real {
    var pending := Refill(w.ratePerSec, w.last, prev);
    if w.available < w.capacity then MinReal(w.capacity, w.available + pending)
    else w.capacity + MinReal(1.0, pending)
  }

  /** The greedy bucket `s` is `lead` grants ahead, and its tokens plus its lead cover what `w` is worth. */
  ghost predicate Covers(s: Bucket, w: Bucket, lead: int, prev: int) {
    && Dominates(s, w) && w.capacity >= 1.0 && w.available <= w.capacity
    && AtRest(s) && s.last == prev
    && lead >= 0 && (w.available == w.capacity ==> lead >= 1)
    && Worth(w, prev) <= s.available + lead as real
  }

  lemma CoversStep(s: Bucket, w: Bucket, lead: int, prev: int, m: Move, now: int)
    requires Covers(s, w, lead, prev)
    ensures var o := Act(w, m, now);
            Covers(s.Consume(1.0, now).bucket, o.bucket, lead + Unit(s.Consume(1.0, now).granted) - Unit(o.granted), now)
  {
    hide Tokens;
    hide Forward;
    StepStaysAtRest(s, now);
    UpdateRefills(s, now);
    RefillLaws(w.ratePerSec, s.ratePerSec, w.last, prev, now);
    RefillLaws(w.ratePerSec, s.ratePerSec, prev, prev, now);
    RefillLaws(w.ratePerSec, s.ratePerSec, now, now, now);
    if w.available < w.capacity {
      UpdateRefills(w, now);
    }
  }

  lemma {:induction false} CoversRun(s: Bucket, w: Bucket, lead: int, prev: int, ms: seq<Move>, ts: seq<int>)
    requires Covers(s, w, lead, prev) && |ms| == |ts|
    ensures ScheduledGrants(w, ms, ts) <= lead + Grants(s, ts)
    decreases ts
  {
    hide Worth;
    hide Bucket.Update;
    if ts != [] {
      CoversStep(s, w, lead, prev, ms[0], ts[0]);
      CoversRun(s.Consume(1.0, ts[0]).bucket, Act(w, ms[0], ts[0]).bucket,
                lead + Unit(s.Consume(1.0, ts[0]).granted) - Unit(Act(w, ms[0], ts[0]).granted), ts[0], ms[1..], ts[1..]);
    }
  }

  lemma {:induction false} TooSmallNeverGrants(b: Bucket, ms: seq<Move>, ts: seq<int>)
    requires b.capacity < 1.0 && b.available <= b.capacity && |ms| == |ts|
    ensures ScheduledGrants(b, ms, ts) == 0
    decreases ts
  {
    hide Tokens;
    if ts != [] {
      TooSmallNeverGrants(Act(b, ms[0], ts[0]).bucket, ms[1..], ts[1..]);
    }
  }

  /**
    No schedule beats taking a token whenever there is one. The schedule may stay away from any attempt
    or ask for a refill without taking a token, and it may run on a bucket that is no stronger: rate,
    capacity and tokens at most as large. It never has more grants than the greedy bucket has on all
    the attempts, whatever the clock does. Since `ts` is arbitrary this holds after every attempt.
   */
  lemma {:induction false} NoScheduleBeatsGreedy(strong: Bucket, weak: Bucket, ms: seq<Move>, ts: seq<int>)
    requires Dominates(strong, weak) && AtRest(strong) && AtRest(weak) && |ms| == |ts|
    requires weak.available <= strong.available && weak.last == strong.last
    ensures ScheduledGrants(weak, ms, ts) <= Grants(strong, ts)
  {
    if weak.capacity < 1.0 {
      TooSmallNeverGrants(weak, ms, ts);
    } else {
      RefillLaws(weak.ratePerSec, strong.ratePerSec, weak.last, weak.last, weak.last);
      CoversRun(strong, weak, 0, strong.last, ms, ts);
    }
  }

  lemma {:induction false} TryingAlwaysIsGreedy(b: Bucket, ts: seq<int>)
    ensures ScheduledGrants(b, seq(|ts|, _ => Try), ts) == Grants(b, ts)
    decreases ts
  {
    hide Bucket.Update;
    if ts != [] {
      assert seq(|ts|, _ => Try)[1..] == seq(|ts[1..]|, _ => Try);
      TryingAlwaysIsGreedy(b.Consume(1.0, ts[0]).bucket, ts[1..]);
    }
  }

  /** On the same attempts a generation with a larger rate and capacity has granted at least as much by every attempt. */
  lemma LargerSettingsDominate(rate: real, cap: real, moreRate: real, moreCap: real, ts: seq<int>)
    requires 0.0 <= rate <= moreRate && cap <= moreCap
    ensures forall k :: 0 <= k <= |ts| ==> Grants(Fresh(rate, cap), ts[..k]) <= Grants(Fresh(moreRate, moreCap), ts[..k])
  {
    forall k | 0 <= k <= |ts|
      ensures Grants(Fresh(rate, cap), ts[..k]) <= Grants(Fresh(moreRate, moreCap), ts[..k])
    {
      TryingAlwaysIsGreedy(Fresh(rate, cap), ts[..k]);
      NoScheduleBeatsGreedy(Fresh(moreRate, moreCap), Fresh(rate, cap), seq(|ts[..k]|, _ => Try), ts[..k]);
    }
  }

  // ---------- leaving attempts out ----------

  /** The attempts that a mask keeps. */
  function Keep(ts: seq<int>, mask: seq<bool>): seq<int>
    requires |mask| == |ts|
  {
    if ts == [] then []
    else (if mask[0] then [ts[0]] else []) + Keep(ts[1..], mask[1..])
  }

  function MovesOf(mask: seq<bool>): seq<Move> {
    if mask == [] then [] else [if mask[0] then Try else Absent] + MovesOf(mask[1..])
  }

  lemma {:induction false} MovesOfLength(mask: seq<bool>)
    ensures |MovesOf(mask)| == |mask|
  {
    if mask != [] {
      MovesOfLength(mask[1..]);
    }
  }

  lemma {:induction false} KeepingIsScheduling(b: Bucket, ts: seq<int>, mask: seq<bool>)
    requires |mask| == |ts|
    ensures |MovesOf(mask)| == |ts| && Grants(b, Keep(ts, mask)) == ScheduledGrants(b, MovesOf(mask), ts)
    decreases ts
  {
    hide Bucket.Update;
    MovesOfLength(mask);
    if ts != [] {
      var o := Act(b, MovesOf(mask)[0], ts[0]);
      KeepingIsScheduling(o.bucket, ts[1..], mask[1..]);
      if mask[0] {
        assert Keep(ts, mask)[1..] == Keep(ts[1..], mask[1..]);
      } else {
        assert Keep(ts, mask) == Keep(ts[1..], mask[1..]);
      }
    }
  }

  /** Extra attempts never cost grants in total. */
  lemma {:induction false} MoreAttemptsGrantNoFewer(b: Bucket, ts: seq<int>, mask: seq<bool>)
    requires AtRest(b) && b.ratePerSec >= 0.0 && |mask| == |ts|
    ensures Grants(b, Keep(ts, mask)) <= Grants(b, ts)
  {
    KeepingIsScheduling(b, ts, mask);
    NoScheduleBeatsGreedy(b, b, MovesOf(mask), ts);
  }

  /** The granted attempts of a run in order, each with its time and the tokens left after it. */
  function GrantLog(b: Bucket, ts: seq<int>): seq<(int, real)>
    decreases ts
  {
    if ts == [] then []
    else
      var o := b.Consume(1.0, ts[0]);
      (if o.granted then [(ts[0], o.bucket.available)] else []) + GrantLog(o.bucket, ts[1..])
  }

  /** The mask keeps every attempt that is granted. */
  ghost predicate KeepsGrants(b: Bucket, ts: seq<int>, mask: seq<bool>)
    requires |mask| == |ts|
    decreases ts
  {
    ts != [] ==>
      var o := b.Consume(1.0, ts[0]);
      (o.granted ==> mask[0]) && KeepsGrants(o.bucket, ts[1..], mask[1..])
  }

  /** The clock never steps back from `from` and the whole run fits in a Duration. */
  ghost predicate Forwards(from: int, ts: seq<int>) {
    && (forall k :: 0 <= k < |ts| ==> from <= ts[k] <= from + MAX_DURATION)
    && (forall k, l :: 0 <= k <= l < |ts| ==> ts[k] <= ts[l])
  }

  /** `b` is `c` after refused attempts that `c` never saw: only the time of the last refill differs. */
  ghost predicate CaughtUp(b: Bucket, c: Bucket) {
    && AtRest(b) && AtRest(c) && b.capacity == c.capacity >= 1.0 && b.ratePerSec == c.ratePerSec >= 0.0
    && c.last <= b.last && b.available == c.available + Refill(c.ratePerSec, c.last, b.last)
  }

  lemma CaughtUpUpdatesAlike(b: Bucket, c: Bucket, now: int)
    requires CaughtUp(b, c) && b.last <= now <= c.last + MAX_DURATION
    ensures b.Update(now) == c.Update(now)
  {
    UpdateRefills(b, now);
    UpdateRefills(c, now);
    TokensAdd(b.ratePerSec, b.last - c.last, now - b.last);
    hide Tokens;
  }

  lemma RefusalKeepsCaughtUp(b: Bucket, c: Bucket, now: int)
    requires CaughtUp(b, c) && b.last <= now <= c.last + MAX_DURATION
    requires !b.Consume(1.0, now).granted
    ensures CaughtUp(b.Consume(1.0, now).bucket, c)
  {
    CaughtUpUpdatesAlike(b, c, now);
    StepStaysAtRest(b, now);
    UpdateRefills(c, now);
    hide Tokens;
  }

  lemma CaughtUpReflexive(b: Bucket)
    requires AtRest(b) && b.capacity >= 1.0 && b.ratePerSec >= 0.0
    ensures CaughtUp(b, b)
  {
    RefillLaws(b.ratePerSec, b.ratePerSec, b.last, b.last, b.last);
  }

  lemma {:induction false} SkippingRefusals(b: Bucket, c: Bucket, from: int, ts: seq<int>, mask: seq<bool>)
    requires CaughtUp(b, c) && |mask| == |ts| && KeepsGrants(b, ts, mask)
    requires from <= c.last && b.last <= from + MAX_DURATION && Forwards(from, ts)
    requires ts != [] ==> b.last <= ts[0]
    ensures GrantLog(c, Keep(ts, mask)) == GrantLog(b, ts)
    decreases ts
  {
    hide Tokens;
    if ts != [] {
      CaughtUpUpdatesAlike(b, c, ts[0]);
      StepStaysAtRest(b, ts[0]);
      var next := b.Consume(1.0, ts[0]).bucket;
      CaughtUpReflexive(next);
      if mask[0] {
        SkippingRefusals(next, next, from, ts[1..], mask[1..]);
        assert Keep(ts, mask)[1..] == Keep(ts[1..], mask[1..]);
      } else {
        RefusalKeepsCaughtUp(b, c, ts[0]);
        SkippingRefusals(next, c, from, ts[1..], mask[1..]);
        assert Keep(ts, mask) == Keep(ts[1..], mask[1..]);
      }
    }
  }

  lemma {:induction false} LogCountsGrants(b: Bucket, ts: seq<int>)
    ensures |GrantLog(b, ts)| == Grants(b, ts)
    decreases ts
  {
    hide Bucket.Update;
    if ts != [] {
      LogCountsGrants(b.Consume(1.0, ts[0]).bucket, ts[1..]);
    }
  }

  /**
    Refused attempts leave no trace. From any bucket at rest, on a clock that does not step back, leaving
    out any choice of refused attempts changes neither which attempts are granted nor the tokens left
    after each grant.
   */
  lemma {:induction false} RefusedAttemptsAreInvisible(b: Bucket, ts: seq<int>, mask: seq<bool>)
    requires AtRest(b) && b.ratePerSec >= 0.0 && Forwards(b.last, ts)
    requires |mask| == |ts| && KeepsGrants(b, ts, mask)
    ensures GrantLog(b, Keep(ts, mask)) == GrantLog(b, ts)
  {
    if b.capacity < 1.0 {
      StaysAtRest(b, ts);
      StaysAtRest(b, Keep(ts, mask));
      LogCountsGrants(b, ts);
      LogCountsGrants(b, Keep(ts, mask));
    } else {
      CaughtUpReflexive(b);
      SkippingRefusals(b, b, b.last, ts, mask);
    }
  }

  /** Which attempts are granted. */
  function GrantMask(b: Bucket, ts: seq<int>): seq<bool>
    decreases ts
  {
    if ts == [] then [] else [b.Consume(1.0, ts[0]).granted] + GrantMask(b.Consume(1.0, ts[0]).bucket, ts[1..])
  }

  lemma {:induction false} GrantMaskKeepsGrants(b: Bucket, ts: seq<int>)
    ensures |GrantMask(b, ts)| == |ts| && KeepsGrants(b, ts, GrantMask(b, ts))
    ensures |Keep(ts, GrantMask(b, ts))| == Grants(b, ts)
    decreases ts
  {
    hide Bucket.Update;
    if ts != [] {
      GrantMaskKeepsGrants(b.Consume(1.0, ts[0]).bucket, ts[1..]);
    }
  }

  /** In particular the granted attempts alone are all granted again. */
  lemma GrantedAttemptsAloneAreAllGranted(b: Bucket, ts: seq<int>)
    requires AtRest(b) && b.ratePerSec >= 0.0 && Forwards(b.last, ts)
    ensures |GrantMask(b, ts)| == |ts|
    ensures var granted := Keep(ts, GrantMask(b, ts));
            Grants(b, granted) == |granted| == Grants(b, ts)
  {
    GrantMaskKeepsGrants(b, ts);
    RefusedAttemptsAreInvisible(b, ts, GrantMask(b, ts));
    LogCountsGrants(b, ts);
    LogCountsGrants(b, Keep(ts, GrantMask(b, ts)));
  }
}
