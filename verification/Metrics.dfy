/**
  The request counters of internal/metrics/rate_counts.go.

  The class is what one caller sees. The step system below it interleaves increments with flushes that
  swap one counter at a time, as concurrent callers do.
 */
module Metrics {

  datatype Counters = Counters(requested: int, sampled: int, limited: int, traced: int, through: int, ttraced: int) {
    function Plus(c: Counters): Counters {
      Counters(requested + c.requested, sampled + c.sampled, limited + c.limited,
               traced + c.traced, through + c.through, ttraced + c.ttraced)
    }
  }

  const NO_COUNTS := Counters(0, 0, 0, 0, 0, 0)

  class RateCounts {
    var requested: int
    var sampled: int
    var limited: int
    var traced: int
    var through: int
    var ttraced: int

    ghost function View(): Counters
      reads this
    {
      Counters(requested, sampled, limited, traced, through, ttraced)
    }

    constructor ()
      ensures View() == NO_COUNTS
    {
      requested, sampled, limited, traced, through, ttraced := 0, 0, 0, 0, 0, 0;
    }

    /** What is reported is exactly what is taken away. */
    method FlushRateCounts() returns (flushed: Counters)
      modifies this
      ensures flushed == old(View()) && View() == NO_COUNTS
    {
      var r, s, l := requested, sampled, limited;
      requested, sampled, limited := 0, 0, 0;
      var tr, th, tt := traced, through, ttraced;
      traced, through, ttraced := 0, 0, 0;
      flushed := Counters(r, s, l, tr, th, tt);
    }
  }

  // ---------- interleaved increments and flushes ----------

  // The counters are numbered in the order in which a flush swaps them.
  const COUNTERS: nat := 6
  const REQUESTED: nat := 0
  const TRACED: nat := 3

  type Index = i: nat | i < COUNTERS

  /** The live counters, and the values each flush has swapped out so far; a flush with all six is a snapshot. */
  datatype System = System(live: seq<nat>, flushes: seq<seq<nat>>)

  datatype Step =
    | Inc(counter: Index)
    | Begin
    | Swap(flush: nat)

  const START := System([0, 0, 0, 0, 0, 0], [])

  ghost predicate WellFormed(s: System) {
    |s.live| == COUNTERS && forall f :: f in s.flushes ==> |f| <= COUNTERS
  }

  /** One atomic step; a step that is not possible changes nothing. */
  function Next(s: System, step: Step): (t: System)
    requires WellFormed(s)
    ensures WellFormed(t)
  {
    match step
    case Inc(c) => s.(live := s.live[c := s.live[c] + 1])
    case Begin => s.(flushes := s.flushes + [[]])
    case Swap(i) =>
      if i < |s.flushes| && |s.flushes[i]| < COUNTERS then
        var c := |s.flushes[i]|;
        System(s.live[c := 0], s.flushes[i := s.flushes[i] + [s.live[c]]])
      else s
  }

  function Run(s: System, steps: seq<Step>): (t: System)
    requires WellFormed(s)
    ensures WellFormed(t)
    decreases steps
  {
    if steps == [] then s else Run(Next(s, steps[0]), steps[1..])
  }

  /** How often a history increments a counter. */
  function Increments(steps: seq<Step>, c: Index): nat {
    if steps == [] then 0
    else (if steps[0] == Inc(c) then 1 else 0) + Increments(steps[1..], c)
  }

  // ---------- conservation ----------

  /** The total of counter `c` over flushes, finished or not. */
  function Total(fs: seq<seq<nat>>, c: Index): nat {
    if fs == [] then 0 else (if c < |fs[0]| then fs[0][c] else 0) + Total(fs[1..], c)
  }

  lemma {:induction false} TotalSplits(fs: seq<seq<nat>>, gs: seq<seq<nat>>, c: Index)
    ensures Total(fs + gs, c) == Total(fs, c) + Total(gs, c)
  {
    if fs == [] {
      assert fs + gs == gs;
    } else {
      assert (fs + gs)[1..] == fs[1..] + gs;
      TotalSplits(fs[1..], gs, c);
    }
  }

  lemma TotalAround(fs: seq<seq<nat>>, i: nat, f: seq<nat>, c: Index)
    requires i < |fs|
    ensures Total(fs[i := f], c) + Total([fs[i]], c) == Total(fs, c) + Total([f], c)
  {
    assert fs == fs[..i] + ([fs[i]] + fs[i + 1..]);
    assert fs[i := f] == fs[..i] + ([f] + fs[i + 1..]);
    TotalSplits(fs[..i], [fs[i]] + fs[i + 1..], c);
    TotalSplits(fs[..i], [f] + fs[i + 1..], c);
    TotalSplits([fs[i]], fs[i + 1..], c);
    TotalSplits([f], fs[i + 1..], c);
  }

  function Held(s: System, c: Index): nat
    requires WellFormed(s)
  {
    s.live[c] + Total(s.flushes, c)
  }

  lemma StepConserves(s: System, step: Step, c: Index)
    requires WellFormed(s)
    ensures Held(Next(s, step), c) == Held(s, c) + (if step == Inc(c) then 1 else 0)
  {
    match step
    case Inc(_) =>
    case Begin => TotalSplits(s.flushes, [[]], c);
    case Swap(i) =>
      if i < |s.flushes| && |s.flushes[i]| < COUNTERS {
        TotalAround(s.flushes, i, s.flushes[i] + [s.live[|s.flushes[i]|]], c);
      }
  }

  lemma {:induction false} RunConserves(s: System, steps: seq<Step>, c: Index)
    requires WellFormed(s)
    ensures Held(Run(s, steps), c) == Held(s, c) + Increments(steps, c)
    decreases steps
  {
    if steps != [] {
      StepConserves(s, steps[0], c);
      RunConserves(Next(s, steps[0]), steps[1..], c);
    }
  }

  /**
    However increments and any number of counter-by-counter flushes interleave, each counter loses
    nothing: what the flushes have taken and what is still live add up to the increments made.
   */
  lemma FlushesConserve(steps: seq<Step>, c: Index)
    ensures var s := Run(START, steps);
            Total(s.flushes, c) + s.live[c] == Increments(steps, c)
  {
    RunConserves(START, steps, c);
  }

  // ---------- what one flush takes ----------

  /** In step `k` some flush swaps out counter `c`. */
  ghost predicate SwapsAt(steps: seq<Step>, k: int, c: Index) {
    && 0 <= k < |steps| && steps[k].Swap?
    && var s, i := Run(START, steps[..k]), steps[k].flush;
    && i < |s.flushes| && |s.flushes[i]| == c
  }

  /** From step `from` on no flush swaps out counter `c`, and just before it one did, or the history starts there. */
  ghost predicate LastSwapBefore(steps: seq<Step>, from: nat, c: Index) {
    && from <= |steps|
    && (from == 0 || SwapsAt(steps, from - 1, c))
    && forall k :: from <= k < |steps| ==> !SwapsAt(steps, k, c)
  }

  /** Flush `i` swaps out counter `c` at step `to`, and `from` follows the previous swap of it by any flush. */
  ghost predicate Window(steps: seq<Step>, i: nat, c: Index, from: nat, to: nat) {
    SwapsAt(steps, to, c) && steps[to] == Swap(i) && LastSwapBefore(steps[..to], from, c)
  }

  lemma SwapsInPrefix(steps: seq<Step>, n: nat, k: nat, c: Index)
    requires k < n <= |steps|
    ensures SwapsAt(steps[..n], k, c) <==> SwapsAt(steps, k, c)
  {
    assert steps[..n][..k] == steps[..k];
  }

  lemma {:induction false} RunConcat(s: System, a: seq<Step>, b: seq<Step>)
    requires WellFormed(s)
    ensures Run(s, a + b) == Run(Run(s, a), b)
    decreases a
  {
    if a == [] {
      assert a + b == b;
    } else {
      assert (a + b)[1..] == a[1..] + b;
      RunConcat(Next(s, a[0]), a[1..], b);
    }
  }

  lemma RunOne(s: System, step: Step)
    requires WellFormed(s)
    ensures Run(s, [step]) == Next(s, step)
  {
    hide Next;
    assert [step][1..] == [];
  }

  lemma RunLast(s: System, front: seq<Step>, last: Step)
    requires WellFormed(s)
    ensures Run(s, front + [last]) == Next(Run(s, front), last)
  {
    hide Next;
    hide Run;
    RunConcat(s, front, [last]);
    RunOne(Run(s, front), last);
  }

  lemma {:induction false} IncrementsConcat(a: seq<Step>, b: seq<Step>, c: Index)
    ensures Increments(a + b, c) == Increments(a, c) + Increments(b, c)
  {
    if a == [] {
      assert a + b == b;
    } else {
      assert (a + b)[1..] == a[1..] + b;
      IncrementsConcat(a[1..], b, c);
    }
  }

  lemma IncrementsSplit(steps: seq<Step>, from: nat, mid: nat, to: nat, c: Index)
    requires from <= mid <= to <= |steps|
    ensures Increments(steps[from..to], c) == Increments(steps[from..mid], c) + Increments(steps[mid..to], c)
  {
    assert steps[from..to] == steps[from..mid] + steps[mid..to];
    IncrementsConcat(steps[from..mid], steps[mid..to], c);
  }

  lemma LastSwapInPrefix(steps: seq<Step>, n: nat, from: nat, c: Index)
    requires LastSwapBefore(steps, from, c) && from <= n <= |steps|
    ensures LastSwapBefore(steps[..n], from, c)
  {
    hide SwapsAt;
    forall k | from - 1 <= k < n && 0 <= k
      ensures SwapsAt(steps[..n], k, c) <==> SwapsAt(steps, k, c)
    {
      SwapsInPrefix(steps, n, k, c);
    }
  }

  /** A step swaps the counter out, or adds one to it, or leaves it alone. */
  lemma LiveStep(s: System, step: Step, c: Index)
    requires WellFormed(s)
    ensures Next(s, step).live[c] ==
              if step.Swap? && step.flush < |s.flushes| && |s.flushes[step.flush]| == c then 0
              else s.live[c] + (if step == Inc(c) then 1 else 0)
  {
  }

  lemma LiveAfterStep(steps: seq<Step>, n: nat, c: Index)
    requires 0 < n <= |steps|
    ensures Run(START, steps[..n]).live[c] ==
              if SwapsAt(steps[..n], n - 1, c) then 0
              else Run(START, steps[..n - 1]).live[c] + Increments(steps[n - 1..n], c)
  {
    var front, last := steps[..n - 1], steps[n - 1];
    assert steps[..n] == front + [last] && steps[..n][..n - 1] == front && steps[n - 1..n] == [last];
    RunLast(START, front, last);
    hide Run;
    LiveStep(Run(START, front), last, c);
    IncrementsOne(last, c);
    hide Next;
    hide Increments;
  }

  lemma LastSwapOneStepBack(steps: seq<Step>, n: nat, from: nat, c: Index)
    requires 0 < n <= |steps| && LastSwapBefore(steps[..n], from, c)
    ensures from <= n
    ensures from == n <==> SwapsAt(steps[..n], n - 1, c)
    ensures from < n ==> LastSwapBefore(steps[..n - 1], from, c)
  {
    hide SwapsAt;
    if from < n {
      LastSwapInPrefix(steps[..n], n - 1, from, c);
      assert steps[..n][..n - 1] == steps[..n - 1];
    }
  }

  /** What is live is what was counted since the last swap. */
  lemma {:induction false} LiveSinceSwap(steps: seq<Step>, n: nat, from: nat, c: Index)
    requires from <= n <= |steps| && LastSwapBefore(steps[..n], from, c)
    ensures Run(START, steps[..n]).live[c] == Increments(steps[from..n], c)
    decreases n
  {
    hide Run;
    hide Increments;
    hide SwapsAt;
    hide LastSwapBefore;
    if n == 0 {
      NothingCounted(steps, n, c);
    } else {
      LiveAfterStep(steps, n, c);
      LastSwapOneStepBack(steps, n, from, c);
      if from == n {
        NothingCounted(steps, n, c);
      } else {
        LiveSinceSwap(steps, n - 1, from, c);
        IncrementsSplit(steps, from, n - 1, n, c);
      }
    }
  }

  lemma NothingCounted(steps: seq<Step>, n: nat, c: Index)
    requires n <= |steps|
    ensures Increments(steps[n..n], c) == 0
    ensures n == 0 ==> Run(START, steps[..n]).live[c] == 0
  {
  }

  lemma IncrementsOne(step: Step, c: Index)
    ensures Increments([step], c) == if step == Inc(c) then 1 else 0
  {
    assert Increments([step][1..], c) == 0;
  }

  lemma {:induction false} TakenStays(s: System, steps: seq<Step>, i: nat, c: Index)
    requires WellFormed(s) && i < |s.flushes| && c < |s.flushes[i]|
    ensures var fs := Run(s, steps).flushes;
            i < |fs| && c < |fs[i]| && fs[i][c] == s.flushes[i][c]
    decreases steps
  {
    if steps != [] {
      TakenStays(Next(s, steps[0]), steps[1..], i, c);
    }
  }

  /**
    In any interleaving of increments with any number of flushes, the value that a flush takes for a
    counter is what was counted since the previous swap of that counter by any flush.
   */
  lemma FlushTakesWindow(steps: seq<Step>, i: nat, c: Index, from: nat, to: nat)
    requires Window(steps, i, c, from, to)
    ensures var fs := Run(START, steps).flushes;
            i < |fs| && c < |fs[i]| && fs[i][c] == Increments(steps[from..to], c)
  {
    LiveSinceSwap(steps, to, from, c);
    assert steps == (steps[..to] + [steps[to]]) + steps[to + 1..];
    RunLast(START, steps[..to], steps[to]);
    RunConcat(START, steps[..to] + [steps[to]], steps[to + 1..]);
    TakenStays(Run(START, steps[..to] + [steps[to]]), steps[to + 1..], i, c);
  }

  lemma {:induction false} FindLastSwap(steps: seq<Step>, c: Index) returns (from: nat)
    ensures LastSwapBefore(steps, from, c)
    decreases steps
  {
    hide SwapsAt;
    var n := |steps| - 1;
    if steps == [] {
      from := 0;
    } else if SwapsAt(steps, n, c) {
      from := |steps|;
    } else {
      from := FindLastSwap(steps[..n], c);
      forall k | from - 1 <= k < n && 0 <= k
        ensures SwapsAt(steps[..n], k, c) <==> SwapsAt(steps, k, c)
      {
        SwapsInPrefix(steps, n, k, c);
      }
    }
  }

  /** Every value of every flush has its window. */
  lemma {:induction false} FindWindow(steps: seq<Step>, n: nat, i: nat, c: Index) returns (from: nat, to: nat)
    requires n <= |steps| && i < |Run(START, steps[..n]).flushes| && c < |Run(START, steps[..n]).flushes[i]|
    ensures to < n && Window(steps, i, c, from, to)
    decreases n
  {
    if n == 0 {
      assert false;
    } else {
      var front := steps[..n - 1];
      assert steps[..n] == front + [steps[n - 1]];
      RunLast(START, front, steps[n - 1]);
      var fs := Run(START, front).flushes;
      if i < |fs| && c < |fs[i]| {
        from, to := FindWindow(steps, n - 1, i, c);
      } else {
        to := n - 1;
        from := FindLastSwap(front, c);
      }
    }
  }

  // ---------- when a snapshot is consistent ----------

  /** What flushes have reported up to swaps of the two counters at `r` and `t`: requested minus traced. */
  function Ahead(steps: seq<Step>, r: nat, t: nat): int
    requires r <= |steps| && t <= |steps|
  {
    Increments(steps[..r], REQUESTED) - Increments(steps[..t], TRACED)
  }

  /**
    Exactly when a flush reports no more traced than requested: when no more was traced between the two
    swaps of traced than was requested between the two swaps of requested; that is, when the previous
    swaps left requested no further ahead of traced than these do.
   */
  lemma SnapshotConsistentIff(steps: seq<Step>, i: nat, fromR: nat, r: nat, fromT: nat, t: nat)
    requires Window(steps, i, REQUESTED, fromR, r) && Window(steps, i, TRACED, fromT, t)
    ensures var fs := Run(START, steps).flushes;
            && i < |fs| && TRACED < |fs[i]|
            && (fs[i][TRACED] <= fs[i][REQUESTED] <==>
                  Increments(steps[fromT..t], TRACED) <= Increments(steps[fromR..r], REQUESTED))
            && (fs[i][TRACED] <= fs[i][REQUESTED] <==> Ahead(steps, fromR, fromT) <= Ahead(steps, r, t))
  {
    FlushTakesWindow(steps, i, REQUESTED, fromR, r);
    FlushTakesWindow(steps, i, TRACED, fromT, t);
    IncrementsSplit(steps, 0, fromR, r, REQUESTED);
    IncrementsSplit(steps, 0, fromT, t, TRACED);
    hide Window;
    hide Run;
    hide Increments;
  }

  /**
    Every trace counted belongs to a request counted before it. Count increments in this order, so this
    holds from any moment at which no request is between its two increments, such as the start.
   */
  ghost predicate Ordered(steps: seq<Step>) {
    forall n :: 0 <= n <= |steps| ==> Increments(steps[..n], TRACED) <= Increments(steps[..n], REQUESTED)
  }

  /**
    A snapshot is consistent if no request is counted as traced between its two swaps and none was
    between its two increments when the previous flush swapped traced. For a first flush the second
    condition always holds.
   */
  lemma QuietFlushIsConsistent(steps: seq<Step>, i: nat, fromR: nat, r: nat, fromT: nat, t: nat)
    requires Window(steps, i, REQUESTED, fromR, r) && Window(steps, i, TRACED, fromT, t)
    requires fromR <= fromT <= r <= t
    requires Ordered(steps[fromT..]) && Increments(steps[r..t], TRACED) == 0
    ensures var fs := Run(START, steps).flushes;
            i < |fs| && TRACED < |fs[i]| && fs[i][TRACED] <= fs[i][REQUESTED]
  {
    SnapshotConsistentIff(steps, i, fromR, r, fromT, t);
    hide Window;
    hide Run;
    hide Increments;
    assert steps[fromT..][..r - fromT] == steps[fromT..r];
    IncrementsSplit(steps, fromT, r, t, TRACED);
    IncrementsSplit(steps, fromR, fromT, r, REQUESTED);
  }

  lemma RunCons(s: System, step: Step, rest: seq<Step>)
    requires WellFormed(s)
    ensures Run(s, [step] + rest) == Run(Next(s, step), rest)
  {
    assert ([step] + rest)[1..] == rest;
  }

  /** A flush that runs on undisturbed takes what is live from where it stands. */
  lemma {:induction false} FlushRunsOn(s: System) returns (steps: seq<Step>)
    requires WellFormed(s) && |s.flushes| == 1
    ensures Run(s, steps).flushes == [s.flushes[0] + s.live[|s.flushes[0]|..]]
    ensures forall c: Index :: Increments(steps, c) == 0
    decreases COUNTERS - |s.flushes[0]|
  {
    var f := s.flushes[0];
    if |f| == COUNTERS {
      steps := [];
      assert f + s.live[|f|..] == f;
    } else {
      var t := Next(s, Swap(0));
      assert t.flushes == [f + [s.live[|f|]]];
      var rest := FlushRunsOn(t);
      assert f + s.live[|f|..] == t.flushes[0] + t.live[|t.flushes[0]|..];
      steps := [Swap(0)] + rest;
      RunCons(s, Swap(0), rest);
      assert steps[1..] == rest;
    }
  }

  /** A flush has taken the first counter when a request is counted as requested and as traced. */
  const MID_FLUSH := System([1, 0, 0, 1, 0, 0], [[0]])

  lemma MidFlushState()
    ensures Next(Next(Next(Next(START, Begin), Swap(0)), Inc(REQUESTED)), Inc(TRACED)) == MID_FLUSH
  {
    var s2 := Next(Next(START, Begin), Swap(0));
    assert s2.flushes[0] == [0] && |s2.flushes| == 1;
    assert s2.flushes == [[0]];
    assert s2.live == [0, 0, 0, 0, 0, 0];
  }

  lemma MidFlushRun(late: seq<Step>) returns (steps: seq<Step>)
    ensures Run(START, steps) == Run(MID_FLUSH, late)
    ensures forall c: Index :: Increments(steps, c)
              == (if c == REQUESTED || c == TRACED then 1 else 0) + Increments(late, c)
  {
    var r3 := [Inc(TRACED)] + late;
    var r2 := [Inc(REQUESTED)] + r3;
    var r1 := [Swap(0)] + r2;
    steps := [Begin] + r1;
    MidFlushState();
    RunCons(START, Begin, r1);
    RunCons(Next(START, Begin), Swap(0), r2);
    RunCons(Next(Next(START, Begin), Swap(0)), Inc(REQUESTED), r3);
    RunCons(Next(Next(Next(START, Begin), Swap(0)), Inc(REQUESTED)), Inc(TRACED), late);
    IncrementsCons(Begin, r1);
    IncrementsCons(Swap(0), r2);
    IncrementsCons(Inc(REQUESTED), r3);
    IncrementsCons(Inc(TRACED), late);
    hide Run;
    hide Next;
    hide Increments;
  }

  /**
    The condition can fail: a request counted between two swaps of one flush is reported as traced by
    that flush and as requested only by a later one.
   */
  lemma SnapshotMayTraceMoreThanRequested() returns (steps: seq<Step>)
    ensures Increments(steps, TRACED) == Increments(steps, REQUESTED) == 1
    ensures var fs := Run(START, steps).flushes;
            |fs| == 1 && |fs[0]| == COUNTERS && fs[0][TRACED] == 1 && fs[0][REQUESTED] == 0
  {
    var late := FlushRunsOn(MID_FLUSH);
    steps := MidFlushRun(late);
    assert ([0] + MID_FLUSH.live[1..])[TRACED] == 1;
    hide Run;
    hide Increments;
  }

  lemma IncrementsCons(step: Step, rest: seq<Step>)
    ensures forall c: Index :: Increments([step] + rest, c) == (if step == Inc(c) then 1 else 0) + Increments(rest, c)
  {
    assert ([step] + rest)[1..] == rest;
  }
}
