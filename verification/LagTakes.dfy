/** What a take returns under concurrency: when its maximum and its quantiles can be trusted as long as
    takes are kept apart, and where every recorded sample is at any moment of any interleaving.
 */
module LagTakes {
  import opened Lag
  import opened LagConcurrent
  import opened Optional

  // ---- Records in flight during a take ----

  /** A whole take by one thread. */
  function TakeRun(tid: nat): seq<Event> { [StartDrain(tid)] + SwapAll(tid, BUCKETS) }

  /** An undisturbed take runs to its end and returns the counters and the maximum it found. */
  lemma {:induction false} TakeReturns(s: Sys, tid: nat)
    requires |s.b| == BUCKETS && Enabled(s, StartDrain(tid))
    ensures Runs(s, TakeRun(tid)) && s.nextDrain in After(s, TakeRun(tid)).drained
    ensures After(s, TakeRun(tid)).drained[s.nextDrain] == LagSnap(s.b, s.max)
  {
    hide SwapAll;
    var run, r := TakeRun(tid), Apply(s, StartDrain(tid));
    assert run[0] == StartDrain(tid) && run[1..] == SwapAll(tid, BUCKETS);
    DrainThrough(r, tid, s.b, 0);
  }

  /** A whole record by one thread: the maximum is raised only for a new high. */
  function RecordRun(tid: nat, ms: nat, max: nat): seq<Event> {
    [Add(tid, ms), LoadMax(tid)] + if ms > max then [RaiseMax(tid)] else []
  }

  /** An undisturbed record runs to its end, adds one to the counter of its bucket, modulo 2^32, and leaves the
      larger maximum. */
  lemma {:induction false} RecordReturns(s: Sys, tid: nat, ms: nat)
    requires |s.b| == BUCKETS && Enabled(s, Add(tid, ms))
    ensures Bucket(ms) < |s.b|
    ensures Runs(s, RecordRun(tid, ms, s.max))
    ensures var r := After(s, RecordRun(tid, ms, s.max));
            && r.b == s.b[Bucket(ms) := (s.b[Bucket(ms)] + 1) % 0x1_0000_0000]
            && r.max == (if ms > s.max then ms else s.max)
            && r.threads == s.threads[tid := Idle] && r.log == s.log + [Sample(ms, None)]
            && r.drained == s.drained && r.snaps == s.snaps
  {
    hide Bucket, AddedTo, Hand, Runs, After;
    var run, s1 := RecordRun(tid, ms, s.max), Apply(s, Add(tid, ms));
    var s2 := Apply(s1, LoadMax(tid));
    assert run[0] == Add(tid, ms) && run[1..][0] == LoadMax(tid);
    if ms > s.max {
      assert run[1..][1..][0] == RaiseMax(tid) && run[1..][1..][1..] == [];
      NoEvents(Apply(s2, RaiseMax(tid)));
      OneEvent(s2, run[1..][1..]);
    } else {
      assert run[1..][1..] == [];
      NoEvents(s2);
    }
    OneEvent(s1, run[1..]);
    OneEvent(s, run);
    assert s.threads[tid := Idle] == After(s, run).threads;
  }

  lemma {:induction false} NoEvents(s: Sys)
    requires |s.b| == BUCKETS
    ensures Runs(s, []) && After(s, []) == s
  {
  }

  lemma {:induction false} OneEvent(s: Sys, run: seq<Event>)
    requires |s.b| == BUCKETS && run != [] && Enabled(s, run[0])
    requires |Apply(s, run[0]).b| == BUCKETS && Runs(Apply(s, run[0]), run[1..])
    ensures Runs(s, run) && After(s, run) == After(Apply(s, run[0]), run[1..])
  {
    hide Apply, Enabled;
  }

  function LoadAll(tid: nat, n: nat): seq<Event> {
    if n == 0 then [LoadLast(tid)] else [LoadBucket(tid)] + LoadAll(tid, n - 1)
  }

  /** A whole snapshot by one thread. */
  function SnapRun(tid: nat): seq<Event> { [StartRead(tid)] + LoadAll(tid, BUCKETS) }

  /** An undisturbed snapshot runs to its end, returns the counters and the maximum and changes nothing else. */
  lemma {:induction false} SnapReturns(s: Sys, tid: nat)
    requires |s.b| == BUCKETS && Enabled(s, StartRead(tid))
    ensures Runs(s, SnapRun(tid))
    ensures var r := After(s, SnapRun(tid));
            && r.b == s.b && r.max == s.max && r.log == s.log && r.drained == s.drained
            && |r.snaps| == |s.snaps| + 1 && r.snaps[|s.snaps|].snap == LagSnap(s.b, s.max)
            && r.threads == s.threads[tid := Idle]
  {
    hide LoadAll, AddedTo;
    var run, r := SnapRun(tid), Apply(s, StartRead(tid));
    assert run[0] == StartRead(tid) && run[1..] == LoadAll(tid, BUCKETS);
    LoadThrough(r, tid, 0);
    assert r.threads[tid := Idle] == s.threads[tid := Idle];
  }

  lemma {:induction false} LoadThrough(s: Sys, tid: nat, j: nat)
    requires |s.b| == BUCKETS && j <= BUCKETS
    requires PcOf(s, tid).Reading? && PcOf(s, tid).got == s.b[..j]
    ensures Runs(s, LoadAll(tid, BUCKETS - j))
    ensures var r := After(s, LoadAll(tid, BUCKETS - j));
            && r.b == s.b && r.max == s.max && r.log == s.log && r.drained == s.drained
            && |r.snaps| == |s.snaps| + 1 && r.snaps[|s.snaps|].snap == LagSnap(s.b, s.max)
            && r.threads == s.threads[tid := Idle]
    decreases BUCKETS - j
  {
    hide AddedTo;
    var run := LoadAll(tid, BUCKETS - j);
    if j == BUCKETS {
      assert run == [LoadLast(tid)] && s.b[..j] == s.b;
      assert Runs(Apply(s, run[0]), run[1..]);
    } else {
      var next := Apply(s, LoadBucket(tid));
      assert run[0] == LoadBucket(tid) && run[1..] == LoadAll(tid, BUCKETS - (j + 1));
      assert s.b[..j + 1] == s.b[..j] + [s.b[j]];
      LoadThrough(next, tid, j + 1);
      assert next.threads[tid := Idle] == s.threads[tid := Idle];
    }
  }

  /** No recorder between its two steps holds a sample above the maximum. */
  ghost predicate NoneAhead(s: Sys) {
    forall t :: t in s.threads && (s.threads[t].Added? || s.threads[t].Raising?) ==> s.threads[t].ms <= s.max
  }

  ghost predicate NoneDraining(s: Sys) { forall t :: t in s.threads ==> !s.threads[t].Draining? }

  ghost predicate Covers(m: nat, xs: seq<nat>) { forall x :: x in xs ==> x <= m }

  lemma {:induction false} CoversExactlyWhen(s: Sys)
    requires MaxLags(s)
    ensures Covers(s.max, SamplesOf(s.log, None)) <==> NoneAhead(s)
  {
    hide SamplesOf;
    var all := SamplesOf(s.log, None);
    forall t | t in s.threads && (s.threads[t].Added? || s.threads[t].Raising?)
      ensures s.threads[t].ms in all
    {
    }
  }

  /** With takes kept apart so far, the maximum of a take covers every sample it took if and only if no
      record in flight holds a sample above the current maximum. */
  lemma {:induction false} TakeCoversExactlyWhen(s: Sys, tid: nat)
    requires QuietOk(s) && NoneDraining(s) && Enabled(s, StartDrain(tid))
    ensures Runs(s, TakeRun(tid)) && s.nextDrain in After(s, TakeRun(tid)).drained
    ensures var w := After(s, TakeRun(tid)).drained[s.nextDrain];
            && w == LagSnap(s.b, s.max)
            && (Covers(w.max, SamplesOf(s.log, None)) <==> NoneAhead(s))
  {
    assert MaxLags(s);
    hide QuietOk, MaxLags, SamplesOf, TakeRun;
    QuietShape(s);
    TakeReturns(s, tid);
    CoversExactlyWhen(s);
  }

  lemma {:induction false} QuietShape(s: Sys)
    requires QuietOk(s)
    ensures |s.b| == BUCKETS
  {
  }

  /** The counters of the samples still pending. */
  lemma {:induction false} PendingCounted(s: Sys)
    requires CountersOk(s) && Fits(SamplesOf(s.log, None))
    ensures |s.b| == BUCKETS && forall k :: 0 <= k < BUCKETS ==> s.b[k] == Count(SamplesOf(s.log, None), k)
  {
    hide SamplesOf, HeldBy, Count;
    forall k | 0 <= k < BUCKETS
      ensures s.b[k] == Count(SamplesOf(s.log, None), k)
    {
      SamplesCounted(s.log, None, k);
      assert Count(SamplesOf(s.log, None), k) < W32;
    }
  }

  /** Every report the histogram `b` with maximum `m` can make of `xs` is an upper bound. */
  ghost predicate BoundsAll(xs: seq<nat>, b: seq<nat>, m: nat) {
    forall rank: nat, v: nat, k: nat :: IsRankth(xs, rank, v) && HoldsRank(b, k, rank) ==> v <= Min(Edge(k), m)
  }

  lemma {:induction false} CoveredBounds(xs: seq<nat>, b: seq<nat>, m: nat)
    requires |b| == BUCKETS && forall i :: 0 <= i < BUCKETS ==> b[i] == Count(xs, i)
    requires m < W32 && forall x :: x in xs ==> x <= m
    ensures BoundsAll(xs, b, m)
  {
    hide IsRankth, HoldsRank, Count, Edge, Min;
    forall rank: nat, v: nat, k: nat | IsRankth(xs, rank, v) && HoldsRank(b, k, rank)
      ensures v <= Min(Edge(k), m)
    {
      RankthIsSample(xs, rank, v);
      ReportBounds(xs, b, m, rank, v, k);
    }
  }

  /** The largest sample has the last rank. */
  lemma {:induction false} MaximumIsLast(xs: seq<nat>)
    requires xs != []
    ensures IsRankth(xs, |xs|, Maximum(xs))
  {
    var m := Maximum(xs);
    forall x: nat | x in xs
      ensures AtMost(m)(x)
    {
    }
    AllCounted(xs, AtMost(m));
    assert m in xs;
    OneMissed(xs, Under(m), m);
  }

  lemma {:induction false} AllCounted(xs: seq<nat>, p: nat -> bool)
    requires forall x :: x in xs ==> p(x)
    ensures CountIf(xs, p) == |xs|
  {
    if xs != [] {
      AllCounted(xs[..|xs| - 1], p);
    }
  }

  lemma {:induction false} OneMissed(xs: seq<nat>, p: nat -> bool, x: nat)
    requires x in xs && !p(x)
    ensures CountIf(xs, p) < |xs|
  {
    var n := |xs| - 1;
    if xs[n] != x {
      assert xs == xs[..n] + [xs[n]];
      OneMissed(xs[..n], p, x);
    }
  }

  lemma {:induction false} UncoveredFails(xs: seq<nat>, b: seq<nat>, m: nat)
    requires |b| == BUCKETS && forall i :: 0 <= i < BUCKETS ==> b[i] == Count(xs, i)
    requires BoundsAll(xs, b, m)
    ensures forall x :: x in xs ==> x <= m
  {
    hide IsRankth, HoldsRank, Count, Edge, Maximum;
    if xs != [] {
      MaximumIsLast(xs);
      RankHeld(xs, b, |xs|, Maximum(xs));
      assert Maximum(xs) <= Min(Edge(Bucket(Maximum(xs))), m);
    }
  }

  /** Samples and the maximum have 32 bits. */
  ghost predicate Narrow(s: Sys) {
    && s.max < W32
    && (forall t :: t in s.threads && (s.threads[t].Added? || s.threads[t].Raising?) ==> s.threads[t].ms < W32)
  }

  lemma {:induction false} RunNarrow(s: Sys, run: seq<Event>)
    requires Narrow(s) && |s.b| == BUCKETS && Runs(s, run)
    ensures Narrow(After(s, run))
    decreases |run|
  {
    hide Bucket, Hand, AddedTo;
    if run != [] {
      RunNarrow(Apply(s, run[0]), run[1..]);
    }
  }

  /** And every quantile of that take is an upper bound of its order statistic if and only if no record
      in flight holds a sample above the current maximum. */
  lemma {:induction false} TakeBoundsExactlyWhen(s: Sys, tid: nat)
    requires QuietOk(s) && NoneDraining(s) && Enabled(s, StartDrain(tid)) && Narrow(s)
    requires Fits(SamplesOf(s.log, None))
    ensures Runs(s, TakeRun(tid)) && s.nextDrain in After(s, TakeRun(tid)).drained
    ensures var w := After(s, TakeRun(tid)).drained[s.nextDrain];
            BoundsAll(SamplesOf(s.log, None), w.b, w.max) <==> NoneAhead(s)
  {
    assert CountersOk(s);
    hide QuietOk, CountersOk, SamplesOf, TakeRun, Fits, Count, BoundsAll, NoneAhead;
    TakeCoversExactlyWhen(s, tid);
    PendingCounted(s);
    var xs := SamplesOf(s.log, None);
    if NoneAhead(s) {
      CoveredBounds(xs, s.b, s.max);
    }
    if BoundsAll(xs, s.b, s.max) {
      UncoveredFails(xs, s.b, s.max);
    }
  }

  /** The same for every state a run from nothing reaches with its takes kept apart. */
  lemma {:induction false} ReachedTakeBoundsExactlyWhen(run: seq<Event>, tid: nat)
    requires RunsApart(Fresh(), run) && NoneDraining(QuietEnd(run)) && Enabled(QuietEnd(run), StartDrain(tid))
    requires Fits(SamplesOf(QuietEnd(run).log, None))
    ensures var s := QuietEnd(run);
            && |s.b| == BUCKETS
            && Runs(s, TakeRun(tid)) && s.nextDrain in After(s, TakeRun(tid)).drained
            && var w := After(s, TakeRun(tid)).drained[s.nextDrain];
               (BoundsAll(SamplesOf(s.log, None), w.b, w.max) <==> NoneAhead(s))
  {
    hide QuietOk, BoundsAll, NoneAhead, TakeRun, SamplesOf, Fits;
    QuietShape(QuietEnd(run));
    RunNarrow(Fresh(), run);
    TakeBoundsExactlyWhen(QuietEnd(run), tid);
  }

  // ---- Where every sample is ----

  /** The samples a run records in bucket `k`. */
  function Recorded(run: seq<Event>, k: nat): nat {
    if run == [] then 0
    else (if run[0].Add? && Bucket(run[0].ms) == k then 1 else 0) + Recorded(run[1..], k)
  }

  ghost predicate Drains(s: Sys, t: nat, id: nat) { t in s.threads && s.threads[t].Draining? && s.threads[t].id == id }

  /** What take `id` has of bucket `k`: its result, or what it has swapped out so far. */
  ghost function TakenBy(s: Sys, id: nat, k: nat): nat {
    if id in s.drained then if k < |s.drained[id].b| then s.drained[id].b[k] else 0
    else if t: nat :| Drains(s, t, id) && k < |s.threads[t].got| then s.threads[t].got[k] else 0
  }

  ghost function TakenByAll(s: Sys, n: nat, k: nat): nat {
    if n == 0 then 0 else TakenByAll(s, n - 1, k) + TakenBy(s, n - 1, k)
  }

  /** Every started take is under way or finished, and only started takes hold samples. */
  ghost predicate Tracked(s: Sys) {
    && (forall id: nat :: id < s.nextDrain ==> id in s.drained || exists t: nat :: Drains(s, t, id))
    && (forall i :: 0 <= i < |s.log| && s.log[i].takenBy.Some? ==> s.log[i].takenBy.value < s.nextDrain)
  }

  lemma {:induction false} AddedToHand(log: seq<Sample>, j: nat, id: nat, k: nat)
    ensures AddedTo(Hand(log, j, id), k) == AddedTo(log, k)
  {
    hide Bucket;
    if log != [] {
      var n := |log| - 1;
      AddedToHand(log[..n], j, id, k);
      assert Hand(log, j, id)[..n] == Hand(log[..n], j, id);
    }
  }

  lemma {:induction false} StepRecorded(s: Sys, e: Event, k: nat)
    requires |s.b| == BUCKETS && Enabled(s, e)
    ensures AddedTo(Apply(s, e).log, k) == AddedTo(s.log, k) + if e.Add? && Bucket(e.ms) == k then 1 else 0
  {
    hide Bucket, AddedTo, Hand;
    if e.Add? {
      AddedToSnoc(s.log, Sample(e.ms, None), k);
    } else if e.SwapBucket? {
      var pc := PcOf(s, e.tid);
      AddedToHand(s.log, |pc.got|, pc.id, k);
    }
  }

  lemma {:induction false} RunRecorded(s: Sys, run: seq<Event>, k: nat)
    requires |s.b| == BUCKETS && Runs(s, run)
    ensures AddedTo(After(s, run).log, k) == AddedTo(s.log, k) + Recorded(run, k)
    decreases |run|
  {
    hide AddedTo, Apply, Enabled, Bucket;
    if run != [] {
      StepRecorded(s, run[0], k);
      ApplyShape(s, run[0]);
      RunRecorded(Apply(s, run[0]), run[1..], k);
    }
  }

  lemma {:induction false} ApplyShape(s: Sys, e: Event)
    requires |s.b| == BUCKETS && Enabled(s, e)
    ensures |Apply(s, e).b| == BUCKETS
  {
  }

  /** A take under way stays under way or finishes. */
  lemma {:induction false} StillTracked(s: Sys, e: Event, t: nat, id: nat)
    requires |s.b| == BUCKETS && Enabled(s, e) && Drains(s, t, id)
    ensures Drains(Apply(s, e), t, id) || id in Apply(s, e).drained
  {
    hide Bucket, Hand, AddedTo;
  }

  lemma {:induction false} StepTracked(s: Sys, e: Event)
    requires Tracked(s) && Conserved(s) && Enabled(s, e)
    ensures Tracked(Apply(s, e))
  {
    hide Bucket, AddedTo, HeldBy, Drains;
    var r := Apply(s, e);
    forall id: nat | id < r.nextDrain
      ensures id in r.drained || exists t: nat :: Drains(r, t, id)
    {
      if id < s.nextDrain && id !in s.drained {
        var t: nat :| Drains(s, t, id);
        StillTracked(s, e, t, id);
      } else if id >= s.nextDrain {
        StartedDrains(s, e.tid);
      }
    }
    if e.SwapBucket? {
      assert DrainOk(s, s.threads[e.tid]);
    }
  }

  lemma {:induction false} StartedDrains(s: Sys, tid: nat)
    requires |s.b| == BUCKETS && Enabled(s, StartDrain(tid))
    ensures Drains(Apply(s, StartDrain(tid)), tid, s.nextDrain)
  {
  }

  lemma {:induction false} RunTracked(s: Sys, run: seq<Event>)
    requires Tracked(s) && Conserved(s) && Runs(s, run)
    ensures Tracked(After(s, run))
    decreases |run|
  {
    hide Tracked, Conserved, Apply, Enabled;
    if run != [] {
      Shape(s);
      StepTracked(s, run[0]);
      StepConserves(s, run[0]);
      Shape(Apply(s, run[0]));
      RunTracked(Apply(s, run[0]), run[1..]);
    }
  }

  /** What a started take has of a bucket is what history says it holds. */
  lemma {:induction false} TakenByHolds(s: Sys, id: nat, k: nat)
    requires Conserved(s) && Tracked(s) && id < s.nextDrain && k < BUCKETS
    ensures TakenBy(s, id, k) == HeldBy(s.log, Some(id), k) % W32
  {
    hide HeldBy;
    if id !in s.drained {
      var t: nat :| Drains(s, t, id);
      assert DrainOk(s, s.threads[t]);
      forall u: nat | Drains(s, u, id)
        ensures u == t
      {
        assert u != t ==> !SameDrain(s.threads[u], s.threads[t]);
      }
    }
  }

  lemma {:induction false} SumWraps(a: nat, b: nat, c: nat, d: nat)
    requires a % W32 == b % W32 && c % W32 == d % W32
    ensures (a + c) % W32 == (b + d) % W32
  {
  }

  lemma {:induction false} TakenByAllHolds(s: Sys, n: nat, k: nat)
    requires Conserved(s) && Tracked(s) && n <= s.nextDrain && k < BUCKETS
    ensures TakenByAll(s, n, k) % W32 == HeldByDrains(s.log, n, k) % W32
  {
    hide Conserved, Tracked, HeldBy, TakenBy;
    if n > 0 {
      TakenByAllHolds(s, n - 1, k);
      TakenByHolds(s, n - 1, k);
      ModTwice(HeldBy(s.log, Some(n - 1), k));
      SumWraps(TakenByAll(s, n - 1, k), HeldByDrains(s.log, n - 1, k),
               TakenBy(s, n - 1, k), HeldBy(s.log, Some(n - 1), k));
    }
  }

  lemma {:induction false} ModTwice(n: nat)
    ensures n % W32 % W32 == n % W32
  {
  }

  /** Conservation end to end: after any interleaving, what was recorded in a bucket is its counter,
      plus what finished takes returned, plus what unfinished takes have swapped out, modulo 2^32. */
  lemma {:induction false} SamplesConserved(run: seq<Event>, k: nat)
    requires Runs(Fresh(), run) && k < BUCKETS
    ensures var s := After(Fresh(), run);
            && |s.b| == BUCKETS
            && Recorded(run, k) % W32 == (s.b[k] + TakenByAll(s, s.nextDrain, k)) % W32
  {
    hide HeldBy, HeldByDrains, AddedTo, TakenByAll, Tracked;
    FreshConserved();
    FreshTracked();
    RunConserves(Fresh(), run);
    RunTracked(Fresh(), run);
    RunRecorded(Fresh(), run, k);
    NothingAdded(k);
    var s := After(Fresh(), run);
    AccountedNow(s, k);
  }

  lemma {:induction false} AccountedNow(s: Sys, k: nat)
    requires Conserved(s) && Tracked(s) && k < BUCKETS
    ensures |s.b| == BUCKETS && AddedTo(s.log, k) % W32 == (s.b[k] + TakenByAll(s, s.nextDrain, k)) % W32
  {
    hide HeldBy, HeldByDrains, AddedTo, TakenByAll;
    EverySampleAccounted(s.log, s.nextDrain, k);
    TakenByAllHolds(s, s.nextDrain, k);
    ModTwice(HeldBy(s.log, None, k));
    SumWraps(s.b[k], HeldBy(s.log, None, k), TakenByAll(s, s.nextDrain, k), HeldByDrains(s.log, s.nextDrain, k));
  }

  lemma {:induction false} FreshTracked()
    ensures Tracked(Fresh())
  {
  }

  lemma {:induction false} NothingAdded(k: nat)
    ensures AddedTo(Fresh().log, k) == 0
  {
  }

  // ---- The failing input ----

  /** One recorder has added 5 ms and not yet raised the maximum. */
  function FiveInFlight(): Sys
  {
    assert Enabled(Fresh(), Add(0, 5));
    Apply(Fresh(), Add(0, 5))
  }

  lemma {:induction false} FiveIsQuiet()
    ensures QuietOk(FiveInFlight()) && FiveInFlight().threads == map[0 := Added(5)] && FiveInFlight().max == 0
    ensures SamplesOf(FiveInFlight().log, None) == [5]
  {
    hide QuietOk, Bucket;
    FreshQuiet();
    QuietStep(Fresh(), Add(0, 5));
    SamplesOfSnoc([], Sample(5, None), None);
    assert [] + [Sample(5, None)] == [Sample(5, None)];
  }

  /** A take at that moment counts the sample and reports a maximum of 0: its quantiles read 0, below
      the sample. */
  lemma {:induction false} InFlightDefeatsBound() returns (run: seq<Event>)
    ensures Runs(Fresh(), run) && 0 in After(Fresh(), run).drained
    ensures var w := After(Fresh(), run).drained[0];
            |w.b| == BUCKETS && w.max == 0 && HoldsRank(w.b, Bucket(5), 1) && Min(Edge(Bucket(5)), w.max) < 5
  {
    hide QuietOk, TakeRun, HoldsRank, Edge, Bucket, IsRankth, BoundsAll, Fits, CountersOk;
    var s := FiveInFlight();
    FiveIsQuiet();
    QuietShape(s);
    TakeReturns(s, 1);
    OnlyFive(s);
    run := [Add(0, 5)] + TakeRun(1);
    assert run[0] == Add(0, 5) && run[1..] == TakeRun(1);
  }

  lemma {:induction false} OnlyFive(s: Sys)
    requires QuietOk(s) && SamplesOf(s.log, None) == [5]
    ensures |s.b| == BUCKETS && HoldsRank(s.b, Bucket(5), 1)
  {
    assert CountersOk(s);
    hide QuietOk, CountersOk, Count, HoldsRank;
    FewFit([5]);
    PendingCounted(s);
    MaximumIsLast([5]);
    assert Maximum([5]) == 5;
    RankHeld([5], s.b, 1, 5);
  }
}
