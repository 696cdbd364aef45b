/** What a take returns when records and other takes overlap it in any way: the exact maximum, the exact
    condition for its quantiles to be upper bounds, and a run in which they are not.
 */
module LagOverlaps {
  import opened Lag
  import opened LagConcurrent
  import opened LagTakes
  import opened Optional

  // ---- Which records have reached the maximum ----

  /** Beside a run: the place in history each recorder works on, and the samples whose recorder has been
      through the maximum since it was last swapped out. */
  datatype Trail = Trail(at: map<nat, nat>, raised: set<nat>)

  function NoTrail(): Trail { Trail(map[], {}) }

  function Through(tr: Trail, tid: nat): Trail {
    if tid in tr.at then tr.(raised := tr.raised + {tr.at[tid]}) else tr
  }

  function Follow(s: Sys, tr: Trail, e: Event): Trail {
    match e
    case Add(tid, _) => tr.(at := tr.at[tid := |s.log|])
    case LoadMax(tid) => if PcOf(s, tid).Added? && PcOf(s, tid).ms <= s.max then Through(tr, tid) else tr
    case RaiseMax(tid) => Through(tr, tid)
    case SwapMax(_) => tr.(raised := {})
    case _ => tr
  }

  ghost function TrailAfter(s: Sys, tr: Trail, run: seq<Event>): Trail
    requires |s.b| == BUCKETS && Runs(s, run)
    decreases |run|
  {
    if run == [] then tr else TrailAfter(Apply(s, run[0]), Follow(s, tr, run[0]), run[1..])
  }

  ghost function TrailOf(run: seq<Event>): Trail
    requires Runs(Fresh(), run)
  {
    TrailAfter(Fresh(), NoTrail(), run)
  }

  /** The maximum is the largest sample that has been through it, and 0 when there is none. */
  ghost predicate MaxIsRaised(s: Sys, tr: Trail) {
    && (forall i :: i in tr.raised ==> i < |s.log| && s.log[i].ms <= s.max)
    && (s.max == 0 || exists i :: i in tr.raised && i < |s.log| && s.log[i].ms == s.max)
  }

  predicate Recording(pc: Pc) { pc.Added? || pc.Raising? }

  /** Every recorder at work is traced to its own sample. */
  ghost predicate Traced(s: Sys, tr: Trail) {
    forall t :: t in s.threads && Recording(s.threads[t]) ==>
      t in tr.at && tr.at[t] < |s.log| && s.log[tr.at[t]].ms == s.threads[t].ms
  }

  lemma {:induction false} StepTraced(s: Sys, tr: Trail, e: Event)
    requires |s.b| == BUCKETS && Enabled(s, e) && Traced(s, tr)
    ensures Traced(Apply(s, e), Follow(s, tr, e))
  {
    hide Bucket, AddedTo;
  }

  lemma {:induction false} StepRaised(s: Sys, tr: Trail, e: Event)
    requires |s.b| == BUCKETS && Enabled(s, e) && Traced(s, tr) && MaxIsRaised(s, tr)
    ensures MaxIsRaised(Apply(s, e), Follow(s, tr, e))
  {
    hide Bucket, AddedTo;
    var r, next := Apply(s, e), Follow(s, tr, e);
    assert forall i :: 0 <= i < |s.log| ==> r.log[i].ms == s.log[i].ms;
    if e.RaiseMax? {
      assert Recording(s.threads[e.tid]);
      assert tr.at[e.tid] in next.raised;
    }
    if !e.SwapMax? && s.max != 0 {
      var i :| i in tr.raised && i < |s.log| && s.log[i].ms == s.max;
      assert i in next.raised;
    }
  }

  lemma {:induction false} RunRaised(s: Sys, tr: Trail, run: seq<Event>)
    requires |s.b| == BUCKETS && Runs(s, run) && Traced(s, tr) && MaxIsRaised(s, tr)
    ensures MaxIsRaised(After(s, run), TrailAfter(s, tr, run))
    decreases |run|
  {
    hide Traced, MaxIsRaised, Apply, Enabled, Follow;
    if run != [] {
      StepTraced(s, tr, run[0]);
      StepRaised(s, tr, run[0]);
      ApplyShape(s, run[0]);
      RunRaised(Apply(s, run[0]), Follow(s, tr, run[0]), run[1..]);
    }
  }

  /** After any interleaving the maximum is exactly that of the records that have been through it since
      it was last swapped out. */
  lemma {:induction false} MaximumIsRaised(run: seq<Event>)
    requires Runs(Fresh(), run)
    ensures MaxIsRaised(After(Fresh(), run), TrailOf(run))
  {
    RunRaised(Fresh(), NoTrail(), run);
  }

  // ---- The exact condition ----

  /** No sample held by `who` is above the maximum without having been through it. */
  ghost predicate NoneBehind(s: Sys, tr: Trail, who: Option<nat>) {
    forall i :: 0 <= i < |s.log| && s.log[i].takenBy == who && i !in tr.raised ==> s.log[i].ms <= s.max
  }

  lemma {:induction false} CoversExactly(s: Sys, tr: Trail, who: Option<nat>)
    requires MaxIsRaised(s, tr)
    ensures Covers(s.max, SamplesOf(s.log, who)) <==> NoneBehind(s, tr, who)
  {
    if Covers(s.max, SamplesOf(s.log, who)) {
      forall i | 0 <= i < |s.log| && s.log[i].takenBy == who
        ensures s.log[i].ms <= s.max
      {
        assert s.log[i] == Sample(s.log[i].ms, who);
      }
    }
  }

  /** For any samples a histogram counts, its reports are all upper bounds if and only if its maximum
      covers them. */
  lemma {:induction false} BoundsAllExactlyWhen(xs: seq<nat>, b: seq<nat>, m: nat)
    requires |b| == BUCKETS && forall i :: 0 <= i < BUCKETS ==> b[i] == Count(xs, i)
    requires m < W32
    ensures BoundsAll(xs, b, m) <==> Covers(m, xs)
  {
    hide BoundsAll, Count;
    if Covers(m, xs) {
      CoveredBounds(xs, b, m);
    }
    if BoundsAll(xs, b, m) {
      UncoveredFails(xs, b, m);
    }
  }

  /** A window whose maximum covers its samples exactly when none of them is behind, and whose reports,
      with counts below 2^32, are all upper bounds exactly then. */
  ghost predicate SoundExactlyWhen(w: LagSnap, xs: seq<nat>, condition: bool) {
    && (Covers(w.max, xs) <==> condition)
    && (Fits(xs) ==> (BoundsAll(xs, w.b, w.max) <==> condition))
  }

  lemma {:induction false} Reached(run: seq<Event>)
    requires Runs(Fresh(), run)
    ensures Conserved(After(Fresh(), run)) && After(Fresh(), run).max < W32
    ensures |After(Fresh(), run).b| == BUCKETS
  {
    hide Conserved;
    FreshConserved();
    RunConserves(Fresh(), run);
    RunNarrow(Fresh(), run);
    Shape(After(Fresh(), run));
  }

  /** At the end of any run, overlaps and all, an undisturbed take returns upper bounds if and only if
      every pending sample whose record has not been through the maximum is within it. */
  lemma {:induction false} UndisturbedTakeExactlyWhen(run: seq<Event>, tid: nat)
    requires Runs(Fresh(), run) && Enabled(After(Fresh(), run), StartDrain(tid))
    ensures var s := After(Fresh(), run);
            && |s.b| == BUCKETS && Runs(s, TakeRun(tid)) && s.nextDrain in After(s, TakeRun(tid)).drained
            && var w := After(s, TakeRun(tid)).drained[s.nextDrain];
               && w == LagSnap(s.b, s.max)
               && SoundExactlyWhen(w, SamplesOf(s.log, None), NoneBehind(s, TrailOf(run), None))
  {
    hide SamplesOf, TakeRun, Fits, Count, BoundsAll, NoneBehind, MaxIsRaised, CountersOk, ThreadsOk, FinishedOk;
    var s := After(Fresh(), run);
    Reached(run);
    MaximumIsRaised(run);
    TakeReturns(s, tid);
    CoversExactly(s, TrailOf(run), None);
    var xs := SamplesOf(s.log, None);
    if Fits(xs) {
      PendingCounted(s);
      BoundsAllExactlyWhen(xs, s.b, s.max);
    }
  }

  lemma {:induction false} TakenCounted(s: Sys, pc: Pc)
    requires DrainOk(s, pc) && pc.Draining? && |pc.got| == BUCKETS && Fits(SamplesOf(s.log, Some(pc.id)))
    ensures forall k :: 0 <= k < BUCKETS ==> pc.got[k] == Count(SamplesOf(s.log, Some(pc.id)), k)
  {
    hide SamplesOf, HeldBy, Count;
    forall k | 0 <= k < BUCKETS
      ensures pc.got[k] == Count(SamplesOf(s.log, Some(pc.id)), k)
    {
      SamplesCounted(s.log, Some(pc.id), k);
      assert Count(SamplesOf(s.log, Some(pc.id)), k) < W32;
    }
  }

  /** The same for any take at its last step, whatever ran between its steps: with the samples it took. */
  lemma {:induction false} TakeEndsExactlyWhen(run: seq<Event>, tid: nat)
    requires Runs(Fresh(), run) && Enabled(After(Fresh(), run), SwapMax(tid))
    ensures var s := After(Fresh(), run);
            && |s.b| == BUCKETS
            && var id, r := PcOf(s, tid).id, Apply(s, SwapMax(tid));
               && id in r.drained && r.log == s.log
               && SoundExactlyWhen(r.drained[id], SamplesOf(s.log, Some(id)), NoneBehind(s, TrailOf(run), Some(id)))
  {
    hide SamplesOf, Fits, Count, BoundsAll, NoneBehind, MaxIsRaised, CountersOk, FinishedOk, DrainOk;
    var s := After(Fresh(), run);
    Reached(run);
    MaximumIsRaised(run);
    var pc := PcOf(s, tid);
    assert DrainOk(s, pc);
    CoversExactly(s, TrailOf(run), Some(pc.id));
    var xs := SamplesOf(s.log, Some(pc.id));
    if Fits(xs) {
      TakenCounted(s, pc);
      BoundsAllExactlyWhen(xs, pc.got, s.max);
    }
  }

  // ---- Every finished take of a run ----

  lemma {:induction false} RunsSplit(s: Sys, run: seq<Event>, n: nat)
    requires |s.b| == BUCKETS && Runs(s, run) && n <= |run|
    ensures Runs(s, run[..n]) && |After(s, run[..n]).b| == BUCKETS
    ensures Runs(After(s, run[..n]), run[n..]) && After(s, run) == After(After(s, run[..n]), run[n..])
    decreases n
  {
    hide Apply, Enabled;
    if n == 0 {
      assert run[..0] == [] && run[0..] == run;
    } else {
      ApplyShape(s, run[0]);
      RunsSplit(Apply(s, run[0]), run[1..], n - 1);
      assert run[..n][0] == run[0] && run[..n][1..] == run[1..][..n - 1];
      assert run[n..] == run[1..][n - 1..];
    }
  }

  lemma {:induction false} RunsJoin(s: Sys, a: seq<Event>, b: seq<Event>)
    requires |s.b| == BUCKETS && Runs(s, a) && |After(s, a).b| == BUCKETS && Runs(After(s, a), b)
    ensures Runs(s, a + b) && After(s, a + b) == After(After(s, a), b)
    decreases |a|
  {
    hide Apply, Enabled;
    if a == [] {
      assert a + b == b;
    } else {
      ApplyShape(s, a[0]);
      RunsJoin(Apply(s, a[0]), a[1..], b);
      assert (a + b)[0] == a[0] && (a + b)[1..] == a[1..] + b;
    }
  }

  /** A finished take keeps its window and its samples. */
  ghost predicate SameFinished(s: Sys, r: Sys, id: nat) {
    && id in s.drained && id in r.drained && r.drained[id] == s.drained[id]
    && SamplesOf(r.log, Some(id)) == SamplesOf(s.log, Some(id))
  }

  lemma {:induction false} StepKeepsFinished(s: Sys, e: Event, id: nat)
    requires Conserved(s) && |s.b| == BUCKETS && Enabled(s, e) && id in s.drained
    ensures SameFinished(s, Apply(s, e), id)
  {
    var pc := PcOf(s, e.tid);
    assert DrainOk(s, pc);
    hide SamplesOf, Hand, CountersOk, FinishedOk, HeldBy, Bucket, AddedTo;
    if e.Add? {
      SamplesOfSnoc(s.log, Sample(e.ms, None), Some(id));
    } else if e.SwapBucket? {
      OthersUntouched(s.log, |pc.got|, pc.id, id);
    }
  }

  lemma {:induction false} RunKeepsFinished(s: Sys, run: seq<Event>, id: nat)
    requires Conserved(s) && |s.b| == BUCKETS && Runs(s, run) && id in s.drained
    ensures SameFinished(s, After(s, run), id)
    decreases |run|
  {
    hide Conserved, Apply, Enabled, SamplesOf;
    if run != [] {
      StepKeepsFinished(s, run[0], id);
      StepConserves(s, run[0]);
      ApplyShape(s, run[0]);
      RunKeepsFinished(Apply(s, run[0]), run[1..], id);
    }
  }

  /** Every finished take of every run: with the take ending at step `n`, what it returned is sound for
      all the samples it holds at the end of the run if and only if none of them was behind at that step. */
  lemma {:induction false} FinishedTakeExactlyWhen(run: seq<Event>, n: nat)
    requires Runs(Fresh(), run) && n < |run| && run[n].SwapMax?
    ensures Runs(Fresh(), run[..n])
    ensures var s, r := After(Fresh(), run[..n]), After(Fresh(), run);
            var pc := PcOf(s, run[n].tid);
            && pc.Draining? && pc.id in r.drained
            && SoundExactlyWhen(r.drained[pc.id], SamplesOf(r.log, Some(pc.id)),
                                NoneBehind(s, TrailOf(run[..n]), Some(pc.id)))
  {
    hide Apply, SamplesOf, SoundExactlyWhen, NoneBehind, Conserved, TrailOf;
    RunsSplit(Fresh(), run, n);
    var s, rest := After(Fresh(), run[..n]), run[n..];
    assert rest[0] == run[n] == SwapMax(run[n].tid);
    Reached(run[..n]);
    TakeEndsExactlyWhen(run[..n], run[n].tid);
    StepConserves(s, rest[0]);
    ApplyShape(s, rest[0]);
    RunKeepsFinished(Apply(s, rest[0]), rest[1..], PcOf(s, run[n].tid).id);
  }

  /** Every finished take has such a step. */
  lemma {:induction false} TakeHasEnd(run: seq<Event>, id: nat) returns (n: nat)
    requires Runs(Fresh(), run) && id in After(Fresh(), run).drained
    ensures n < |run| && run[n].SwapMax? && Runs(Fresh(), run[..n])
    ensures PcOf(After(Fresh(), run[..n]), run[n].tid) == Draining(id, After(Fresh(), run).drained[id].b)
  {
    n := |run| - 1;
    RunsSplit(Fresh(), run, n);
    var front, e := run[..n], run[n];
    var s := After(Fresh(), front);
    assert run[n..] == [e] && After(Fresh(), run) == Apply(s, e);
    hide AddedTo, Hand, Bucket;
    Reached(front);
    if id in s.drained {
      var m := TakeHasEnd(front, id);
      assert run[..m] == front[..m];
      StepKeepsFinished(s, e, id);
      n := m;
    }
  }

  // ---- Takes kept apart ----

  /** Where the takes of a run are kept apart from records and from each other, nothing is behind but
      records at work. */
  lemma {:induction false} ApartCondition(run: seq<Event>)
    requires RunsApart(Fresh(), run) && NoneDraining(QuietEnd(run))
    ensures NoneBehind(QuietEnd(run), TrailOf(run), None) <==> NoneAhead(QuietEnd(run))
  {
    hide Traced, MaxIsRaised, NoneBehind, NoneAhead, SamplesOf, Covers, MaxLags, TrailOf, Conserved;
    var s := QuietEnd(run);
    assert QuietOk(s) && MaxLags(s);
    hide QuietOk;
    MaximumIsRaised(run);
    CoversExactly(s, TrailOf(run), None);
    CoversExactlyWhen(s);
  }

  // ---- The failing input ----

  function Swaps(tid: nat, n: nat): seq<Event> { if n == 0 then [] else [SwapBucket(tid)] + Swaps(tid, n - 1) }

  function Zeros(n: nat): seq<nat> { seq(n, _ => 0) }

  /** A take under way that has found nothing in its first `n` buckets. */
  function Sweeping(n: nat): Sys { Fresh().(threads := map[1 := Draining(0, Zeros(n))], nextDrain := 1) }

  lemma {:induction false} SweepOne(n: nat)
    requires n < BUCKETS
    ensures Enabled(Sweeping(n), SwapBucket(1)) && Apply(Sweeping(n), SwapBucket(1)) == Sweeping(n + 1)
  {
    var s := Sweeping(n);
    assert s.b[n := 0] == s.b && Hand(s.log, n, 0) == s.log;
    assert Zeros(n) + [0] == Zeros(n + 1);
    assert s.threads[1 := Draining(0, Zeros(n + 1))] == Sweeping(n + 1).threads;
  }

  lemma {:induction false} SweepAll(n: nat, m: nat)
    requires n + m == BUCKETS
    ensures Runs(Sweeping(n), Swaps(1, m)) && After(Sweeping(n), Swaps(1, m)) == Sweeping(BUCKETS)
    decreases m
  {
    if m > 0 {
      var run := Swaps(1, m);
      assert run[0] == SwapBucket(1) && run[1..] == Swaps(1, m - 1);
      hide Sweeping, Swaps, Apply;
      SweepOne(n);
      SweepAll(n + 1, m - 1);
    }
  }

  /** A record that comes and goes between the bucket swaps and the maximum swap of another take. */
  function PassingRecord(): seq<Event> { [Add(0, 5), LoadMax(0), RaiseMax(0), SwapMax(1)] }

  lemma {:induction false} RecordPasses()
    ensures Runs(Sweeping(BUCKETS), PassingRecord())
    ensures var s := After(Sweeping(BUCKETS), PassingRecord());
            s.threads == map[1 := Idle, 0 := Idle] && s.max == 0 && s.log == [Sample(5, None)]
  {
    hide Bucket;
    var run, s0 := PassingRecord(), Sweeping(BUCKETS);
    var s1 := Apply(s0, run[0]);
    var s2 := Apply(s1, run[1]);
    assert s1.log == [Sample(5, None)] && s2.threads[0] == Raising(5);
    var s3 := Apply(s2, run[2]);
    assert run[1..][1..][1..][0] == SwapMax(1) && run[1..][1..][1..][1..] == [];
    assert run[1..][0] == LoadMax(0) && run[1..][1..][0] == RaiseMax(0);
    assert Runs(s3, run[1..][1..][1..]);
    assert Runs(s2, run[1..][1..]);
    assert Runs(s1, run[1..]);
  }

  function Overlapped(): seq<Event> { [StartDrain(1)] + Swaps(1, BUCKETS) + PassingRecord() }

  lemma {:induction false} SweepStarts()
    ensures Enabled(Fresh(), StartDrain(1)) && Apply(Fresh(), StartDrain(1)) == Sweeping(0)
  {
    assert Zeros(0) == [];
  }

  lemma {:induction false} OverlapRuns()
    ensures Runs(Fresh(), Overlapped())
    ensures var s := After(Fresh(), Overlapped());
            s.threads == map[1 := Idle, 0 := Idle] && s.max == 0 && SamplesOf(s.log, None) == [5]
  {
    hide Sweeping, Swaps, Apply, Enabled, PassingRecord;
    var sweep := [StartDrain(1)] + Swaps(1, BUCKETS);
    assert sweep[0] == StartDrain(1) && sweep[1..] == Swaps(1, BUCKETS);
    SweepStarts();
    SweepAll(0, BUCKETS);
    RecordPasses();
    Reached(sweep);
    RunsJoin(Fresh(), sweep, PassingRecord());
    SamplesOfSnoc([], Sample(5, None), None);
    assert [] + [Sample(5, None)] == [Sample(5, None)];
  }

  /** After it every thread is idle, no record is at work and the maximum is 0, and the next take, with
      nothing to disturb it, reports its only sample, 5 ms, from a maximum of 0. */
  lemma {:induction false} OverlapDefeatsBound() returns (run: seq<Event>)
    ensures Runs(Fresh(), run)
    ensures var s := After(Fresh(), run);
            && |s.b| == BUCKETS && NoneAhead(s) && (forall t :: t in s.threads ==> s.threads[t].Idle?)
            && Runs(s, TakeRun(2)) && s.nextDrain in After(s, TakeRun(2)).drained
            && var w := After(s, TakeRun(2)).drained[s.nextDrain];
               w == LagSnap(s.b, 0) && SamplesOf(s.log, None) == [5] && !BoundsAll([5], w.b, w.max)
  {
    hide Apply, BoundsAll, TakeRun, NoneBehind, SamplesOf, Overlapped, Runs, After, Fits;
    run := Overlapped();
    OverlapRuns();
    FewFit([5]);
    UndisturbedTakeExactlyWhen(run, 2);
    assert 5 in [5];
  }
}
