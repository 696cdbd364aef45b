/** The latency histogram under concurrency: any number of recorders, drainers and readers,
    interleaved at the granularity of single atomic operations.

    `log` is history: every sample ever added, with the drain that swapped it out, if any.
 */
module LagConcurrent {
  import opened Lag
  import opened Optional

  /** Where a thread is inside its operation. */
  datatype Pc =
    | Idle
    | Added(ms: nat)                 // recorder: bucket incremented, maximum not read yet
    | Raising(ms: nat)               // recorder: saw a smaller maximum
    | Draining(id: nat, got: seq<nat>)   // drainer: the buckets swapped so far
    | Reading(got: seq<nat>, seen: seq<nat>)  // reader: the buckets loaded so far, and the true counts then

  datatype Sample = Sample(ms: nat, takenBy: Option<nat>)

  /** A finished snapshot, with the true counts at the time each bucket was loaded. */
  datatype Snapshot = Snapshot(tid: nat, snap: LagSnap, seen: seq<nat>)

  datatype Sys = Sys(b: seq<nat>, max: nat, threads: map<nat, Pc>, log: seq<Sample>,
                     nextDrain: nat, drained: map<nat, LagSnap>, snaps: seq<Snapshot>)

  datatype Event =
    | Add(tid: nat, ms: nat)      // fetch_add on the bucket
    | LoadMax(tid: nat)           // plain load of the maximum
    | RaiseMax(tid: nat)          // fetch_max
    | StartDrain(tid: nat)
    | SwapBucket(tid: nat)        // swap the next bucket with 0
    | SwapMax(tid: nat)           // swap the maximum with 0; the drain is complete
    | StartRead(tid: nat)
    | LoadBucket(tid: nat)        // load the next bucket
    | LoadLast(tid: nat)          // load the maximum; the snapshot is complete

  function PcOf(s: Sys, tid: nat): Pc { if tid in s.threads then s.threads[tid] else Idle }

  /** Nothing recorded yet, every thread idle. */
  function Fresh(): Sys { Sys(seq(BUCKETS, _ => 0), 0, map[], [], 0, map[], []) }

  // ---- Counting history ----

  /** Samples ever added to bucket `k`. */
  function AddedTo(log: seq<Sample>, k: nat): nat {
    if log == [] then 0
    else AddedTo(log[..|log| - 1], k) + (if Bucket(log[|log| - 1].ms) == k then 1 else 0)
  }

  /** Samples of bucket `k` whose drain is `who`; `None` means still in the counters. */
  function HeldBy(log: seq<Sample>, who: Option<nat>, k: nat): nat {
    if log == [] then 0
    else
      var x := log[|log| - 1];
      HeldBy(log[..|log| - 1], who, k) + (if Bucket(x.ms) == k && x.takenBy == who then 1 else 0)
  }

  /** Swapping bucket `k` out hands every pending sample of it to drain `id`. */
  function Hand(log: seq<Sample>, k: nat, id: nat): (r: seq<Sample>)
    ensures |r| == |log|
    ensures forall i :: 0 <= i < |log| ==>
              r[i] == if Bucket(log[i].ms) == k && log[i].takenBy.None? then log[i].(takenBy := Some(id)) else log[i]
  {
    seq(|log|, i requires 0 <= i < |log| =>
      if Bucket(log[i].ms) == k && log[i].takenBy.None? then log[i].(takenBy := Some(id)) else log[i])
  }

  // ---- Steps ----

  predicate Enabled(s: Sys, e: Event) {
    var pc := PcOf(s, e.tid);
    match e
    case Add(_, ms) => pc.Idle? && ms < W32
    case LoadMax(_) => pc.Added?
    case RaiseMax(_) => pc.Raising?
    case StartDrain(_) => pc.Idle?
    case SwapBucket(_) => pc.Draining? && |pc.got| < BUCKETS
    case SwapMax(_) => pc.Draining? && |pc.got| == BUCKETS
    case StartRead(_) => pc.Idle?
    case LoadBucket(_) => pc.Reading? && |pc.got| < BUCKETS
    case LoadLast(_) => pc.Reading? && |pc.got| == BUCKETS
  }

  function Goto(s: Sys, tid: nat, pc: Pc): Sys { s.(threads := s.threads[tid := pc]) }

  function Apply(s: Sys, e: Event): Sys
    requires |s.b| == BUCKETS && Enabled(s, e)
  {
    var pc := PcOf(s, e.tid);
    match e
    case Add(tid, ms) =>
      var k := Bucket(ms);
      Goto(s.(b := s.b[k := (s.b[k] + 1) % W32], log := s.log + [Sample(ms, None)]), tid, Added(ms))
    case LoadMax(tid) => Goto(s, tid, if pc.ms > s.max then Raising(pc.ms) else Idle)
    case RaiseMax(tid) => Goto(s.(max := Max(s.max, pc.ms)), tid, Idle)
    case StartDrain(tid) => Goto(s.(nextDrain := s.nextDrain + 1), tid, Draining(s.nextDrain, []))
    case SwapBucket(tid) =>
      var k := |pc.got|;
      Goto(s.(b := s.b[k := 0], log := Hand(s.log, k, pc.id)), tid, Draining(pc.id, pc.got + [s.b[k]]))
    case SwapMax(tid) => Goto(s.(max := 0, drained := s.drained[pc.id := LagSnap(pc.got, s.max)]), tid, Idle)
    case StartRead(tid) => Goto(s, tid, Reading([], []))
    case LoadBucket(tid) =>
      var k := |pc.got|;
      Goto(s, tid, Reading(pc.got + [s.b[k]], pc.seen + [AddedTo(s.log, k)]))
    case LoadLast(tid) =>
      Goto(s.(snaps := s.snaps + [Snapshot(tid, LagSnap(pc.got, s.max), pc.seen)]), tid, Idle)
  }

  ghost predicate Runs(s: Sys, run: seq<Event>)
    requires |s.b| == BUCKETS
    decreases |run|
  {
    run == [] || (Enabled(s, run[0]) && Runs(Apply(s, run[0]), run[1..]))
  }

  ghost function After(s: Sys, run: seq<Event>): Sys
    requires |s.b| == BUCKETS && Runs(s, run)
    decreases |run|
  {
    if run == [] then s else After(Apply(s, run[0]), run[1..])
  }

  // ---- Conservation ----

  /** The counters hold exactly the pending samples, up to the 32-bit width. */
  ghost predicate CountersOk(s: Sys) {
    |s.b| == BUCKETS && forall k :: 0 <= k < BUCKETS ==> s.b[k] == HeldBy(s.log, None, k) % W32
  }

  /** An unfinished drain holds exactly the samples it swapped out, none of the buckets ahead of it. */
  ghost predicate DrainOk(s: Sys, pc: Pc) {
    pc.Draining? ==>
      && |pc.got| <= BUCKETS && pc.id < s.nextDrain && pc.id !in s.drained
      && (forall k :: 0 <= k < |pc.got| ==> pc.got[k] == HeldBy(s.log, Some(pc.id), k) % W32)
      && (forall k :: |pc.got| <= k < BUCKETS ==> HeldBy(s.log, Some(pc.id), k) == 0)
  }

  predicate SameDrain(p: Pc, q: Pc) { p.Draining? && q.Draining? && p.id == q.id }

  ghost predicate ThreadsOk(s: Sys) {
    && (forall t :: t in s.threads ==> DrainOk(s, s.threads[t]))
    && (forall t, u :: t in s.threads && u in s.threads && t != u ==> !SameDrain(s.threads[t], s.threads[u]))
  }

  /** A finished drain reported exactly the samples it holds, and a future one holds none. */
  ghost predicate FinishedOk(s: Sys) {
    && (forall id :: id in s.drained ==> id < s.nextDrain && |s.drained[id].b| == BUCKETS)
    && (forall id, k :: id in s.drained && 0 <= k < BUCKETS ==> s.drained[id].b[k] == HeldBy(s.log, Some(id), k) % W32)
    && (forall id, k :: id >= s.nextDrain && 0 <= k < BUCKETS ==> HeldBy(s.log, Some(id), k) == 0)
  }

  ghost predicate Conserved(s: Sys) { CountersOk(s) && ThreadsOk(s) && FinishedOk(s) }

  lemma {:induction false} HeldBySnoc(log: seq<Sample>, x: Sample, who: Option<nat>, k: nat)
    ensures HeldBy(log + [x], who, k) == HeldBy(log, who, k) + (if Bucket(x.ms) == k && x.takenBy == who then 1 else 0)
  {
    assert (log + [x])[..|log|] == log;
  }

  /** Handing bucket `k` to a drain moves its pending samples there and touches nothing else. */
  lemma {:induction false} HeldByHand(log: seq<Sample>, k: nat, id: nat, who: Option<nat>, j: nat)
    ensures HeldBy(Hand(log, k, id), who, j)
         == if j != k then HeldBy(log, who, j)
            else if who == None then 0
            else if who == Some(id) then HeldBy(log, who, j) + HeldBy(log, None, j)
            else HeldBy(log, who, j)
  {
    if log != [] {
      var n := |log| - 1;
      HeldByHand(log[..n], k, id, who, j);
      assert Hand(log, k, id)[..n] == Hand(log[..n], k, id);
    }
  }

  lemma {:induction false} AddCounters(s: Sys, tid: nat, ms: nat)
    requires CountersOk(s) && Enabled(s, Add(tid, ms))
    ensures CountersOk(Apply(s, Add(tid, ms)))
  {
    hide HeldBy, Bucket;
    forall k | 0 <= k < BUCKETS
      ensures Apply(s, Add(tid, ms)).b[k] == HeldBy(s.log + [Sample(ms, None)], None, k) % W32
    {
      HeldBySnoc(s.log, Sample(ms, None), None, k);
      WrapNext(HeldBy(s.log, None, k));
    }
  }

  /** A new sample is pending: no drain's holdings change. */
  lemma {:induction false} AddDrains(s: Sys, tid: nat, ms: nat)
    requires Conserved(s) && Enabled(s, Add(tid, ms))
    ensures ThreadsOk(Apply(s, Add(tid, ms))) && FinishedOk(Apply(s, Add(tid, ms)))
  {
    forall id: nat, k: nat
      ensures HeldBy(s.log + [Sample(ms, None)], Some(id), k) == HeldBy(s.log, Some(id), k)
    {
      HeldBySnoc(s.log, Sample(ms, None), Some(id), k);
    }
    hide HeldBy, Bucket, CountersOk;
  }

  lemma {:induction false} SwapCounters(s: Sys, tid: nat)
    requires CountersOk(s) && Enabled(s, SwapBucket(tid))
    ensures CountersOk(Apply(s, SwapBucket(tid)))
  {
    var pc := PcOf(s, tid);
    forall k | 0 <= k < BUCKETS
      ensures Apply(s, SwapBucket(tid)).b[k] == HeldBy(Hand(s.log, |pc.got|, pc.id), None, k) % W32
    {
      HeldByHand(s.log, |pc.got|, pc.id, None, k);
    }
  }

  /** Only the swapping drain's holdings change, and only in the swapped bucket. */
  lemma {:induction false} SwapDrains(s: Sys, tid: nat)
    requires Conserved(s) && Enabled(s, SwapBucket(tid))
    ensures ThreadsOk(Apply(s, SwapBucket(tid))) && FinishedOk(Apply(s, SwapBucket(tid)))
  {
    var pc := PcOf(s, tid);
    var h, n := Hand(s.log, |pc.got|, pc.id), |pc.got|;
    assert DrainOk(s, pc);
    forall id: nat, j: nat
      ensures id != pc.id || j != n ==> HeldBy(h, Some(id), j) == HeldBy(s.log, Some(id), j)
    {
      HeldByHand(s.log, n, pc.id, Some(id), j);
    }
    HeldByHand(s.log, n, pc.id, Some(pc.id), n);
    assert s.b[n] == HeldBy(h, Some(pc.id), n) % W32;
    var r := Apply(s, SwapBucket(tid));
    assert r.log == h && r.threads == s.threads[tid := Draining(pc.id, pc.got + [s.b[n]])];
    assert r.drained == s.drained && r.nextDrain == s.nextDrain;
    hide HeldBy, Hand, Apply;
    forall t | t in r.threads
      ensures DrainOk(r, r.threads[t])
    {
      assert t != tid && r.threads[t].Draining? ==>
          !SameDrain(s.threads[t], s.threads[tid]) && DrainOk(s, s.threads[t]);
    }
  }

  /** Counters, history and finished drains as they were, and no thread draining that was not. */
  lemma {:induction false} NothingMoves(s: Sys, r: Sys)
    requires Conserved(s) && r.b == s.b && r.log == s.log && r.drained == s.drained && r.nextDrain == s.nextDrain
    requires forall t :: t in r.threads && r.threads[t].Draining? ==> t in s.threads && r.threads[t] == s.threads[t]
    ensures Conserved(r)
  {
    hide HeldBy;
  }

  lemma {:induction false} StartConserves(s: Sys, tid: nat)
    requires Conserved(s) && Enabled(s, StartDrain(tid))
    ensures Conserved(Apply(s, StartDrain(tid)))
  {
    hide HeldBy;
  }

  lemma {:induction false} EndConserves(s: Sys, tid: nat)
    requires Conserved(s) && Enabled(s, SwapMax(tid))
    ensures Conserved(Apply(s, SwapMax(tid)))
  {
    hide HeldBy;
  }

  /** Every atomic step conserves the samples. */
  lemma {:induction false} StepConserves(s: Sys, e: Event)
    requires Conserved(s) && Enabled(s, e)
    ensures Conserved(Apply(s, e))
  {
    hide CountersOk, ThreadsOk, FinishedOk, HeldBy;
    Shape(s);
    if e.Add? {
      AddCounters(s, e.tid, e.ms);
      AddDrains(s, e.tid, e.ms);
    } else if e.SwapBucket? {
      SwapCounters(s, e.tid);
      SwapDrains(s, e.tid);
    } else if e.StartDrain? {
      StartConserves(s, e.tid);
    } else if e.SwapMax? {
      EndConserves(s, e.tid);
    } else {
      NothingMoves(s, Apply(s, e));
    }
  }

  lemma {:induction false} Shape(s: Sys)
    requires Conserved(s)
    ensures |s.b| == BUCKETS
  {
  }

  /** After any interleaving, from any conserved state. */
  lemma {:induction false} RunConserves(s: Sys, run: seq<Event>)
    requires Conserved(s) && Runs(s, run)
    ensures Conserved(After(s, run))
    decreases |run|
  {
    if run != [] {
      StepConserves(s, run[0]);
      RunConserves(Apply(s, run[0]), run[1..]);
    }
  }

  lemma {:induction false} FreshConserved()
    ensures Conserved(Fresh())
  {
  }

  /** A sample once taken stays with its drain: it is counted in at most one. */
  lemma {:induction false} TakenOnce(s: Sys, run: seq<Event>, i: nat)
    requires |s.b| == BUCKETS && Runs(s, run) && i < |s.log|
    ensures var t := After(s, run);
            && i < |t.log| && t.log[i].ms == s.log[i].ms
            && (s.log[i].takenBy.Some? ==> t.log[i] == s.log[i])
    decreases |run|
  {
    if run != [] {
      TakenOnce(Apply(s, run[0]), run[1..], i);
    }
  }

  /** Samples of bucket `k` held by the drains numbered below `n`. */
  function HeldByDrains(log: seq<Sample>, n: nat, k: nat): nat {
    if n == 0 then 0 else HeldByDrains(log, n - 1, k) + HeldBy(log, Some(n - 1), k)
  }

  lemma {:induction false} HeldByDrainsSnoc(log: seq<Sample>, x: Sample, n: nat, k: nat)
    ensures HeldByDrains(log + [x], n, k) == HeldByDrains(log, n, k)
         + (if Bucket(x.ms) == k && x.takenBy.Some? && x.takenBy.value < n then 1 else 0)
  {
    if n > 0 {
      HeldByDrainsSnoc(log, x, n - 1, k);
      HeldBySnoc(log, x, Some(n - 1), k);
    }
  }

  /** Every sample ever added is either still in the counters or in exactly one drain. */
  lemma {:induction false} EverySampleAccounted(log: seq<Sample>, n: nat, k: nat)
    requires forall i :: 0 <= i < |log| ==> log[i].takenBy.Some? ==> log[i].takenBy.value < n
    ensures AddedTo(log, k) == HeldBy(log, None, k) + HeldByDrains(log, n, k)
  {
    if log != [] {
      var m := |log| - 1;
      EverySampleAccounted(log[..m], n, k);
      HeldByDrainsSnoc(log[..m], log[m], n, k);
      assert log == log[..m] + [log[m]];
    } else {
      NoneHeld(n, k);
    }
  }

  lemma {:induction false} NoneHeld(n: nat, k: nat)
    ensures HeldByDrains([], n, k) == 0
  {
    if n > 0 {
      NoneHeld(n - 1, k);
    }
  }

  // ---- Readers: snapshots never go backwards ----

  predicate NoDrains(run: seq<Event>) {
    forall i :: 0 <= i < |run| ==> !run[i].StartDrain?
  }

  /** `got` are the 32-bit views of the true counts `seen`, taken no later than now. */
  ghost predicate Seen(log: seq<Sample>, got: seq<nat>, seen: seq<nat>) {
    |got| == |seen| <= BUCKETS &&
    forall k :: 0 <= k < |got| ==> got[k] == seen[k] % W32 && seen[k] <= AddedTo(log, k)
  }

  ghost predicate NotAfter(a: seq<nat>, b: seq<nat>) {
    forall k :: 0 <= k < |a| && k < |b| ==> a[k] <= b[k]
  }

  /** With no drains: the counters hold everything ever added, and each reader's snapshots
      are ordered in time. */
  ghost predicate ReadersOk(s: Sys) {
    && |s.b| == BUCKETS
    && (forall k :: 0 <= k < BUCKETS ==> s.b[k] == AddedTo(s.log, k) % W32)
    && (forall t :: t in s.threads ==> !s.threads[t].Draining?)
    && (forall t :: t in s.threads && s.threads[t].Reading? ==> Seen(s.log, s.threads[t].got, s.threads[t].seen))
    && (forall i :: 0 <= i < |s.snaps|
          ==> Seen(s.log, s.snaps[i].snap.b, s.snaps[i].seen) && |s.snaps[i].seen| == BUCKETS)
    && (forall i, t :: 0 <= i < |s.snaps| && t in s.threads && s.threads[t].Reading? && s.snaps[i].tid == t
          ==> NotAfter(s.snaps[i].seen, s.threads[t].seen))
    && (forall i, j :: 0 <= i < j < |s.snaps| && s.snaps[i].tid == s.snaps[j].tid
          ==> NotAfter(s.snaps[i].seen, s.snaps[j].seen))
  }

  lemma {:induction false} AddedToSnoc(log: seq<Sample>, x: Sample, k: nat)
    ensures AddedTo(log + [x], k) == AddedTo(log, k) + (if Bucket(x.ms) == k then 1 else 0)
  {
    assert (log + [x])[..|log|] == log;
  }

  /** What a reader has seen stays seen as samples arrive. */
  lemma {:induction false} SeenGrows(log: seq<Sample>, x: Sample, got: seq<nat>, seen: seq<nat>)
    requires Seen(log, got, seen)
    ensures Seen(log + [x], got, seen)
  {
    forall k | 0 <= k < |got|
      ensures seen[k] <= AddedTo(log + [x], k)
    {
      AddedToSnoc(log, x, k);
    }
  }

  lemma {:induction false} AddShape(s: Sys, tid: nat, ms: nat)
    requires |s.b| == BUCKETS && Enabled(s, Add(tid, ms))
    ensures var r, n := Apply(s, Add(tid, ms)), Bucket(ms);
            && r.log == s.log + [Sample(ms, None)] && r.threads == s.threads[tid := Added(ms)] && r.snaps == s.snaps
            && r.b == s.b[n := (s.b[n] + 1) % W32]
  {
    hide Bucket;
  }

  lemma {:induction false} AddReaders(s: Sys, tid: nat, ms: nat)
    requires ReadersOk(s) && Enabled(s, Add(tid, ms))
    ensures ReadersOk(Apply(s, Add(tid, ms)))
  {
    hide AddedTo, Bucket, Apply, Seen, NotAfter;
    AddShape(s, tid, ms);
    var r, x, n := Apply(s, Add(tid, ms)), Sample(ms, None), Bucket(ms);
    forall k | 0 <= k < BUCKETS
      ensures r.b[k] == AddedTo(r.log, k) % W32
    {
      AddedToSnoc(s.log, x, k);
      WrapNext(AddedTo(s.log, k));
    }
    forall got, seen | Seen(s.log, got, seen)
      ensures Seen(r.log, got, seen)
    {
      SeenGrows(s.log, x, got, seen);
    }
  }

  lemma {:induction false} StepReaders(s: Sys, e: Event)
    requires ReadersOk(s) && Enabled(s, e) && !e.StartDrain?
    ensures ReadersOk(Apply(s, e))
  {
    if e.Add? {
      AddReaders(s, e.tid, e.ms);
    } else {
      hide AddedTo;
    }
  }

  lemma {:induction false} RunReaders(s: Sys, run: seq<Event>)
    requires ReadersOk(s) && Runs(s, run) && NoDrains(run)
    ensures ReadersOk(After(s, run))
    decreases |run|
  {
    if run != [] {
      StepReaders(s, run[0]);
      RunReaders(Apply(s, run[0]), run[1..]);
    }
  }

  lemma {:induction false} FreshReaders()
    ensures ReadersOk(Fresh())
  {
  }

  /** Two snapshots of one reader, in order. */
  lemma {:induction false} SnapPair(s: Sys, i: nat, j: nat)
    requires ReadersOk(s) && i < j < |s.snaps| && s.snaps[i].tid == s.snaps[j].tid
    requires forall k :: 0 <= k < BUCKETS ==> AddedTo(s.log, k) < W32
    ensures var a, b := s.snaps[i], s.snaps[j];
            && |a.snap.b| == |b.snap.b| == |a.seen| == |b.seen| == BUCKETS
            && forall k :: 0 <= k < BUCKETS ==> a.snap.b[k] == a.seen[k] <= b.seen[k] == b.snap.b[k]
  {
    hide AddedTo;
    var a, b := s.snaps[i], s.snaps[j];
    assert Seen(s.log, a.snap.b, a.seen) && Seen(s.log, b.snap.b, b.seen) && NotAfter(a.seen, b.seen);
    forall k | 0 <= k < BUCKETS
      ensures a.snap.b[k] == a.seen[k] <= b.seen[k] == b.snap.b[k]
    {
      assert AddedTo(s.log, k) < W32;
    }
  }

  /** With no drain, and no counter past 32 bits, a later snapshot of one reader is never below
      an earlier one in any bucket, so live traffic is never mistaken for a restart, and the
      difference counts exactly what was added between the two loads of each bucket. */
  lemma {:induction false} SnapshotsNeverGoBack(run: seq<Event>, i: nat, j: nat)
    requires Runs(Fresh(), run) && NoDrains(run)
    requires var s := After(Fresh(), run); i < j < |s.snaps| && s.snaps[i].tid == s.snaps[j].tid
    requires forall k :: 0 <= k < BUCKETS ==> AddedTo(After(Fresh(), run).log, k) < W32
    ensures var a, b := After(Fresh(), run).snaps[i], After(Fresh(), run).snaps[j];
            && |a.snap.b| == |b.snap.b| == |a.seen| == |b.seen| == BUCKETS
            && !WentDown(b.snap, a.snap)
            && forall k :: 0 <= k < BUCKETS ==> a.seen[k] + Since(b.snap, a.snap).b[k] == b.seen[k]
  {
    hide ReadersOk, AddedTo, WindowMax, Seen, NotAfter;
    FreshReaders();
    RunReaders(Fresh(), run);
    SnapPair(After(Fresh(), run), i, j);
  }

  // ---- Drains with no record in flight ----

  /** The samples held by `who`, in order of arrival. */
  function SamplesOf(log: seq<Sample>, who: Option<nat>): (r: seq<nat>)
    ensures forall x :: x in r <==> exists i :: 0 <= i < |log| && log[i] == Sample(x, who)
  {
    if log == [] then []
    else
      var n := |log| - 1;
      var front := SamplesOf(log[..n], who);
      assert forall i :: 0 <= i < n ==> log[..n][i] == log[i];
      if log[n].takenBy == who then front + [log[n].ms] else front
  }

  lemma {:induction false} SamplesCounted(log: seq<Sample>, who: Option<nat>, k: nat)
    ensures Count(SamplesOf(log, who), k) == HeldBy(log, who, k)
  {
    if log != [] {
      var n := |log| - 1;
      SamplesCounted(log[..n], who, k);
      var front := SamplesOf(log[..n], who);
      if log[n].takenBy == who {
        assert (front + [log[n].ms])[..|front|] == front;
      }
    }
  }

  /** No record overlaps a drain, and drains do not overlap each other. */
  predicate Apart(s: Sys, e: Event) {
    && (e.Add? ==> forall t :: t in s.threads ==> !s.threads[t].Draining?)
    && (e.StartDrain? ==> forall t :: t in s.threads ==> s.threads[t].Idle? || s.threads[t].Reading?)
  }

  ghost predicate RunsApart(s: Sys, run: seq<Event>)
    requires |s.b| == BUCKETS
    decreases |run|
  {
    run == [] || (Enabled(s, run[0]) && Apart(s, run[0]) && RunsApart(Apply(s, run[0]), run[1..]))
  }

  predicate InFlight(pc: Pc, ms: nat) { (pc.Added? || pc.Raising?) && pc.ms == ms }

  predicate Busy(pc: Pc) { pc.Added? || pc.Raising? || pc.Draining? }

  /** While nothing drains, the maximum is attained, and covers every pending sample but those
      whose recorder is still at work. */
  ghost predicate MaxLags(s: Sys) {
    && (s.max == 0 || s.max in SamplesOf(s.log, None))
    && (forall x :: x in SamplesOf(s.log, None) ==>
          x <= s.max || exists t :: t in s.threads && InFlight(s.threads[t], x))
    && (forall t :: t in s.threads && (s.threads[t].Added? || s.threads[t].Raising?) ==>
          s.threads[t].ms in SamplesOf(s.log, None))
  }

  /** The maximum of the samples still pending and those drain `id` already has. */
  ghost function WindowTop(s: Sys, id: nat): nat {
    Max(Maximum(SamplesOf(s.log, None)), Maximum(SamplesOf(s.log, Some(id))))
  }

  ghost predicate DrainedExactly(s: Sys) {
    forall id :: id in s.drained ==> id < s.nextDrain && s.drained[id].max == Maximum(SamplesOf(s.log, Some(id)))
  }

  ghost predicate Unstarted(s: Sys) {
    forall id :: id >= s.nextDrain ==> SamplesOf(s.log, Some(id)) == []
  }

  /** Either nothing drains and the maximum lags only by records in flight, or one thread
      drains alone and the maximum is that of its window. */
  ghost predicate QuietOk(s: Sys) {
    && Conserved(s) && DrainedExactly(s) && Unstarted(s)
    && ((forall t :: t in s.threads ==> !s.threads[t].Draining?) ==> MaxLags(s))
    && (forall t :: t in s.threads && s.threads[t].Draining? ==>
          && Swept(s.log, |s.threads[t].got|)
          && s.max == WindowTop(s, s.threads[t].id)
          && forall u :: u in s.threads && u != t ==> !Busy(s.threads[u]))
  }

  /** Nothing is pending in the first `n` buckets. */
  ghost predicate Swept(log: seq<Sample>, n: nat) {
    forall k :: 0 <= k < n ==> HeldBy(log, None, k) == 0
  }

  lemma {:induction false} SweptHand(log: seq<Sample>, k: nat, id: nat)
    requires Swept(log, k)
    ensures Swept(Hand(log, k, id), k + 1)
  {
    forall j | 0 <= j < k + 1
      ensures HeldBy(Hand(log, k, id), None, j) == 0
    {
      HeldByHand(log, k, id, None, j);
    }
  }

  /** Once every bucket is swept, nothing is pending. */
  lemma {:induction false} NothingPending(log: seq<Sample>)
    requires Swept(log, BUCKETS)
    ensures SamplesOf(log, None) == []
  {
    var p := SamplesOf(log, None);
    if p != [] {
      SamplesCounted(log, None, Bucket(p[0]));
      CountPositive(p, InBucket(Bucket(p[0])), p[0]);
    }
  }

  lemma {:induction false} SamplesOfSnoc(log: seq<Sample>, x: Sample, who: Option<nat>)
    ensures SamplesOf(log + [x], who) == if x.takenBy == who then SamplesOf(log, who) + [x.ms] else SamplesOf(log, who)
  {
    assert (log + [x])[..|log|] == log;
  }

  lemma {:induction false} WithinMaximum(a: seq<nat>, c: seq<nat>, d: seq<nat>)
    requires forall x :: x in a ==> x in c || x in d
    ensures Maximum(a) <= Max(Maximum(c), Maximum(d))
  {
    hide Maximum;
    var m := Maximum(a);
    if a != [] {
      assert m in a;
    }
  }

  lemma {:induction false} SameMaximum(a: seq<nat>, b: seq<nat>, c: seq<nat>, d: seq<nat>)
    requires forall x :: x in a || x in b <==> x in c || x in d
    ensures Max(Maximum(a), Maximum(b)) == Max(Maximum(c), Maximum(d))
  {
    hide Maximum;
    WithinMaximum(a, c, d);
    WithinMaximum(b, c, d);
    WithinMaximum(c, a, b);
    WithinMaximum(d, a, b);
  }

  /** Handing a bucket over keeps the samples of the window and those of every other drain. */
  lemma {:induction false} SamplesHanded(log: seq<Sample>, k: nat, id: nat)
    ensures forall x :: x in SamplesOf(Hand(log, k, id), None) || x in SamplesOf(Hand(log, k, id), Some(id))
                   <==> x in SamplesOf(log, None) || x in SamplesOf(log, Some(id))
  {
    var h := Hand(log, k, id);
    forall x
      ensures x in SamplesOf(h, None) || x in SamplesOf(h, Some(id))
         <==> x in SamplesOf(log, None) || x in SamplesOf(log, Some(id))
    {
      if x in SamplesOf(h, None) || x in SamplesOf(h, Some(id)) {
        var i :| 0 <= i < |h| && (h[i] == Sample(x, None) || h[i] == Sample(x, Some(id)));
        assert log[i] == Sample(x, None) || log[i] == Sample(x, Some(id));
      }
      if x in SamplesOf(log, None) || x in SamplesOf(log, Some(id)) {
        var i :| 0 <= i < |log| && (log[i] == Sample(x, None) || log[i] == Sample(x, Some(id)));
        assert h[i] == Sample(x, None) || h[i] == Sample(x, Some(id));
      }
    }
  }

  lemma {:induction false} OthersUntouched(log: seq<Sample>, k: nat, id: nat, other: nat)
    requires other != id
    ensures SamplesOf(Hand(log, k, id), Some(other)) == SamplesOf(log, Some(other))
  {
    if log != [] {
      var n := |log| - 1;
      OthersUntouched(log[..n], k, id, other);
      assert Hand(log, k, id)[..n] == Hand(log[..n], k, id);
    }
  }

  /** The new sample's own recorder is in flight with it. */
  lemma {:induction false} AddLags(s: Sys, tid: nat, ms: nat)
    requires MaxLags(s) && |s.b| == BUCKETS && Enabled(s, Add(tid, ms))
    ensures MaxLags(Apply(s, Add(tid, ms)))
  {
    var r := Apply(s, Add(tid, ms));
    SamplesOfSnoc(s.log, Sample(ms, None), None);
    assert r.threads == s.threads[tid := Added(ms)] && r.max == s.max;
    assert SamplesOf(r.log, None) == SamplesOf(s.log, None) + [ms];
    hide SamplesOf, Apply;
    forall x | x in SamplesOf(r.log, None)
      ensures x <= r.max || exists t :: t in r.threads && InFlight(r.threads[t], x)
    {
      if x == ms {
        assert InFlight(r.threads[tid], x);
      } else if x > r.max {
        var t :| t in s.threads && InFlight(s.threads[t], x);
        assert t != tid && InFlight(r.threads[t], x);
      }
    }
  }

  lemma {:induction false} AddQuiet(s: Sys, tid: nat, ms: nat)
    requires QuietOk(s) && Enabled(s, Add(tid, ms)) && Apart(s, Add(tid, ms))
    ensures QuietOk(Apply(s, Add(tid, ms)))
  {
    var r := Apply(s, Add(tid, ms));
    StepConserves(s, Add(tid, ms));
    AddLags(s, tid, ms);
    forall id: nat
      ensures SamplesOf(r.log, Some(id)) == SamplesOf(s.log, Some(id))
    {
      SamplesOfSnoc(s.log, Sample(ms, None), Some(id));
    }
    hide Conserved, SamplesOf, Maximum, MaxLags, Bucket;
  }

  lemma {:induction false} SwapQuiet(s: Sys, tid: nat)
    requires QuietOk(s) && Enabled(s, SwapBucket(tid))
    ensures QuietOk(Apply(s, SwapBucket(tid)))
  {
    StepConserves(s, SwapBucket(tid));
    var pc := PcOf(s, tid);
    var r := Apply(s, SwapBucket(tid));
    SamplesHanded(s.log, |pc.got|, pc.id);
    SameMaximum(SamplesOf(s.log, None), SamplesOf(s.log, Some(pc.id)),
                SamplesOf(r.log, None), SamplesOf(r.log, Some(pc.id)));
    forall other: nat | other != pc.id
      ensures SamplesOf(r.log, Some(other)) == SamplesOf(s.log, Some(other))
    {
      OthersUntouched(s.log, |pc.got|, pc.id, other);
    }
    assert DrainOk(s, pc);
    SweptHand(s.log, |pc.got|, pc.id);
    hide Conserved, SamplesOf, Maximum, Hand, Swept;
    assert s.threads[tid] == pc && r.threads == s.threads[tid := Draining(pc.id, pc.got + [s.b[|pc.got|]])];
    assert r.max == WindowTop(r, pc.id);
    assert DrainedExactly(r) && Unstarted(r);
    hide WindowTop, DrainedExactly, Unstarted, MaxLags;
    forall t | t in r.threads && r.threads[t].Draining?
      ensures Swept(r.log, |r.threads[t].got|) && r.max == WindowTop(r, r.threads[t].id)
      ensures forall u :: u in r.threads && u != t ==> !Busy(r.threads[u])
    {
      assert t == tid || Busy(s.threads[t]);
    }
    assert r == Apply(s, SwapBucket(tid));
    assert Conserved(r);
    assert tid in r.threads && r.threads[tid].Draining?;
    assert QuietOk(r);
  }

  /** With nothing in flight the maximum is exact. */
  lemma {:induction false} MaxExact(s: Sys)
    requires MaxLags(s) && forall t :: t in s.threads ==> s.threads[t].Idle? || s.threads[t].Reading?
    ensures s.max == Maximum(SamplesOf(s.log, None))
  {
    hide SamplesOf;
    var all := SamplesOf(s.log, None);
    assert forall x :: x in all ==> x <= s.max;
  }

  lemma {:induction false} StartQuiet(s: Sys, tid: nat)
    requires QuietOk(s) && Enabled(s, StartDrain(tid)) && Apart(s, StartDrain(tid))
    ensures QuietOk(Apply(s, StartDrain(tid)))
  {
    hide Conserved, SamplesOf, Maximum, MaxLags, HeldBy;
    Shape(s);
    StepConserves(s, StartDrain(tid));
    MaxExact(s);
    assert SamplesOf(s.log, Some(s.nextDrain)) == [];
    MaxOfNone();
    var r := Apply(s, StartDrain(tid));
    assert tid in r.threads && r.threads[tid] == Draining(s.nextDrain, []);
    assert forall t :: t in r.threads && t != tid ==> r.threads[t] == s.threads[t];
    assert r.max == WindowTop(r, s.nextDrain);
    assert DrainedExactly(r) && Unstarted(r);
  }

  lemma {:induction false} MaxOfNone()
    ensures Maximum([]) == 0
  {
  }

  /** What a finished drain leaves when no other thread is busy: nothing pending, maximum 0. */
  lemma {:induction false} IdleQuiet(r: Sys)
    requires Conserved(r) && DrainedExactly(r) && Unstarted(r)
    requires r.max == 0 && SamplesOf(r.log, None) == []
    requires forall t :: t in r.threads ==> !Busy(r.threads[t])
    ensures QuietOk(r)
  {
    hide Conserved, DrainedExactly, Unstarted, SamplesOf, Swept, WindowTop;
  }

  lemma {:induction false} EndExactly(s: Sys, r: Sys, pc: Pc)
    requires DrainedExactly(s) && Unstarted(s) && pc.Draining? && pc.id < s.nextDrain
    requires r.log == s.log && r.nextDrain == s.nextDrain && r.drained == s.drained[pc.id := LagSnap(pc.got, s.max)]
    requires s.max == Maximum(SamplesOf(s.log, Some(pc.id)))
    ensures DrainedExactly(r) && Unstarted(r)
  {
    hide Maximum, SamplesOf;
  }

  lemma {:induction false} EndQuiet(s: Sys, tid: nat)
    requires QuietOk(s) && Enabled(s, SwapMax(tid))
    ensures QuietOk(Apply(s, SwapMax(tid)))
  {
    var pc := s.threads[tid];
    assert DrainOk(s, pc);
    NothingPending(s.log);
    hide Conserved, SamplesOf, HeldBy, Maximum, Swept, DrainedExactly, Unstarted, MaxLags;
    Shape(s);
    StepConserves(s, SwapMax(tid));
    MaxOfNone();
    EndExactly(s, Apply(s, SwapMax(tid)), pc);
    var r := Apply(s, SwapMax(tid));
    assert forall t :: t in r.threads && t != tid ==> r.threads[t] == s.threads[t];
    IdleQuiet(r);
  }

  lemma {:induction false} QuietStep(s: Sys, e: Event)
    requires QuietOk(s) && Enabled(s, e) && Apart(s, e)
    ensures QuietOk(Apply(s, e))
  {
    if e.Add? {
      AddQuiet(s, e.tid, e.ms);
    } else if e.SwapBucket? {
      SwapQuiet(s, e.tid);
    } else if e.StartDrain? {
      StartQuiet(s, e.tid);
    } else if e.SwapMax? {
      EndQuiet(s, e.tid);
    } else if e.LoadMax? || e.RaiseMax? {
      MaxQuiet(s, e);
    } else {
      ReadQuiet(s, e);
    }
  }

  lemma {:induction false} SameDrained(s: Sys, r: Sys)
    requires DrainedExactly(s) && Unstarted(s)
    requires r.log == s.log && r.drained == s.drained && r.nextDrain == s.nextDrain
    ensures DrainedExactly(r) && Unstarted(r)
  {
  }

  lemma {:induction false} MaxQuiet(s: Sys, e: Event)
    requires QuietOk(s) && Enabled(s, e) && (e.LoadMax? || e.RaiseMax?)
    ensures QuietOk(Apply(s, e))
  {
    hide Conserved, SamplesOf, Maximum, Swept, WindowTop, DrainedExactly, Unstarted;
    Shape(s);
    StepConserves(s, e);
    var r, pc := Apply(s, e), s.threads[e.tid];
    assert DrainedExactly(r) && Unstarted(r) by { SameDrained(s, r); }
    assert forall t :: t in s.threads ==> !s.threads[t].Draining?;
    forall x | x in SamplesOf(r.log, None)
      ensures x <= r.max || exists t :: t in r.threads && InFlight(r.threads[t], x)
    {
      if x > s.max && x != pc.ms {
        var t :| t in s.threads && InFlight(s.threads[t], x);
        assert t != e.tid && InFlight(r.threads[t], x);
      } else if x == pc.ms && x > r.max {
        assert InFlight(r.threads[e.tid], x);
      }
    }
  }

  lemma {:induction false} ReadQuiet(s: Sys, e: Event)
    requires QuietOk(s) && Enabled(s, e) && (e.StartRead? || e.LoadBucket? || e.LoadLast?)
    ensures QuietOk(Apply(s, e))
  {
    hide Conserved, MaxLags, DrainedExactly, Unstarted, WindowTop, Swept;
    Shape(s);
    StepConserves(s, e);
    var r := Apply(s, e);
    assert forall t :: t in r.threads && Busy(r.threads[t]) ==> t in s.threads && r.threads[t] == s.threads[t];
    assert forall t :: t in s.threads && Busy(s.threads[t]) ==> t in r.threads && r.threads[t] == s.threads[t];
    QuietFrame(s, r);
  }

  /** What readers do is of no concern to recorders and drainers. */
  lemma {:induction false} QuietFrame(s: Sys, r: Sys)
    requires QuietOk(s) && Conserved(r)
    requires r.log == s.log && r.max == s.max && r.drained == s.drained && r.nextDrain == s.nextDrain
    requires forall t :: t in r.threads && Busy(r.threads[t]) ==> t in s.threads && r.threads[t] == s.threads[t]
    requires forall t :: t in s.threads && Busy(s.threads[t]) ==> t in r.threads && r.threads[t] == s.threads[t]
    ensures QuietOk(r)
  {
    hide Conserved, SamplesOf, Maximum, Swept;
    assert forall t :: t in s.threads && s.threads[t].Draining? ==> Busy(s.threads[t]);
    assert forall t :: t in r.threads && r.threads[t].Draining? ==> Busy(r.threads[t]);
    if forall t :: t in r.threads ==> !r.threads[t].Draining? {
      LagsFrame(s, r);
    }
  }

  lemma {:induction false} LagsFrame(s: Sys, r: Sys)
    requires MaxLags(s) && r.log == s.log && r.max == s.max
    requires forall t :: t in r.threads && Busy(r.threads[t]) ==> t in s.threads && r.threads[t] == s.threads[t]
    requires forall t :: t in s.threads && Busy(s.threads[t]) ==> t in r.threads && r.threads[t] == s.threads[t]
    ensures MaxLags(r)
  {
    hide SamplesOf;
    forall x | x in SamplesOf(r.log, None)
      ensures x <= r.max || exists t :: t in r.threads && InFlight(r.threads[t], x)
    {
      if x > s.max {
        var t :| t in s.threads && InFlight(s.threads[t], x);
        assert Busy(s.threads[t]) && InFlight(r.threads[t], x);
      }
    }
    assert forall t :: t in r.threads && (r.threads[t].Added? || r.threads[t].Raising?) ==> Busy(r.threads[t]);
  }

  /** As long as records and takes stay apart, the maximum lags only by records at work, and every finished
      take has the maximum of the samples it took. */
  lemma {:induction false} QuietRun(s: Sys, run: seq<Event>)
    requires QuietOk(s) && RunsApart(s, run)
    ensures Runs(s, run) && QuietOk(After(s, run))
    decreases |run|
  {
    if run != [] {
      QuietStep(s, run[0]);
      QuietRun(Apply(s, run[0]), run[1..]);
    }
  }

  /** If no record is in flight during a drain, every finished drain is the sequential snapshot
      of exactly the samples it took, so all quantile bounds apply to it. */
  lemma {:induction false} QuietDrainsAreExact(run: seq<Event>, id: nat)
    requires RunsApart(Fresh(), run) && id in QuietEnd(run).drained
    ensures QuietEnd(run).drained[id] == SnapOf(SamplesOf(QuietEnd(run).log, Some(id)))
  {
    var s := QuietEnd(run);
    var xs := SamplesOf(s.log, Some(id));
    forall k | 0 <= k < BUCKETS
      ensures s.drained[id].b[k] == SnapOf(xs).b[k]
    {
      SamplesCounted(s.log, Some(id), k);
    }
    assert s.drained[id].b == SnapOf(xs).b;
  }

  ghost function QuietEnd(run: seq<Event>): (s: Sys)
    requires RunsApart(Fresh(), run)
    ensures QuietOk(s) && Runs(Fresh(), run) && s == After(Fresh(), run)
  {
    FreshQuiet();
    QuietRun(Fresh(), run);
    After(Fresh(), run)
  }

  lemma {:induction false} FreshQuiet()
    ensures QuietOk(Fresh())
  {
    FreshConserved();
  }

  // ---- An undisturbed drain ----

  /** The whole of one drain, with nothing in between. */
  function SwapAll(tid: nat, n: nat): seq<Event> {
    if n == 0 then [SwapMax(tid)] else [SwapBucket(tid)] + SwapAll(tid, n - 1)
  }

  /** An undisturbed drain reports the counters and the maximum as they stand. */
  lemma {:induction false} DrainThrough(s: Sys, tid: nat, before: seq<nat>, j: nat)
    requires |s.b| == |before| == BUCKETS && j <= BUCKETS
    requires PcOf(s, tid).Draining? && PcOf(s, tid).got == before[..j] && s.b[j..] == before[j..]
    ensures var run := SwapAll(tid, BUCKETS - j);
            && Runs(s, run) && PcOf(s, tid).id in After(s, run).drained
            && After(s, run).drained[PcOf(s, tid).id] == LagSnap(before, s.max)
    decreases BUCKETS - j
  {
    var run := SwapAll(tid, BUCKETS - j);
    if j == BUCKETS {
      assert run == [SwapMax(tid)];
      assert before[..j] == before;
      assert Runs(Apply(s, run[0]), run[1..]);
    } else {
      var next := Apply(s, SwapBucket(tid));
      assert run[0] == SwapBucket(tid) && run[1..] == SwapAll(tid, BUCKETS - (j + 1));
      assert s.b[j] == s.b[j..][0] == before[j];
      assert before[..j + 1] == before[..j] + [before[j]];
      assert next.b[j + 1..] == s.b[j..][1..] == before[j + 1..];
      DrainThrough(next, tid, before, j + 1);
    }
  }
}
