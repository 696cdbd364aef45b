/** Whole runs of the shard writer: appends, clean restarts, and crashes that cut the
    newest shard at any byte.
 */
module ShardRuns {
  import opened Optional
  import opened ShardReader
  import opened ShardWriter

  datatype Action = Append(rec: seq<Byte>, now: int) | Reopen | Crash(keep: nat)

  type Run = seq<Action>

  predicate OkRun(run: Run) {
    forall i :: 0 <= i < |run| && run[i].Append? ==> |run[i].rec| == STRIDE
  }

  /** A crash keeps some byte prefix of the newest shard. */
  ghost function CutNewest(files: Files, keep: nat): Files {
    var n := Newest(files);
    if n.None? then files else files[n.value := files[n.value][..Min(keep, |files[n.value]|)]]
  }

  /** What one action does to the disk. A clean restart does nothing to it. */
  ghost function After(l: Layout, files: Files, gate: bool, a: Action): Files
    requires l.Ok() && (a.Append? ==> |a.rec| == STRIDE)
  {
    match a
    case Append(rec, now) => Step(l, files, gate, rec, now).0
    case Reopen => files
    case Crash(keep) => CutNewest(files, keep)
  }

  ghost function Exec(l: Layout, files: Files, gate: bool, run: Run): Files
    requires l.Ok() && OkRun(run)
    decreases |run|
  {
    if run == [] then files
    else Exec(l, After(l, files, gate, run[0]), gate, run[1..])
  }

  // ---- The writer refines the disk-only form over whole runs ----

  /** Drive a writer through a run on a disk, building a new writer at every restart and
      crash. The disk ends as the disk-only form says. */
  method Replay(l: Layout, disk: Disk, gate: bool, run: Run)
    requires l.Ok() && OkRun(run)
    modifies disk
    ensures disk.files == Exec(l, old(disk.files), gate, run)
  {
    hide After;
    var w := new IdxShardWriter.Open(l, disk, gate);
    for i := 0 to |run|
      invariant w.Valid() && w.disk == disk && w.l == l && w.gate == gate
      invariant fresh(w)
      invariant Exec(l, disk.files, gate, run[i..]) == Exec(l, old(disk.files), gate, run)
    {
      assert run[i..][1..] == run[i + 1..];
      w := Perform(l, disk, gate, w, run[i]);
    }
  }

  method Perform(l: Layout, disk: Disk, gate: bool, w: IdxShardWriter, a: Action) returns (r: IdxShardWriter)
    requires l.Ok() && (a.Append? ==> |a.rec| == STRIDE)
    requires w.Valid() && w.disk == disk && w.l == l && w.gate == gate
    modifies disk, w
    ensures disk.files == After(l, old(disk.files), gate, a)
    ensures r.Valid() && r.disk == disk && r.l == l && r.gate == gate && (r == w || fresh(r))
  {
    if a.Append? {
      hide Step;
      var _ := w.AppendWithNow(a.rec, a.now);
      return w;
    }
    if a.Crash? {
      var n := disk.NewestShard();
      if n.Some? {
        disk.files := disk.files[n.value := disk.files[n.value][..Min(a.keep, |disk.files[n.value]|)]];
      }
    }
    r := new IdxShardWriter.Open(l, disk, gate);
  }

  // ---- Restart is invisible ----

  function WithoutReopens(run: Run): (r: Run)
    ensures OkRun(run) ==> OkRun(r)
  {
    if run == [] then []
    else if run[0].Reopen? then WithoutReopens(run[1..])
    else [run[0]] + WithoutReopens(run[1..])
  }

  /** Restarting at any points of any run leaves exactly the shards of never restarting. */
  lemma {:induction false} RestartInvisible(l: Layout, files: Files, gate: bool, run: Run)
    requires l.Ok() && OkRun(run)
    ensures Exec(l, files, gate, run) == Exec(l, files, gate, WithoutReopens(run))
    decreases |run|
  {
    if run != [] {
      assert run[0].Reopen? ==> After(l, files, gate, run[0]) == files;
      hide After;
      var rest := WithoutReopens(run[1..]);
      assert ([run[0]] + rest)[1..] == rest;
      RestartInvisible(l, After(l, files, gate, run[0]), gate, run[1..]);
    }
  }

  /** On the disks themselves: a writer restarted at any points of a run and one never restarted leave
      equal shards. */
  method RestartedDisksAgree(l: Layout, restarted: Disk, steady: Disk, gate: bool, run: Run)
    requires l.Ok() && OkRun(run) && restarted != steady && restarted.files == steady.files
    modifies restarted, steady
    ensures restarted.files == steady.files == Exec(l, old(restarted.files), gate, run)
  {
    RestartInvisible(l, restarted.files, gate, run);
    Replay(l, restarted, gate, run);
    Replay(l, steady, gate, WithoutReopens(run));
  }

  // ---- Since the last crash ----

  predicate NoCrash(run: Run) {
    forall i :: 0 <= i < |run| ==> !run[i].Crash?
  }

  /** The disk the last crash of a run left, or the one it began with, and what was done since. */
  ghost function SinceCrash(l: Layout, files: Files, gate: bool, run: Run): (r: (Files, Run))
    requires l.Ok() && OkRun(run)
    ensures OkRun(r.1) && NoCrash(r.1)
    ensures Exec(l, r.0, gate, r.1) == Exec(l, files, gate, run)
    ensures NoCrash(run) ==> r == (files, run)
    decreases |run|
  {
    if NoCrash(run) then (files, run)
    else SinceCrash(l, After(l, files, gate, run[0]), gate, run[1..])
  }

  // ---- Shards stay ordered and well routed ----

  /** Every record belongs to the date, and times do not decrease. */
  ghost predicate InDay(l: Layout, date: int, recs: seq<seq<Byte>>) {
    && (forall i :: 0 <= i < |recs| ==> DateOf(l.ts(recs[i])) == date)
    && (forall i, k :: 0 <= i <= k < |recs| ==> l.ts(recs[i]) <= l.ts(recs[k]))
  }

  ghost predicate WellFormed(l: Layout, files: Files) {
    forall d :: d in files ==> InDay(l, d, RecsOf(files, d))
  }

  lemma {:induction false} AppendInDay(l: Layout, date: int, recs: seq<seq<Byte>>, rec: seq<Byte>)
    requires InDay(l, date, recs) && DateOf(l.ts(rec)) == date
    requires recs != [] ==> l.ts(recs[|recs| - 1]) <= l.ts(rec)
    ensures InDay(l, date, recs + [rec])
  {
  }

  lemma {:induction false} PutWellFormed(l: Layout, files: Files, rec: seq<Byte>)
    requires WellFormed(l, files) && |rec| == STRIDE
    requires !Stale(l, files, l.ts(rec))
    ensures WellFormed(l, Put(files, DateOf(l.ts(rec)), rec))
  {
    var d := DateOf(l.ts(rec));
    PutRecords(files, d, rec);
    assert d in files ==> Newest(files) == Some(d);
    assert d !in files ==> RecsOf(files, d) == [];
    AppendInDay(l, d, RecsOf(files, d), rec);
  }

  /** A byte prefix of a file holds a record prefix of it. */
  lemma {:induction false} RecordsPrefix(bytes: seq<Byte>, k: nat)
    requires k <= |bytes|
    ensures Records(bytes[..k], STRIDE) <= Records(bytes, STRIDE)
  {
    hide Records, Trim;
    var t := Trim(bytes[..k]);
    var n := |t|;
    assert t == bytes[..n] && bytes == bytes[..n] + bytes[n..];
    RecordsSplit(t, bytes[n..], STRIDE);
  }

  /** What a crash leaves of every shard are its first records. */
  lemma {:induction false} CrashKeepsPrefix(files: Files, keep: nat, date: int)
    ensures RecsOf(CutNewest(files, keep), date) <= RecsOf(files, date)
  {
    hide Records;
    var n := Newest(files);
    if n.Some? && date == n.value {
      RecordsPrefix(files[n.value], Min(keep, |files[n.value]|));
    }
  }

  lemma {:induction false} CutWellFormed(l: Layout, files: Files, keep: nat)
    requires WellFormed(l, files)
    ensures WellFormed(l, CutNewest(files, keep))
  {
    var n := Newest(files);
    if n.Some? {
      var r := CutNewest(files, keep);
      RecordsPrefix(files[n.value], Min(keep, |files[n.value]|));
      forall d | d in r
        ensures InDay(l, d, RecsOf(r, d))
      {
        assert InDay(l, d, RecsOf(files, d));
      }
    }
  }

  lemma {:induction false} AfterWellFormed(l: Layout, files: Files, gate: bool, a: Action)
    requires l.Ok() && (a.Append? ==> |a.rec| == STRIDE) && WellFormed(l, files)
    ensures WellFormed(l, After(l, files, gate, a))
  {
    match a
    case Append(rec, now) =>
      SentinelSame(l, rec);
      if !Stale(l, files, l.ts(rec)) {
        PutWellFormed(l, files, rec);
        PutWellFormed(l, files, WithSentinel(l, rec));
      }
    case Reopen =>
    case Crash(keep) =>
      CutWellFormed(l, files, keep);
  }

  /** From a well-formed disk every reachable disk is well formed, crashes included. */
  lemma {:induction false} RunWellFormed(l: Layout, files: Files, gate: bool, run: Run)
    requires l.Ok() && OkRun(run) && WellFormed(l, files)
    ensures WellFormed(l, Exec(l, files, gate, run))
    decreases |run|
  {
    if run != [] {
      AfterWellFormed(l, files, gate, run[0]);
      RunWellFormed(l, After(l, files, gate, run[0]), gate, run[1..]);
    }
  }

  /** All records, shards in date order. */
  ghost function AllRecords(files: Files): seq<seq<Byte>>
    decreases |files.Keys|
  {
    var n := Newest(files);
    if n.None? then []
    else
      var older := files - {n.value};
      assert older.Keys == files.Keys - {n.value};
      AllRecords(older) + RecsOf(files, n.value)
  }

  lemma {:induction false} AllRecordsDated(l: Layout, files: Files, bound: int)
    requires WellFormed(l, files) && forall d :: d in files ==> d < bound
    ensures forall i :: 0 <= i < |AllRecords(files)| ==> DateOf(l.ts(AllRecords(files)[i])) < bound
    decreases |files.Keys|
  {
    var n := Newest(files);
    if n.Some? {
      var older := files - {n.value};
      assert older.Keys == files.Keys - {n.value};
      forall d | d in older
        ensures InDay(l, d, RecsOf(older, d))
      {
        assert InDay(l, d, RecsOf(files, d));
      }
      AllRecordsDated(l, older, bound);
      assert InDay(l, n.value, RecsOf(files, n.value));
    }
  }

  lemma {:induction false} DateMonotone(a: int, b: int)
    requires DateOf(a) < DateOf(b)
    ensures a < b
  {
    DayWindow(a, DateOf(a));
    DayWindow(b, DateOf(b));
  }

  /** Reading the shards of a well-formed disk in date order gives non-decreasing times. */
  lemma {:induction false} AllRecordsSorted(l: Layout, files: Files, i: nat, k: nat)
    requires WellFormed(l, files) && i <= k < |AllRecords(files)|
    ensures l.ts(AllRecords(files)[i]) <= l.ts(AllRecords(files)[k])
    decreases |files.Keys|
  {
    var n := Newest(files);
    var older := files - {n.value};
    assert older.Keys == files.Keys - {n.value};
    forall d | d in older
      ensures InDay(l, d, RecsOf(older, d))
    {
      assert InDay(l, d, RecsOf(files, d));
    }
    assert InDay(l, n.value, RecsOf(files, n.value));
    var m := |AllRecords(older)|;
    if k < m {
      AllRecordsSorted(l, older, i, k);
    } else if i < m {
      AllRecordsDated(l, older, n.value);
      DateMonotone(l.ts(AllRecords(files)[i]), l.ts(AllRecords(files)[k]));
    }
  }

  // ---- The delta gate loses no market state ----

  /** After every accepted observation the day's last record carries its quote. */
  lemma {:induction false} ObservationHeld(l: Layout, files: Files, gate: bool, rec: seq<Byte>, now: int)
    requires l.Ok() && |rec| == STRIDE && Accepted(l, files, rec, now)
    ensures var after, d := Step(l, files, gate, rec, now).0, DateOf(l.ts(rec));
            && RecsOf(after, d) != [] && l.quote(LastOf(after, d)) == l.quote(rec)
            && Newest(after) == Some(d)
  {
    var d := DateOf(l.ts(rec));
    SentinelSame(l, rec);
    PutRecords(files, d, rec);
    PutRecords(files, d, WithSentinel(l, rec));
    PutNewest(files, d, rec);
    PutNewest(files, d, WithSentinel(l, rec));
  }

  function Quotes(l: Layout, recs: seq<seq<Byte>>): (r: seq<Quote>)
    ensures |r| == |recs| && forall i :: 0 <= i < |recs| ==> r[i] == l.quote(recs[i])
  {
    seq(|recs|, i requires 0 <= i < |recs| => l.quote(recs[i]))
  }

  /** The accepted observations of one date along a run, in arrival order. */
  ghost function Observed(l: Layout, files: Files, gate: bool, run: Run, date: int): seq<Quote>
    requires l.Ok() && OkRun(run)
    decreases |run|
  {
    if run == [] then []
    else
      var a := run[0];
      var rest := Observed(l, After(l, files, gate, a), gate, run[1..], date);
      if a.Append? && Accepted(l, files, a.rec, a.now) && DateOf(l.ts(a.rec)) == date
      then [l.quote(a.rec)] + rest else rest
  }

  /** A history of states without immediate repetitions. */
  function Collapse<T(==)>(s: seq<T>): seq<T> {
    if |s| <= 1 then s
    else
      var n := |s| - 1;
      if s[n] == s[n - 1] then Collapse(s[..n]) else Collapse(s[..n]) + [s[n]]
  }

  lemma {:induction false} CollapseDup<T>(a: seq<T>, q: T, x: seq<T>)
    requires a != [] && a[|a| - 1] == q
    ensures Collapse(a + [q] + x) == Collapse(a + x)
  {
    if x == [] {
      assert a + [q] + x == a + [q] && a + x == a;
      assert (a + [q])[..|a|] == a;
    } else {
      var n := |x| - 1;
      CollapseDup(a, q, x[..n]);
      assert (a + [q] + x)[..|a| + 1 + n] == a + [q] + x[..n];
      assert (a + x)[..|a| + n] == a + x[..n];
    }
  }

  lemma {:induction false} HistoryStep<T>(a: seq<T>, b: seq<T>, q: T, rest: seq<T>)
    ensures b == a + [q] || (b == a && a != [] && a[|a| - 1] == q) ==>
              Collapse(a + ([q] + rest)) == Collapse(b + rest)
  {
    assert a + [q] + rest == a + ([q] + rest);
    if b == a && a != [] && a[|a| - 1] == q {
      CollapseDup(a, q, rest);
    }
  }

  /** One accepted observation is either appended to its day or repeats the day's last state. */
  lemma {:induction false} StepHistory(l: Layout, files: Files, gate: bool, rec: seq<Byte>, now: int, date: int)
    requires l.Ok() && |rec| == STRIDE
    ensures var a := Quotes(l, RecsOf(files, date));
            var b := Quotes(l, RecsOf(Step(l, files, gate, rec, now).0, date));
            if Accepted(l, files, rec, now) && DateOf(l.ts(rec)) == date
            then b == a + [l.quote(rec)] || (b == a && a != [] && a[|a| - 1] == l.quote(rec))
            else b == a
  {
    hide Put, RecsOf, OutOfBounds, Stale, WithSentinel, DateOf, Layout.Ok;
    var d := DateOf(l.ts(rec));
    SentinelSame(l, rec);
    PutRecords(files, d, rec);
    PutRecords(files, d, WithSentinel(l, rec));
  }

  lemma {:induction false} StretchReconstructsDay(l: Layout, files: Files, gate: bool, run: Run, date: int)
    requires l.Ok() && OkRun(run) && NoCrash(run)
    ensures Collapse(Quotes(l, RecsOf(Exec(l, files, gate, run), date)))
         == Collapse(Quotes(l, RecsOf(files, date)) + Observed(l, files, gate, run, date))
    decreases |run|
  {
    var a := Quotes(l, RecsOf(files, date));
    if run == [] {
      assert a + [] == a;
    } else {
      var next := After(l, files, gate, run[0]);
      StretchReconstructsDay(l, next, gate, run[1..], date);
      if run[0].Append? {
        StepHistory(l, files, gate, run[0].rec, run[0].now, date);
        hide Step, Accepted, RecsOf, Quotes, Collapse;
        HistoryStep(a, Quotes(l, RecsOf(next, date)), l.quote(run[0].rec), Observed(l, next, gate, run[1..], date));
      }
    }
  }

  /** Each day's shard alone reconstructs the day's sequence of distinct market states, in arrival
      order, over any run, gate on or off: those the last crash left, then every accepted one since. */
  lemma {:induction false} ShardReconstructsDay(l: Layout, files: Files, gate: bool, run: Run, date: int)
    requires l.Ok() && OkRun(run)
    ensures var (kept, since) := SinceCrash(l, files, gate, run);
            Collapse(Quotes(l, RecsOf(Exec(l, files, gate, run), date)))
            == Collapse(Quotes(l, RecsOf(kept, date)) + Observed(l, kept, gate, since, date))
  {
    hide Exec, Collapse, Observed, RecsOf, SinceCrash;
    var (kept, since) := SinceCrash(l, files, gate, run);
    StretchReconstructsDay(l, kept, gate, since, date);
  }

  // ---- The sentinel bounds the holes on disk ----

  /** Timestamps of the records written along a run. */
  ghost function WrittenTimes(l: Layout, files: Files, gate: bool, run: Run): seq<int>
    requires l.Ok() && OkRun(run)
    decreases |run|
  {
    if run == [] then []
    else
      var a := run[0];
      var rest := WrittenTimes(l, After(l, files, gate, a), gate, run[1..]);
      if a.Append? && Step(l, files, gate, a.rec, a.now).1 == Written then [l.ts(a.rec)] + rest else rest
  }

  /** Every accepted observation comes at most `g` ms after the accepted one before it. */
  ghost predicate Steady(l: Layout, files: Files, gate: bool, run: Run, prev: Option<int>, g: int)
    requires l.Ok() && OkRun(run)
    decreases |run|
  {
    run == [] ||
    (var a := run[0];
     var next := After(l, files, gate, a);
     if a.Append? && Accepted(l, files, a.rec, a.now) then
       && (prev.Some? ==> l.ts(a.rec) <= prev.value + g)
       && Steady(l, next, gate, run[1..], Some(l.ts(a.rec)), g)
     else
       Steady(l, next, gate, run[1..], prev, g))
  }

  predicate GapsWithin(times: seq<int>, bound: int) {
    forall i :: 0 < i < |times| ==> times[i] - times[i - 1] <= bound
  }

  /** The last accepted observation is less than a sentinel interval past the last record. */
  ghost predicate Fresh(l: Layout, files: Files, prev: Option<int>) {
    prev.Some? ==>
      var n := Newest(files);
      && n.Some? && RecsOf(files, n.value) != []
      && prev.value - l.ts(LastOf(files, n.value)) < SENTINEL_INTERVAL_MS
  }

  ghost function Lead(l: Layout, files: Files, prev: Option<int>): seq<int>
    requires Fresh(l, files, prev)
  {
    if prev.Some? then [l.ts(LastOf(files, Newest(files).value))] else []
  }

  /** With the gate on, an accepted observation leaves the disk fresh, and a written record
      comes within `g` plus a sentinel interval of the last one. */
  lemma {:induction false} StepFresh(l: Layout, files: Files, rec: seq<Byte>, now: int)
    requires l.Ok() && |rec| == STRIDE && Accepted(l, files, rec, now)
    ensures var (next, o) := Step(l, files, true, rec, now);
            && Fresh(l, next, Some(l.ts(rec)))
            && (if o == Written then l.ts(LastOf(next, Newest(next).value)) == l.ts(rec) else next == files)
  {
    var d := DateOf(l.ts(rec));
    SentinelSame(l, rec);
    PutRecords(files, d, rec);
    PutRecords(files, d, WithSentinel(l, rec));
    PutNewest(files, d, rec);
    PutNewest(files, d, WithSentinel(l, rec));
  }

  /** If accepted observations come at most `g` ms apart, consecutive records on disk are at
      most `g + 59_999` ms apart, restarts included. A longer hole on disk therefore means
      the producer had one. */
  lemma {:induction false} SentinelGapBound(l: Layout, files: Files, run: Run, prev: Option<int>, g: int)
    requires l.Ok() && OkRun(run) && NoCrash(run)
    requires Steady(l, files, true, run, prev, g) && Fresh(l, files, prev)
    ensures GapsWithin(Lead(l, files, prev) + WrittenTimes(l, files, true, run), g + SENTINEL_INTERVAL_MS - 1)
    decreases |run|
  {
    if run != [] {
      var a := run[0];
      var next := After(l, files, true, a);
      if a.Append? && Accepted(l, files, a.rec, a.now) {
        StepFresh(l, files, a.rec, a.now);
        SentinelGapBound(l, next, run[1..], Some(l.ts(a.rec)), g);
        var w := WrittenTimes(l, next, true, run[1..]);
        hide Step, Accepted, RecsOf, LastOf;
        GapsLead(Lead(l, files, prev), Lead(l, next, Some(l.ts(a.rec))), w, g + SENTINEL_INTERVAL_MS - 1);
      } else {
        SentinelGapBound(l, next, run[1..], prev, g);
      }
    }
  }

  lemma {:induction false} GapsTail(b: int, w: seq<int>, bound: int)
    requires GapsWithin([b] + w, bound)
    ensures GapsWithin(w, bound)
  {
    forall i | 0 < i < |w|
      ensures w[i] - w[i - 1] <= bound
    {
      assert w[i] == ([b] + w)[i + 1] && w[i - 1] == ([b] + w)[i];
    }
  }

  lemma {:induction false} GapsCons(a: int, w: seq<int>, bound: int)
    requires w != [] && GapsWithin(w, bound) && w[0] - a <= bound
    ensures GapsWithin([a] + w, bound)
  {
    forall i | 0 < i < |[a] + w|
      ensures ([a] + w)[i] - ([a] + w)[i - 1] <= bound
    {
      assert ([a] + w)[i] == w[i - 1];
    }
  }

  lemma {:induction false} GapsLead(a: seq<int>, b: seq<int>, w: seq<int>, bound: int)
    requires |a| <= 1 && |b| == 1 && GapsWithin(b + w, bound)
    ensures a == [] ==> GapsWithin(a + w, bound) && GapsWithin(a + (b + w), bound)
    ensures a == b ==> GapsWithin(a + w, bound)
    ensures a != [] && b[0] - a[0] <= bound ==> GapsWithin(a + (b + w), bound)
  {
    assert b == [b[0]];
    GapsTail(b[0], w, bound);
    if a == [] {
      assert a + w == w && a + (b + w) == b + w;
    } else if b[0] - a[0] <= bound {
      assert a == [a[0]];
      GapsCons(a[0], b + w, bound);
    }
  }

  // ---- The holes are those of the records on disk ----

  function Times(l: Layout, recs: seq<seq<Byte>>): (r: seq<int>)
    ensures |r| == |recs| && forall i :: 0 <= i < |recs| ==> r[i] == l.ts(recs[i])
  {
    seq(|recs|, i requires 0 <= i < |recs| => l.ts(recs[i]))
  }

  /** A write to the newest date or a later one adds its record at the very end of the disk. */
  lemma {:induction false} PutAtEnd(files: Files, date: int, rec: seq<Byte>)
    requires |rec| == STRIDE && (Newest(files).None? || Newest(files).value <= date)
    ensures AllRecords(Put(files, date, rec)) == AllRecords(files) + [rec]
  {
    var put := Put(files, date, rec);
    PutRecords(files, date, rec);
    PutNewest(files, date, rec);
    hide Records, Trim;
    assert (put - {date}).Keys == files.Keys - {date};
    assert put - {date} == files - {date};
    if date in files {
      assert Newest(files) == Some(date);
    } else {
      assert files - {date} == files && RecsOf(files, date) == [] by { NoShard(files, date); }
    }
  }

  lemma {:induction false} NoShard(files: Files, date: int)
    requires date !in files
    ensures RecsOf(files, date) == []
  {
  }

  /** The last record of the newest shard is the last record on disk. */
  lemma {:induction false} LastOnDisk(files: Files)
    requires Newest(files).Some? && RecsOf(files, Newest(files).value) != []
    ensures AllRecords(files) != []
    ensures AllRecords(files)[|AllRecords(files)| - 1] == LastOf(files, Newest(files).value)
  {
    hide Records;
  }

  lemma {:induction false} StepAtEnd(l: Layout, files: Files, gate: bool, rec: seq<Byte>, now: int)
    requires l.Ok() && |rec| == STRIDE
    ensures var (next, o) := Step(l, files, gate, rec, now);
            Times(l, AllRecords(next)) == Times(l, AllRecords(files)) + if o == Written then [l.ts(rec)] else []
  {
    hide AllRecords, News, SentinelDue, OutOfBounds, Put, RecsOf;
    SentinelSame(l, rec);
    var d := DateOf(l.ts(rec));
    if !Stale(l, files, l.ts(rec)) {
      PutAtEnd(files, d, rec);
      PutAtEnd(files, d, WithSentinel(l, rec));
    }
  }

  /** The times written along a run are exactly those the disk gains. */
  lemma {:induction false} WrittenIsOnDisk(l: Layout, files: Files, gate: bool, run: Run)
    requires l.Ok() && OkRun(run) && NoCrash(run)
    ensures Times(l, AllRecords(Exec(l, files, gate, run)))
         == Times(l, AllRecords(files)) + WrittenTimes(l, files, gate, run)
    decreases |run|
  {
    hide AllRecords, Step;
    if run != [] {
      WrittenIsOnDisk(l, After(l, files, gate, run[0]), gate, run[1..]);
      if run[0].Append? {
        StepAtEnd(l, files, gate, run[0].rec, run[0].now);
      }
    }
  }

  /** The bound on the disk itself, over any run: with accepted observations at most `g` ms apart since
      the last crash, every record written since then follows the record before it on disk by at most
      `g + 59_999` ms. Without an earlier observation to start from the first one is exempt. */
  lemma {:induction false} DiskGapBound(l: Layout, files: Files, run: Run, prev: Option<int>, g: int, i: nat)
    requires l.Ok() && OkRun(run)
    requires var (kept, since) := SinceCrash(l, files, true, run);
             && Steady(l, kept, true, since, prev, g) && Fresh(l, kept, prev)
             && |AllRecords(kept)| + (if prev.None? then 1 else 0) <= i < |AllRecords(Exec(l, files, true, run))|
    ensures var recs := AllRecords(Exec(l, files, true, run));
            i > 0 && l.ts(recs[i]) - l.ts(recs[i - 1]) <= g + SENTINEL_INTERVAL_MS - 1
  {
    hide Exec, AllRecords, Steady, WrittenTimes, RecsOf, Records, SinceCrash;
    var (kept, since) := SinceCrash(l, files, true, run);
    SentinelGapBound(l, kept, since, prev, g);
    WrittenIsOnDisk(l, kept, true, since);
    var before, w, n := Times(l, AllRecords(kept)), WrittenTimes(l, kept, true, since), |AllRecords(kept)|;
    var all := Times(l, AllRecords(Exec(l, files, true, run)));
    assert all == before + w;
    var lead := Lead(l, kept, prev);
    if prev.Some? {
      LastOnDisk(kept);
      assert (lead + w)[i - n] == all[i - 1] && (lead + w)[i - n + 1] == all[i];
    } else {
      assert (lead + w)[i - n - 1] == all[i - 1] && (lead + w)[i - n] == all[i];
    }
  }
}
