/** What one append does, in milliseconds, flag bits and bytes, and what the delta gate keeps off the disk
    over whole runs.
 */
module ShardLaws {
  import opened ShardReader
  import opened ShardWriter
  import opened ShardRuns

  // ---- One append ----

  /** The whole records of a day's shard; none when there is no shard. */
  ghost function OnDisk(files: Files, day: int): seq<seq<Byte>> {
    if day in files then Records(files[day], 56) else []
  }

  /** Further ahead than a minute, or older than 730 days without the backfill bit. */
  ghost predicate TooFar(l: Layout, rec: seq<Byte>, now: int)
    requires l.flagAt < |rec|
  {
    l.ts(rec) > now + 60_000 || (rec[l.flagAt] & 2 == 0 && l.ts(rec) < now - 63_072_000_000)
  }

  /** A shard of a later day is there, or a record of that day with a later timestamp ends its shard. */
  ghost predicate Straggler(l: Layout, files: Files, rec: seq<Byte>, day: int) {
    var recs := OnDisk(files, day);
    (exists d :: d in files && d > day) || (recs != [] && l.ts(rec) < l.ts(recs[|recs| - 1]))
  }

  /** Some field of the market observation differs. */
  predicate Differs(a: Quote, b: Quote) {
    a.bid != b.bid || a.ask != b.ask || a.vbid != b.vbid || a.vask != b.vask || a.ci != b.ci
  }

  /** The record itself is to be written: no gate, nothing of the day to compare with, or a change. */
  ghost predicate Changed(l: Layout, files: Files, gate: bool, rec: seq<Byte>, day: int) {
    var recs := OnDisk(files, day);
    !gate || recs == [] || Differs(l.quote(recs[|recs| - 1]), l.quote(rec))
  }

  /** The record with bit 0 of its flag byte set and no other byte changed. */
  ghost predicate IsSentinelOf(l: Layout, w: seq<Byte>, rec: seq<Byte>) {
    && |w| == |rec| && l.flagAt < |rec|
    && w[l.flagAt] == rec[l.flagAt] | 1
    && forall i :: 0 <= i < |rec| && i != l.flagAt ==> w[i] == rec[i]
  }

  lemma {:induction false} NewestBounds(files: Files, day: int)
    ensures (exists d :: d in files && d > day) <==> Newest(files).Some? && Newest(files).value > day
    ensures day in files && !(exists d :: d in files && d > day) ==> Newest(files).Some? && Newest(files).value == day
  {
  }

  /** Which answer an append gives: the exact condition for each. */
  lemma {:induction false} AnswerExactly(l: Layout, files: Files, gate: bool, rec: seq<Byte>, now: int, day: int)
    requires l.Ok() && |rec| == 56
    requires day * 86_400_000 <= l.ts(rec) < day * 86_400_000 + 86_400_000
    ensures var r, recs := Step(l, files, gate, rec, now).1, OnDisk(files, day);
            && (r == Rejected <==> TooFar(l, rec, now))
            && (r == Written <==>
                 && !TooFar(l, rec, now) && !Straggler(l, files, rec, day)
                 && (Changed(l, files, gate, rec, day) || l.ts(rec) >= l.ts(recs[|recs| - 1]) + 60_000))
  {
    hide Put, Records, WithSentinel, Newest;
    DayWindow(l.ts(rec), day);
    NewestBounds(files, day);
  }

  /** What it leaves: nothing but a written record changes the disk, and a written record is the only change:
      the last one of its day, behind all whole records that were there, the very bytes that came in or,
      where nothing changed for a minute, its sentinel. */
  lemma {:induction false} DiskExactly(l: Layout, files: Files, gate: bool, rec: seq<Byte>, now: int, day: int)
    requires l.Ok() && |rec| == 56
    requires day * 86_400_000 <= l.ts(rec) < day * 86_400_000 + 86_400_000
    ensures var (next, r) := Step(l, files, gate, rec, now);
            && (r != Written ==> next == files)
            && (r == Written ==>
                 && next.Keys == files.Keys + {day} && (forall d :: d in files && d != day ==> next[d] == files[d])
                 && |next[day]| % 56 == 0
                 && OnDisk(next, day) != [] && OnDisk(next, day)[..|OnDisk(next, day)| - 1] == OnDisk(files, day)
                 && var w := OnDisk(next, day)[|OnDisk(next, day)| - 1];
                    if Changed(l, files, gate, rec, day) then w == rec else IsSentinelOf(l, w, rec))
  {
    hide Put, Records, Newest;
    DayWindow(l.ts(rec), day);
    NewestBounds(files, day);
    SentinelSame(l, rec);
    NoRecords(56);
    PutRecords(files, day, rec);
    PutRecords(files, day, WithSentinel(l, rec));
    PutElsewhere(files, day, rec);
    PutElsewhere(files, day, WithSentinel(l, rec));
  }

  lemma {:induction false} PutElsewhere(files: Files, day: int, rec: seq<Byte>)
    ensures forall d :: d in files && d != day ==> Put(files, day, rec)[d] == files[d]
    ensures day in Put(files, day, rec)
  {
  }

  /** A repeated observation inside the minute leaves no trace, and one with the timestamp of the last record
      that says something new is kept. */
  lemma {:induction false} RepeatsLeaveNothing(l: Layout, files: Files, rec: seq<Byte>, now: int, day: int)
    requires l.Ok() && |rec| == 56 && !TooFar(l, rec, now)
    requires day in files && (forall d :: d in files ==> d <= day) && OnDisk(files, day) != []
    requires day * 86_400_000 <= l.ts(rec) < day * 86_400_000 + 86_400_000
    ensures var recs := OnDisk(files, day);
            var last := recs[|recs| - 1];
            var (next, r) := Step(l, files, true, rec, now);
            && (l.quote(rec) == l.quote(last) && l.ts(last) <= l.ts(rec) < l.ts(last) + 60_000 ==>
                 next == files && r == Skipped)
            && (l.quote(rec) != l.quote(last) && l.ts(rec) == l.ts(last) ==>
                 r == Written && OnDisk(next, day) == recs + [rec])
  {
    hide Step, Records, Newest;
    AnswerExactly(l, files, true, rec, now, day);
    DiskExactly(l, files, true, rec, now, day);
  }

  /** A crash keeps the first `keep` bytes of the shard of the latest day and touches no other shard. */
  lemma {:induction false} CrashLaw(files: Files, keep: nat, day: int)
    requires day in files && forall d :: d in files ==> d <= day
    ensures var r := CutNewest(files, keep);
            && r.Keys == files.Keys && (forall d :: d in files && d != day ==> r[d] == files[d])
            && r[day] == if keep < |files[day]| then files[day][..keep] else files[day]
  {
    NewestIs(files, day);
    assert files[day][..|files[day]|] == files[day];
  }

  // ---- Whole runs ----

  /** Of two neighbouring records the later one says something new, or it is a sentinel at least a minute
      after the other. */
  ghost predicate Lean(l: Layout, recs: seq<seq<Byte>>) {
    forall i :: 0 < i < |recs| ==>
      || Differs(l.quote(recs[i - 1]), l.quote(recs[i]))
      || (l.ts(recs[i]) >= l.ts(recs[i - 1]) + 60_000
          && l.flagAt < |recs[i]| && recs[i][l.flagAt] & 1 == 1)
  }

  ghost predicate LeanDisk(l: Layout, files: Files) { forall day: int :: Lean(l, OnDisk(files, day)) }

  lemma {:induction false} LowestBit(b: Byte)
    ensures (b | 1) & 1 == 1
  {
  }

  lemma {:induction false} AppendLean(l: Layout, files: Files, rec: seq<Byte>, now: int)
    requires l.Ok() && |rec| == 56 && LeanDisk(l, files)
    ensures LeanDisk(l, Step(l, files, true, rec, now).0)
  {
    hide Step, Records, TooFar, Straggler, Layout.Ok;
    var day := DateOf(l.ts(rec));
    DayWindow(l.ts(rec), day);
    AnswerExactly(l, files, true, rec, now, day);
    DiskExactly(l, files, true, rec, now, day);
    SentinelSame(l, rec);
    LowestBit(rec[l.flagAt]);
    var next := Step(l, files, true, rec, now).0;
    forall d: int
      ensures Lean(l, OnDisk(next, d))
    {
      assert Lean(l, OnDisk(files, d));
      assert d != day ==> OnDisk(next, d) == OnDisk(files, d);
      if d == day && next != files {
        SentinelQuote(l, OnDisk(next, d)[|OnDisk(next, d)| - 1], rec);
      }
    }
  }

  /** A sentinel has the timestamp and the quote of the record it stands for. */
  lemma {:induction false} SentinelQuote(l: Layout, w: seq<Byte>, rec: seq<Byte>)
    requires l.Ok() && |rec| == 56
    ensures IsSentinelOf(l, w, rec) ==> l.ts(w) == l.ts(rec) && l.quote(w) == l.quote(rec)
  {
    if IsSentinelOf(l, w, rec) {
      assert w == l.Flagged(rec, rec[l.flagAt] | 1);
    }
  }

  lemma {:induction false} CutLean(l: Layout, files: Files, keep: nat)
    requires LeanDisk(l, files)
    ensures LeanDisk(l, CutNewest(files, keep))
  {
    hide Records, Newest;
    NoRecords(56);
    forall day: int
      ensures Lean(l, OnDisk(CutNewest(files, keep), day))
    {
      CrashKeepsPrefix(files, keep, day);
      assert Lean(l, OnDisk(files, day));
    }
  }

  /** The gate keeps every shard lean over any run, clean reopens and crashes included. */
  lemma {:induction false} RunLean(l: Layout, files: Files, run: Run)
    requires l.Ok() && OkRun(run) && LeanDisk(l, files)
    ensures LeanDisk(l, Exec(l, files, true, run))
    decreases |run|
  {
    hide LeanDisk, Step, CutNewest;
    if run != [] {
      if run[0].Append? {
        AppendLean(l, files, run[0].rec, run[0].now);
      } else if run[0].Crash? {
        CutLean(l, files, run[0].keep);
      }
      RunLean(l, After(l, files, true, run[0]), run[1..]);
    }
  }

  /** From an empty directory every shard a gated writer ever leaves is lean. */
  lemma {:induction false} NewShardsLean(l: Layout, run: Run, day: int)
    requires l.Ok() && OkRun(run)
    ensures Lean(l, OnDisk(Exec(l, map[], true, run), day))
  {
    hide Exec;
    RunLean(l, map[], run);
  }
}
