/** The delta-gated daily-shard writer. Its many cached fields are only a faster way to
    compute what the disk alone decides: `Step` is that simple form, and the writer is
    proved to refine it across appends, restarts and crashes.
 */
module ShardWriter {
  import opened IntSets
  import opened Optional
  import opened ShardReader

  const MS_PER_DAY: int := 86_400_000
  const MS_PER_MIN: int := 60_000
  const SENTINEL_INTERVAL_MS: int := 60_000
  const STRIDE: nat := 56
  const I64_MAX: int := 0x7FFF_FFFF_FFFF_FFFF
  const I64_MIN: int := -0x8000_0000_0000_0000

  const FLAG_HEARTBEAT_SENTINEL: Byte := 1
  const FLAG_HISTORICAL_BACKFILL: Byte := 2

  // ---- Records ----

  /** The market state a record carries; the delta gate compares all of it. */
  datatype Quote = Quote(bid: real, ask: real, vbid: nat, vask: nat, ci: nat)

  /** Where the fields of a raw record are: the flag byte, the timestamp, the quote. */
  datatype Layout = Layout(flagAt: nat, ts: seq<Byte> -> int, quote: seq<Byte> -> Quote)
  {
    /** The flag byte is its own field. */
    ghost predicate Ok() {
      && flagAt < STRIDE
      && forall r: seq<Byte>, b: Byte :: |r| == STRIDE ==>
           ts(Flagged(r, b)) == ts(r) && quote(Flagged(r, b)) == quote(r)
    }

    /** The record with its flag byte replaced. */
    function Flagged(r: seq<Byte>, b: Byte): seq<Byte> {
      if flagAt < |r| then r[flagAt := b] else r
    }
  }

  /** Timestamp to UTC date, as days since the epoch: floor to seconds, then to days. */
  function DateOf(ts: int): int { ts / 1000 / 86_400 }

  function DayStart(date: int): int { date * MS_PER_DAY }

  /** The day window `[start, start + 24 h)` is exactly the span of its date. */
  lemma {:induction false} DayWindow(ts: int, date: int)
    ensures DateOf(ts) == date <==> DayStart(date) <= ts < DayStart(date) + MS_PER_DAY
  {
    var secs := ts / 1000;
    assert secs * 1000 <= ts < secs * 1000 + 1000;
    var d := secs / 86_400;
    assert d * 86_400 <= secs < d * 86_400 + 86_400;
  }

  // ---- The disk ----

  /** Shard files by date. */
  type Files = map<int, seq<Byte>>

  function Get(files: Files, date: int): seq<Byte> { if date in files then files[date] else [] }

  function RecsOf(files: Files, date: int): seq<seq<Byte>> { Records(Get(files, date), STRIDE) }

  /** A file without its torn tail. */
  function Trim(bytes: seq<Byte>): (r: seq<Byte>)
    ensures |r| % STRIDE == 0 && r <= bytes
    ensures Records(r, STRIDE) == Records(bytes, STRIDE)
    ensures |bytes| % STRIDE == 0 ==> r == bytes
  {
    var n := |bytes| / STRIDE * STRIDE;
    RecordsTorn(bytes[..n], bytes[n..], STRIDE);
    assert bytes[..n] + bytes[n..] == bytes;
    bytes[..n]
  }

  /** The latest shard date, if there is any shard. */
  ghost function Newest(files: Files): (r: Option<int>)
    ensures r.None? <==> files.Keys == {}
    ensures r.Some? ==> IsMax(files.Keys, r.value)
  {
    if files.Keys == {} then None else Some(MaxOf(files.Keys))
  }

  lemma {:induction false} NewestIs(files: Files, date: int)
    requires IsMax(files.Keys, date)
    ensures Newest(files) == Some(date)
  {
  }

  // ---- The simple form: one append, decided from the disk alone ----

  datatype Outcome = Written | Skipped | Rejected

  function WithSentinel(l: Layout, rec: seq<Byte>): seq<Byte>
    requires l.flagAt < |rec|
  {
    l.Flagged(rec, rec[l.flagAt] | FLAG_HEARTBEAT_SENTINEL)
  }

  /** A sentinel carries the same timestamp and quote. */
  lemma {:induction false} SentinelSame(l: Layout, rec: seq<Byte>)
    requires l.Ok() && |rec| == STRIDE
    ensures l.flagAt < STRIDE && |WithSentinel(l, rec)| == STRIDE
    ensures l.ts(WithSentinel(l, rec)) == l.ts(rec) && l.quote(WithSentinel(l, rec)) == l.quote(rec)
  {
  }

  /** The timestamp is too far in the future, or too old for a live record. */
  predicate OutOfBounds(l: Layout, rec: seq<Byte>, now: int)
    requires l.flagAt < |rec|
  {
    || l.ts(rec) > now + MS_PER_MIN
    || (rec[l.flagAt] & FLAG_HISTORICAL_BACKFILL == 0 && l.ts(rec) < now - 730 * MS_PER_DAY)
  }

  /** Older than what is on disk: a previous day, or before the day's last record. */
  ghost predicate Stale(l: Layout, files: Files, ts: int) {
    var n := Newest(files);
    n.Some? && (DateOf(ts) < n.value
                || (DateOf(ts) == n.value && RecsOf(files, n.value) != [] && ts < l.ts(LastOf(files, n.value))))
  }

  function LastOf(files: Files, date: int): seq<Byte>
    requires RecsOf(files, date) != []
  {
    var r := RecsOf(files, date);
    r[|r| - 1]
  }

  /** An observation the writer takes into account. */
  ghost predicate Accepted(l: Layout, files: Files, rec: seq<Byte>, now: int)
    requires l.flagAt < |rec|
  {
    !OutOfBounds(l, rec, now) && !Stale(l, files, l.ts(rec))
  }

  /** The quote differs from the last one on disk, or the day is new. */
  ghost predicate News(l: Layout, files: Files, rec: seq<Byte>) {
    var d := DateOf(l.ts(rec));
    || Newest(files) != Some(d)
    || RecsOf(files, d) == []
    || l.quote(LastOf(files, d)) != l.quote(rec)
  }

  ghost predicate SentinelDue(l: Layout, files: Files, rec: seq<Byte>) {
    var d := DateOf(l.ts(rec));
    RecsOf(files, d) != [] && l.ts(rec) - l.ts(LastOf(files, d)) >= SENTINEL_INTERVAL_MS
  }

  function Put(files: Files, date: int, rec: seq<Byte>): Files {
    files[date := Trim(Get(files, date)) + rec]
  }

  ghost function Step(l: Layout, files: Files, gate: bool, rec: seq<Byte>, now: int): (Files, Outcome)
    requires l.flagAt < |rec|
  {
    var d := DateOf(l.ts(rec));
    if OutOfBounds(l, rec, now) then (files, Rejected)
    else if Stale(l, files, l.ts(rec)) then (files, Skipped)
    else if !gate || News(l, files, rec) then (Put(files, d, rec), Written)
    else if SentinelDue(l, files, rec) then (Put(files, d, WithSentinel(l, rec)), Written)
    else (files, Skipped)
  }

  /** What a write leaves on disk: that date's records plus the new one, all else untouched. */
  lemma {:induction false} PutRecords(files: Files, date: int, rec: seq<Byte>)
    requires |rec| == STRIDE
    ensures RecsOf(Put(files, date, rec), date) == RecsOf(files, date) + [rec]
    ensures LastOf(Put(files, date, rec), date) == rec
    ensures forall d :: d != date ==> RecsOf(Put(files, date, rec), d) == RecsOf(files, d)
    ensures Put(files, date, rec).Keys == files.Keys + {date}
    ensures |Put(files, date, rec)[date]| % STRIDE == 0
  {
    var t := Trim(Get(files, date));
    RecordsSplit(t, rec, STRIDE);
    assert rec[..STRIDE] == rec && rec[STRIDE..] == [];
    assert Records(rec, STRIDE) == [rec];
  }

  /** An accepted record never precedes the newest shard, so its shard is the newest afterwards. */
  lemma {:induction false} PutNewest(files: Files, date: int, rec: seq<Byte>)
    requires Newest(files).None? || Newest(files).value <= date
    ensures Newest(Put(files, date, rec)) == Some(date)
  {
    NewestIs(Put(files, date, rec), date);
  }

  // ---- The disk object ----

  class Disk {
    var files: Files

    constructor (initial: Files)
      ensures files == initial
    {
      files := initial;
    }

    /** The dates with a shard, newest last; only the last one is needed. */
    method NewestShard() returns (r: Option<int>)
      ensures r == Newest(files)
    {
      if files.Keys == {} {
        return None;
      }
      var newest := FindMax(files.Keys);
      r := Some(newest);
    }

    /** Open a shard for appending: create it if missing, truncate a torn tail. */
    method OpenLog(date: int)
      modifies this
      ensures files == old(files)[date := Trim(Get(old(files), date))]
    {
      files := files[date := Trim(Get(files, date))];
    }

    method AppendLog(date: int, rec: seq<Byte>)
      requires date in files
      modifies this
      ensures files == old(files)[date := old(files)[date] + rec]
    {
      files := files[date := files[date] + rec];
    }
  }

  // ---- The writer ----

  class IdxShardWriter {
    const l: Layout
    const disk: Disk
    const gate: bool
    var curDate: Option<int>
    /** The shard the open log appends to, if a log is open. */
    var log: Option<int>
    var haveLast: bool
    var lastBid: real
    var lastAsk: real
    var lastVbid: nat
    var lastVask: nat
    var lastCi: nat
    var lastWrittenTs: int
    var curDayStartMs: int
    var curDayEndMs: int

    ghost function Baseline(): Quote
      reads this`lastBid, this`lastAsk, this`lastVbid, this`lastVask, this`lastCi
    {
      Quote(lastBid, lastAsk, lastVbid, lastVask, lastCi)
    }

    method Remember(q: Quote)
      modifies this`lastBid, this`lastAsk, this`lastVbid, this`lastVask, this`lastCi, this`haveLast
      ensures Baseline() == q && haveLast
    {
      lastBid, lastAsk, lastVbid, lastVask, lastCi := q.bid, q.ask, q.vbid, q.vask, q.ci;
      haveLast := true;
    }

    /** The gate's baseline is the last record of the newest shard. */
    ghost predicate Seeded()
      reads this, disk
    {
      && (haveLast <==> curDate.Some? && RecsOf(disk.files, curDate.value) != [])
      && (haveLast ==> l.quote(LastOf(disk.files, curDate.value)) == Baseline()
                       && lastWrittenTs == l.ts(LastOf(disk.files, curDate.value)))
    }

    /** The cached day window is empty, or the day of the newest shard. */
    ghost predicate WindowOk()
      reads this`curDate, this`curDayStartMs, this`curDayEndMs
    {
      || (curDayStartMs == I64_MAX && curDayEndMs == I64_MIN)
      || (curDate.Some? && curDayStartMs == DayStart(curDate.value) && curDayEndMs == curDayStartMs + MS_PER_DAY)
    }

    /** Every cached field agrees with the disk. */
    ghost predicate Valid()
      reads this, disk
    {
      && l.Ok()
      && curDate == Newest(disk.files)
      && Seeded()
      && WindowOk()
      && LogOk()
    }

    /** Open a writer on whatever is on disk, torn tails included. */
    constructor Open(layout: Layout, d: Disk, deltaGate: bool)
      requires layout.Ok()
      ensures Valid() && l == layout && disk == d && gate == deltaGate
    {
      l, disk, gate := layout, d, deltaGate;
      curDate, log := None, None;
      haveLast := false;
      lastBid, lastAsk, lastVbid, lastVask, lastCi := 0.0, 0.0, 0, 0, 0;
      lastWrittenTs := 0;
      curDayStartMs, curDayEndMs := I64_MAX, I64_MIN;
      new;
      SeedFromTail();
    }

    method SeedFromTail()
      requires l.Ok() && curDate.None? && log.None? && !haveLast
      requires curDayStartMs == I64_MAX && curDayEndMs == I64_MIN
      modifies this
      ensures Valid()
    {
      hide Records;
      var newest := disk.NewestShard();
      if newest.Some? {
        curDate := newest;
        var recs := ReadShardTail(disk.files[newest.value], 4, STRIDE);
        assert recs != [] <==> RecsOf(disk.files, newest.value) != [];
        assert recs != [] ==> recs[|recs| - 1] == LastOf(disk.files, newest.value);
        hide RecsOf, LastOf, Newest, Layout.Ok;
        if |recs| > 0 {
          var q := l.quote(recs[|recs| - 1]);
          Remember(q);
          lastWrittenTs := l.ts(recs[|recs| - 1]);
        }
      }
    }

    /** Make the open log the shard of `date`, creating or healing it. */
    method EnsureShard(date: int)
      requires LogOk()
      modifies this`log, this`curDate, this`curDayStartMs, this`curDayEndMs, disk
      ensures log == curDate == Some(date)
      ensures disk.files == old(disk.files)[date := Trim(Get(old(disk.files), date))]
      ensures (curDayStartMs, curDayEndMs) == (DayStart(date), DayStart(date) + MS_PER_DAY)
           || (old(curDate) == Some(date) && (curDayStartMs, curDayEndMs) == old((curDayStartMs, curDayEndMs)))
    {
      if curDate == Some(date) && log.Some? {
        assert disk.files == disk.files[date := Trim(Get(disk.files, date))];
        return;
      }
      if curDate.Some? && curDate.value != date {
        log := None;
      }
      disk.OpenLog(date);
      log := Some(date);
      curDate := Some(date);
      curDayStartMs := DayStart(date);
      curDayEndMs := curDayStartMs + MS_PER_DAY;
    }

    /** The open log is the newest shard and ends on a record boundary. */
    ghost predicate LogOk()
      reads this`log, this`curDate, disk
    {
      log.Some? ==> log == curDate && log.value in disk.files && |disk.files[log.value]| % STRIDE == 0
    }

    /** Route a record to its shard and append it; the ordering rules keep dates from going back. */
    method WriteRecord(date: int, rec: seq<Byte>)
      requires |rec| == STRIDE && LogOk() && WindowOk() && curDate == Newest(disk.files)
      requires curDate.Some? ==> curDate.value <= date
      modifies this`log, this`curDate, this`curDayStartMs, this`curDayEndMs, this`lastWrittenTs, disk
      ensures disk.files == Put(old(disk.files), date, rec)
      ensures LogOk() && WindowOk() && curDate == Some(date) == Newest(disk.files)
      ensures RecsOf(disk.files, date) != [] && LastOf(disk.files, date) == rec
      ensures lastWrittenTs == l.ts(rec)
    {
      ghost var before := disk.files;
      PutRecords(before, date, rec);
      PutNewest(before, date, rec);
      hide RecsOf, LastOf, Newest;
      EnsureShard(date);
      disk.AppendLog(date, rec);
      lastWrittenTs := l.ts(rec);
    }

    /** The date of a record and whether it opens a new day. The cached window answers
        without the calendar, and always as the calendar would. */
    method Route(ts: int) returns (newDay: bool, date: Option<int>)
      requires WindowOk()
      ensures date == Some(DateOf(ts)) && newDay == (curDate != date)
    {
      if curDayStartMs <= ts < curDayEndMs {
        newDay, date := false, curDate;
        DayWindow(ts, curDate.value);
      } else {
        var d := DateOf(ts);
        newDay, date := curDate != Some(d), Some(d);
      }
    }

    /** Append one record, subject to the bounds, the ordering rules, the delta gate and
        the sentinel rule. Decides exactly as `Step` does from the disk alone. */
    method AppendWithNow(rec: seq<Byte>, now: int) returns (r: Outcome)
      requires Valid() && |rec| == STRIDE
      modifies this, disk
      ensures Valid()
      ensures (disk.files, r) == Step(l, old(disk.files), gate, rec, now)
    {
      hide Put, RecsOf, LastOf, Newest, LogOk, WindowOk, DateOf, WithSentinel, Layout.Ok;
      SentinelSame(l, rec);
      var ts := l.ts(rec);
      var isHistorical := rec[l.flagAt] & FLAG_HISTORICAL_BACKFILL != 0;
      if ts > now + MS_PER_MIN {
        return Rejected;
      }
      if !isHistorical && ts < now - 730 * MS_PER_DAY {
        return Rejected;
      }
      var newDay, date := Route(ts);
      if curDate.Some? && newDay && date.value < curDate.value {
        return Skipped;
      }
      if haveLast && !newDay && ts < lastWrittenTs {
        return Skipped;
      }
      var q := l.quote(rec);
      var changed := !haveLast || q.bid != lastBid || q.ask != lastAsk
                     || q.vbid != lastVbid || q.vask != lastVask || q.ci != lastCi;
      if !gate || changed || newDay {
        WriteRecord(date.value, rec);
        Remember(q);
        return Written;
      }
      if haveLast && ts - lastWrittenTs >= SENTINEL_INTERVAL_MS {
        WriteRecord(date.value, WithSentinel(l, rec));
        return Written;
      }
      return Skipped;
    }
  }
}
