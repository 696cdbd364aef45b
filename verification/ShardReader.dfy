/** The three readers of a shard file: whole-file, tail, and buffered stream.
    A record is the `stride` raw bytes it occupies.
 */
module ShardReader {
  import opened Optional

  type Byte = bv8

  const U64_MAX: nat := 0xFFFF_FFFF_FFFF_FFFF

  /** The whole records at the front of `bytes`; trailing bytes short of a record are dropped. */
  function Records(bytes: seq<Byte>, stride: nat): seq<seq<Byte>>
    requires stride > 0
  {
    if |bytes| < stride then [] else [bytes[..stride]] + Records(bytes[stride..], stride)
  }

  /** What every reader must deliver for a file. */
  function Aligned(bytes: seq<Byte>, stride: nat): seq<seq<Byte>> {
    if stride == 0 then [] else Records(bytes, stride)
  }

  function Min(a: nat, b: nat): nat { if a <= b then a else b }

  // ---- Records by position ----

  lemma {:induction false} DivSplit(a: nat, stride: nat)
    requires stride > 0
    ensures a == a / stride * stride + a % stride && a / stride * stride <= a
  {
  }

  lemma {:induction false} MulMonotone(i: nat, j: nat, stride: nat)
    requires i <= j
    ensures i * stride <= j * stride
  {
  }

  lemma {:induction false} DivUnique(a: nat, q: nat, r: nat, stride: nat)
    requires stride > 0 && a == q * stride + r && r < stride
    ensures a / stride == q && a % stride == r
  {
    DivSplit(a, stride);
    if q < a / stride {
      MulMonotone(q + 1, a / stride, stride);
    } else if a / stride < q {
      MulMonotone(a / stride + 1, q, stride);
    }
  }

  /** There are as many records as fit. */
  lemma {:induction false} RecordCount(bytes: seq<Byte>, stride: nat)
    requires stride > 0
    ensures |Records(bytes, stride)| == |bytes| / stride
    decreases |bytes|
  {
    var n := |bytes|;
    if n < stride {
      DivUnique(n, 0, n, stride);
    } else {
      RecordCount(bytes[stride..], stride);
      DivSplit(n - stride, stride);
      DivUnique(n, (n - stride) / stride + 1, (n - stride) % stride, stride);
    }
  }

  /** Record `i` is the `i`-th stretch of `stride` bytes. */
  lemma {:induction false} RecordAt(bytes: seq<Byte>, stride: nat, i: nat)
    requires stride > 0 && i < |bytes| / stride
    ensures i * stride + stride <= |bytes|
    ensures i < |Records(bytes, stride)| && Records(bytes, stride)[i] == bytes[i * stride..i * stride + stride]
    decreases i
  {
    var n := |bytes|;
    RecordCount(bytes, stride);
    DivSplit(n, stride);
    MulMonotone(i + 1, n / stride, stride);
    if i > 0 {
      var rest := bytes[stride..];
      RecordCount(rest, stride);
      RecordAt(rest, stride, i - 1);
      var k := (i - 1) * stride;
      assert k + stride == i * stride;
      assert rest[k..k + stride] == bytes[i * stride..i * stride + stride];
    }
  }

  /** Whole records in front do not disturb the records behind them. */
  lemma {:induction false} RecordsSplit(a: seq<Byte>, b: seq<Byte>, stride: nat)
    requires stride > 0 && |a| % stride == 0
    ensures Records(a + b, stride) == Records(a, stride) + Records(b, stride)
    decreases |a|
  {
    if a == [] {
      assert a + b == b;
    } else {
      DivSplit(|a|, stride);
      if |a| < stride {
        DivUnique(|a|, 0, |a|, stride);
        assert false;
      }
      DivUnique(|a| - stride, |a| / stride - 1, 0, stride);
      RecordsSplit(a[stride..], b, stride);
      assert (a + b)[..stride] == a[..stride];
      assert (a + b)[stride..] == a[stride..] + b;
    }
  }

  /** Bytes short of one record behind whole records add nothing. */
  lemma {:induction false} RecordsTorn(a: seq<Byte>, torn: seq<Byte>, stride: nat)
    requires stride > 0 && |a| % stride == 0 && |torn| < stride
    ensures Records(a + torn, stride) == Records(a, stride)
  {
    RecordsSplit(a, torn, stride);
  }

  // ---- Whole-file reader ----

  /** Read a whole file: truncate to a record boundary, then cut into records. */
  method ReadShardAligned(file: seq<Byte>, stride: nat) returns (recs: seq<seq<Byte>>)
    ensures recs == Aligned(file, stride)
  {
    if stride == 0 {
      return [];
    }
    DivSplit(|file|, stride);
    var bytes := file[..|file| / stride * stride];
    DivUnique(|bytes|, |file| / stride, 0, stride);
    RecordsTorn(bytes, file[|bytes|..], stride);
    assert bytes + file[|bytes|..] == file;
    RecordCount(bytes, stride);
    hide Records;
    recs := [];
    for i := 0 to |bytes| / stride
      invariant i <= |Records(bytes, stride)| && recs == Records(bytes, stride)[..i]
    {
      RecordAt(bytes, stride, i);
      var at := i * stride;
      assert bytes[at..][..stride] == bytes[at..at + stride];
      recs := recs + [bytes[at..][..stride]];
    }
  }

  // ---- Tail reader ----

  /** Seek close to the end, on a record boundary, and read from there: the last
      `tailRecords` whole records, or all of them when there are fewer. */
  method ReadShardTail(file: seq<Byte>, tailRecords: nat, stride: nat) returns (recs: seq<seq<Byte>>)
    requires |file| <= U64_MAX || tailRecords * stride <= U64_MAX
    ensures var all := Aligned(file, stride);
            recs == all[|all| - Min(tailRecords, |all|)..]
  {
    if stride == 0 {
      return [];
    }
    var rawLen := |file|;
    var len := rawLen / stride * stride;
    var want := Min(tailRecords * stride, U64_MAX);
    var start := if len <= want then 0 else len - want;
    TailStart(rawLen, tailRecords, stride);
    RecordCount(file, stride);
    RecordsSplit(file[..start], file[start..], stride);
    assert file[..start] + file[start..] == file;
    RecordCount(file[..start], stride);
    recs := ReadShardAligned(file[start..], stride);
  }

  lemma {:induction false} TailStart(rawLen: nat, tailRecords: nat, stride: nat)
    requires stride > 0 && (rawLen <= U64_MAX || tailRecords * stride <= U64_MAX)
    ensures var len, want := rawLen / stride * stride, Min(tailRecords * stride, U64_MAX);
            var start := if len <= want then 0 else len - want;
            && 0 <= start <= rawLen && start % stride == 0
            && start / stride == rawLen / stride - Min(tailRecords, rawLen / stride)
  {
    DivSplit(rawLen, stride);
    var q := rawLen / stride;
    DivUnique(0, 0, 0, stride);
    if tailRecords < q {
      MulMonotone(tailRecords, q, stride);
      MulMonotone(tailRecords + 1, q, stride);
      assert tailRecords * stride <= q * stride <= rawLen;
      assert q * stride - tailRecords * stride == (q - tailRecords) * stride;
      DivUnique(q * stride - tailRecords * stride, q - tailRecords, 0, stride);
    } else {
      MulMonotone(q, tailRecords, stride);
    }
  }

  // ---- Buffered stream ----

  /** `n` bytes are whole records. */
  predicate Whole(n: nat, stride: nat)
    requires stride > 0
  {
    n % stride == 0
  }

  lemma {:induction false} WholeNone(stride: nat)
    requires stride > 0
    ensures Whole(0, stride)
  {
    DivUnique(0, 0, 0, stride);
  }

  lemma {:induction false} NoRecords(stride: nat)
    requires stride > 0
    ensures Records([], stride) == [] && Whole(0, stride)
  {
    WholeNone(stride);
  }

  /** A non-empty stretch of whole records starts with one. */
  lemma {:induction false} FirstRecord(b: seq<Byte>, stride: nat)
    requires stride > 0 && b != [] && Whole(|b|, stride)
    ensures |b| >= stride && Whole(|b| - stride, stride)
    ensures Records(b, stride) == [b[..stride]] + Records(b[stride..], stride)
  {
    DivSplit(|b|, stride);
    if |b| < stride {
      DivUnique(|b|, 0, |b|, stride);
    } else {
      DivUnique(|b| - stride, |b| / stride - 1, 0, stride);
    }
  }

  /** What is left of `got` once a torn tail is cut off. */
  function Cut(got: nat, stride: nat): nat
    requires stride > 0
  {
    if got % stride != 0 then got / stride * stride else got
  }

  /** A filled buffer, cut to whole records, plus the unread rest, holds every record. */
  lemma {:induction false} CutTorn(got: seq<Byte>, rest: seq<Byte>, tail: seq<Byte>, stride: nat)
    requires stride > 0 && rest == got + tail && (tail == [] || |got| == 4096 * stride)
    ensures var cut := Cut(|got|, stride);
            && cut <= |got| && Whole(cut, stride)
            && Records(rest, stride) == Records(got[..cut], stride) + Records(tail, stride)
            && (cut == 0 ==> Records(rest, stride) == [])
  {
    DivSplit(|got|, stride);
    var cut := |got| / stride * stride;
    DivUnique(cut, |got| / stride, 0, stride);
    assert got == got[..cut] + got[cut..];
    if tail == [] {
      RecordsTorn(got[..cut], got[cut..], stride);
      assert rest == got;
    } else {
      DivUnique(|got|, 4096, 0, stride);
      assert got[..cut] == got;
      RecordsSplit(got, tail, stride);
    }
  }

  function BufferSize(stride: nat): nat { 4096 * (if stride > 1 then stride else 1) }

  /** An open file and its cursor. */
  class ShardFile {
    const content: seq<Byte>
    var offset: nat

    constructor (bytes: seq<Byte>)
      ensures content == bytes && offset == 0
    {
      content := bytes;
      offset := 0;
    }

    /** One `read` call: fills some part of `buf[at..]`, as little as one byte, and
        returns 0 only at the end of the file. */
    method Read(buf: array<Byte>, at: nat) returns (n: nat)
      requires offset <= |content| && at < buf.Length
      modifies this`offset, buf
      ensures n == 0 <==> old(offset) == |content|
      ensures offset == old(offset) + n <= |content| && at + n <= buf.Length
      ensures buf[..at] == old(buf[..at])
      ensures buf[at..at + n] == content[old(offset)..offset]
    {
      var room := Min(buf.Length - at, |content| - offset);
      n := *;
      if n < 1 || room < n {
        n := room;
      }
      forall i | 0 <= i < n {
        buf[at + i] := content[offset + i];
      }
      offset := offset + n;
    }
  }

  class ShardStream {
    const stride: nat
    const file: ShardFile
    const buf: array<Byte>
    var pos: nat
    var filled: nat
    var eof: bool

    ghost predicate Valid()
      reads this, file, buf
    {
      && file.offset <= |file.content|
      && pos <= filled <= buf.Length
      && buf.Length == BufferSize(stride)
      && (stride > 0 ==> Whole(filled - pos, stride))
      && (stride == 0 ==> filled == 0)
      && (eof ==> file.offset == |file.content|)
    }

    /** The records still to be delivered: the buffered ones, then those not yet read. */
    ghost function Remaining(): seq<seq<Byte>>
      requires Valid()
      reads this, file, buf
    {
      Aligned(buf[pos..filled], stride) + Aligned(file.content[file.offset..], stride)
    }

    constructor Open(f: ShardFile, recordSize: nat)
      requires f.offset == 0
      ensures Valid() && file == f && stride == recordSize && fresh(buf)
      ensures Remaining() == Aligned(f.content, recordSize)
    {
      file := f;
      stride := recordSize;
      buf := new Byte[BufferSize(recordSize)](_ => 0);
      pos := 0;
      filled := 0;
      eof := false;
      new;
      if stride > 0 {
        WholeNone(stride);
      }
      assert f.content[0..] == f.content;
    }

    /** The read loop of a refill: fill the buffer over short reads, or hit the end of the file. */
    method Fill()
      requires filled == 0 && !eof && file.offset <= |file.content|
      modifies this`filled, this`eof, file`offset, buf
      ensures old(file.offset) <= file.offset <= |file.content| && filled <= buf.Length
      ensures buf[..filled] == file.content[old(file.offset)..file.offset]
      ensures if eof then file.offset == |file.content| else filled == buf.Length
    {
      ghost var start := file.offset;
      while filled < buf.Length
        invariant filled <= buf.Length && !eof
        invariant start <= file.offset <= |file.content|
        invariant buf[..filled] == file.content[start..file.offset]
        decreases |file.content| - file.offset
      {
        ghost var was, before := file.offset, buf[..filled];
        var n := file.Read(buf, filled);
        assert buf[..filled + n] == before + buf[filled..filled + n];
        assert file.content[start..was] + file.content[was..file.offset] == file.content[start..file.offset];
        if n == 0 {
          eof := true;
          break;
        }
        filled := filled + n;
      }
    }

    /** Refill an exhausted buffer; a torn tail is cut off. */
    method Refill()
      requires Valid() && pos >= filled && stride > 0
      modifies this`pos, this`filled, this`eof, file`offset, buf
      ensures Valid() && Remaining() == old(Remaining())
      ensures pos >= filled ==> Remaining() == []
    {
      assert buf[pos..filled] == [] && Records([], stride) == [];
      hide Records, Cut, Whole;
      if eof {
        assert file.content[file.offset..] == [];
        return;
      }
      ghost var rest := file.content[file.offset..];
      filled := 0;
      pos := 0;
      Fill();
      ghost var got, tail := buf[..filled], file.content[file.offset..];
      assert rest == got + tail;
      CutTorn(got, rest, tail, stride);
      filled := Cut(filled, stride);
      assert buf[pos..filled] == got[..filled];
    }

    /** Take the first buffered record. */
    method Take() returns (rec: seq<Byte>)
      requires Valid() && stride > 0 && pos < filled
      modifies this`pos
      ensures Valid()
      ensures old(Remaining()) == [rec] + Remaining()
    {
      hide Records, Whole, BufferSize;
      ghost var b, rest := buf[pos..filled], Aligned(file.content[file.offset..], stride);
      FirstRecord(b, stride);
      rec := buf[pos..pos + stride];
      assert rec == b[..stride] by {
        assert forall i :: 0 <= i < stride ==> rec[i] == b[i];
      }
      assert buf[pos + stride..filled] == b[stride..];
      pos := pos + stride;
      assert Remaining() == Records(b[stride..], stride) + rest;
      assert Records(b, stride) + rest == [rec] + (Records(b[stride..], stride) + rest);
    }

    /** Take everything buffered. */
    method TakeAll() returns (recs: seq<seq<Byte>>)
      requires Valid() && stride > 0 && pos < filled
      modifies this`pos
      ensures Valid()
      ensures recs != [] && old(Remaining()) == recs + Remaining()
    {
      hide Records, Whole, BufferSize;
      NoRecords(stride);
      FirstRecord(buf[pos..filled], stride);
      recs := Records(buf[pos..filled], stride);
      pos := filled;
      assert buf[pos..filled] == [];
    }

    /** The next record, or `None` at the end. */
    method Next() returns (r: Option<seq<Byte>>)
      requires Valid()
      modifies this`pos, this`filled, this`eof, file`offset, buf
      ensures Valid()
      ensures r.None? <==> old(Remaining()) == []
      ensures r.None? ==> Remaining() == []
      ensures r.Some? ==> old(Remaining()) == [r.value] + Remaining()
    {
      if stride == 0 {
        return None;
      }
      hide Records, Whole, BufferSize;
      NoRecords(stride);
      if pos >= filled {
        assert buf[pos..filled] == [];
        Refill();
        if pos >= filled {
          return None;
        }
      }
      var rec := Take();
      r := Some(rec);
    }

    /** Everything buffered, as one chunk of records, or `None` at the end. */
    method NextChunk() returns (r: Option<seq<seq<Byte>>>)
      requires Valid()
      modifies this`pos, this`filled, this`eof, file`offset, buf
      ensures Valid()
      ensures r.None? <==> old(Remaining()) == []
      ensures r.None? ==> Remaining() == []
      ensures r.Some? ==> r.value != [] && old(Remaining()) == r.value + Remaining()
    {
      if stride == 0 {
        return None;
      }
      hide Records, Whole, BufferSize;
      NoRecords(stride);
      if pos >= filled {
        assert buf[pos..filled] == [];
        Refill();
        if pos >= filled {
          return None;
        }
      }
      var recs := TakeAll();
      r := Some(recs);
    }

    /** A consumer that loops until `None`, choosing freely between single records and
        chunks, receives exactly the records still to be delivered. */
    method Drain(single: nat -> bool) returns (recs: seq<seq<Byte>>)
      requires Valid()
      modifies this`pos, this`filled, this`eof, file`offset, buf
      ensures Valid() && Remaining() == []
      ensures recs == old(Remaining())
    {
      hide Valid, Remaining;
      recs := [];
      var turn := 0;
      while true
        invariant Valid() && recs + Remaining() == old(Remaining())
        decreases |Remaining()|
      {
        if single(turn) {
          var r := Next();
          if r.None? {
            break;
          }
          recs := recs + [r.value];
        } else {
          var c := NextChunk();
          if c.None? {
            break;
          }
          recs := recs + c.value;
        }
        turn := turn + 1;
      }
    }
  }

  /** All three readers agree on every file, torn or not: any interleaving of single and
      chunked reads, under any pattern of short reads, yields the records of the
      whole-file reader, and the tail reader yields their last `n`. */
  method ReadersAgree(bytes: seq<Byte>, stride: nat, single: nat -> bool, n: nat)
    returns (whole: seq<seq<Byte>>, streamed: seq<seq<Byte>>, tail: seq<seq<Byte>>)
    requires |bytes| <= U64_MAX
    ensures streamed == whole == Aligned(bytes, stride)
    ensures tail == whole[|whole| - Min(n, |whole|)..]
  {
    whole := ReadShardAligned(bytes, stride);
    var f := new ShardFile(bytes);
    var s := new ShardStream.Open(f, stride);
    streamed := s.Drain(single);
    tail := ReadShardTail(bytes, n, stride);
  }
}
