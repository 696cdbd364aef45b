/** The per-ticker shard inventory: one-at-a-time insertion and the batch rebuild. */
module Manifest {

  const I64_MAX: int := 0x7FFF_FFFF_FFFF_FFFF
  const I64_MIN: int := -0x8000_0000_0000_0000

  datatype ShardEntry = ShardEntry(
    date: string, firstTs: int, lastTs: int, nRecords: nat, sizeBytes: nat, sha256: string)

  // ---- The order of date strings ----

  predicate Before(a: string, b: string) {
    b != "" && (a == "" || a[0] < b[0] || (a[0] == b[0] && Before(a[1..], b[1..])))
  }

  /** The order is that of the first character in which two dates differ, the smaller one first; a date that is
      the beginning of another goes before it. */
  lemma {:induction false} BeforeExactly(a: string, b: string)
    ensures Before(a, b) <==>
            exists p :: 0 <= p <= |a| && p < |b| && a[..p] == b[..p] && (p == |a| || a[p] < b[p])
  {
    if Before(a, b) {
      if a == "" || a[0] < b[0] {
        assert a[..0] == b[..0];
      } else {
        BeforeExactly(a[1..], b[1..]);
        var p :| 0 <= p <= |a[1..]| && p < |b[1..]| && a[1..][..p] == b[1..][..p]
                 && (p == |a[1..]| || a[1..][p] < b[1..][p]);
        assert a[..p + 1] == [a[0]] + a[1..][..p] && b[..p + 1] == [b[0]] + b[1..][..p];
      }
    }
    if p :| 0 <= p <= |a| && p < |b| && a[..p] == b[..p] && (p == |a| || a[p] < b[p]) {
      BeforeAt(a, b, p);
    }
  }

  lemma {:induction false} BeforeAt(a: string, b: string, p: nat)
    requires p <= |a| && p < |b| && a[..p] == b[..p] && (p == |a| || a[p] < b[p])
    ensures Before(a, b)
  {
    if p > 0 {
      assert a[0] == a[..p][0] == b[..p][0] == b[0];
      assert a[1..][..p - 1] == a[..p][1..] && b[1..][..p - 1] == b[..p][1..];
      BeforeAt(a[1..], b[1..], p - 1);
    }
  }

  lemma {:induction false} BeforeTotal(a: string, b: string)
    ensures a == b || Before(a, b) || Before(b, a)
    ensures !(Before(a, b) && Before(b, a)) && !Before(a, a)
  {
    if a != "" && b != "" && a[0] == b[0] {
      BeforeTotal(a[1..], b[1..]);
      assert a == [a[0]] + a[1..] && b == [b[0]] + b[1..];
    }
    if a != "" {
      BeforeTotal(a[1..], a[1..]);
    }
  }

  lemma {:induction false} BeforeTransitive(a: string, b: string, c: string)
    requires Before(a, b) && Before(b, c)
    ensures Before(a, c)
  {
    if a != "" && a[0] == b[0] == c[0] {
      BeforeTransitive(a[1..], b[1..], c[1..]);
    }
  }

  ghost predicate Sorted(s: seq<ShardEntry>) {
    forall i, k :: 0 <= i < k < |s| ==> !Before(s[k].date, s[i].date)
  }

  ghost predicate DistinctDates(s: seq<ShardEntry>) {
    forall i, k :: 0 <= i < k < |s| ==> s[i].date != s[k].date
  }

  // ---- Stable sorting by date ----

  function Insert(s: seq<ShardEntry>, e: ShardEntry): seq<ShardEntry> {
    if s == [] then [e]
    else if Before(e.date, s[|s| - 1].date) then Insert(s[..|s| - 1], e) + [s[|s| - 1]]
    else s + [e]
  }

  function SortByDate(s: seq<ShardEntry>): seq<ShardEntry> {
    if s == [] then [] else Insert(SortByDate(s[..|s| - 1]), s[|s| - 1])
  }

  lemma {:induction false} InsertMultiset(s: seq<ShardEntry>, e: ShardEntry)
    ensures multiset(Insert(s, e)) == multiset(s) + multiset{e}
  {
    if s != [] {
      var n := |s| - 1;
      assert s == s[..n] + [s[n]];
      if Before(e.date, s[n].date) {
        InsertMultiset(s[..n], e);
      }
    }
  }

  /** What is not after the last entry of a sorted list is not after any bound of that entry. */
  lemma {:induction false} NotBefore(a: string, b: string, c: string)
    requires !Before(c, b) && !Before(b, a)
    ensures !Before(c, a)
  {
    BeforeTotal(a, b);
    BeforeTotal(b, c);
    if a != b && b != c {
      BeforeTransitive(a, b, c);
      BeforeTotal(a, c);
    }
  }

  lemma {:induction false} InsertSorted(s: seq<ShardEntry>, e: ShardEntry)
    requires Sorted(s)
    ensures Sorted(Insert(s, e))
  {
    if s != [] {
      var n := |s| - 1;
      if Before(e.date, s[n].date) {
        var r := Insert(s[..n], e);
        InsertSorted(s[..n], e);
        InsertMultiset(s[..n], e);
        BeforeTotal(e.date, s[n].date);
        forall i | 0 <= i < |r|
          ensures !Before(s[n].date, r[i].date)
        {
          assert r[i] in multiset(r);
          assert r[i] == e || r[i] in s[..n];
        }
      } else {
        forall i | 0 <= i < n
          ensures !Before(e.date, s[i].date)
        {
          NotBefore(s[i].date, s[n].date, e.date);
        }
      }
    }
  }

  lemma {:induction false} SortKeeps(s: seq<ShardEntry>)
    ensures Sorted(SortByDate(s)) && multiset(SortByDate(s)) == multiset(s)
  {
    if s != [] {
      SortKeeps(s[..|s| - 1]);
      InsertSorted(SortByDate(s[..|s| - 1]), s[|s| - 1]);
      InsertMultiset(SortByDate(s[..|s| - 1]), s[|s| - 1]);
      assert s == s[..|s| - 1] + [s[|s| - 1]];
    }
  }

  // ---- What a shard list must say about the entries fed to it ----

  /** `e` is the last of `es` for its date. */
  ghost predicate IsLast(es: seq<ShardEntry>, e: ShardEntry) {
    exists i :: 0 <= i < |es| && es[i] == e && forall k :: i < k < |es| ==> es[k].date != e.date
  }

  /** `shards` holds exactly the last entry of each date, in any order. */
  ghost predicate Holds(shards: seq<ShardEntry>, es: seq<ShardEntry>) {
    DistinctDates(shards) && forall e :: e in shards <==> IsLast(es, e)
  }

  /** The inventory of `es`: sorted by date, one entry a date, the last one fed wins. */
  ghost predicate Inventory(shards: seq<ShardEntry>, es: seq<ShardEntry>) {
    Sorted(shards) && Holds(shards, es)
  }

  lemma {:induction false} IsLastSnoc(es: seq<ShardEntry>, e: ShardEntry, x: ShardEntry)
    ensures IsLast(es + [e], x) <==> x == e || (IsLast(es, x) && x.date != e.date)
  {
    var r := es + [e];
    assert r[|es|] == e;
    if IsLast(es, x) && x.date != e.date {
      var i :| 0 <= i < |es| && es[i] == x && forall k :: i < k < |es| ==> es[k].date != x.date;
      assert r[i] == x && forall k :: i < k < |r| ==> r[k].date != x.date;
    }
    if IsLast(r, x) && x != e {
      var i :| 0 <= i < |r| && r[i] == x && forall k :: i < k < |r| ==> r[k].date != x.date;
      assert es[i] == x && forall k :: i < k < |es| ==> es[k] == r[k];
    }
  }

  /** There is only one inventory of given entries. */
  lemma {:induction false} InventoryUnique(a: seq<ShardEntry>, b: seq<ShardEntry>)
    requires Sorted(a) && Sorted(b) && DistinctDates(a) && DistinctDates(b)
    requires forall e :: e in a <==> e in b
    ensures a == b
    decreases |a|
  {
    assert |a| > 0 ==> a[0] in b;
    assert |b| > 0 ==> b[0] in a;
    if a != [] {
      var n, m := |a| - 1, |b| - 1;
      assert a[n] in b && b[m] in a;
      BeforeTotal(a[n].date, b[m].date);
      assert a[n] == b[m];
      forall e
        ensures e in a[..n] <==> e in b[..m]
      {
        InFront(a, e);
        InFront(b, e);
      }
      InventoryUnique(a[..n], b[..m]);
      assert a == a[..n] + [a[n]] && b == b[..m] + [b[m]];
    }
  }

  lemma {:induction false} InFront(s: seq<ShardEntry>, e: ShardEntry)
    requires DistinctDates(s) && s != []
    ensures e in s[..|s| - 1] <==> e in s && e != s[|s| - 1]
  {
    assert s == s[..|s| - 1] + [s[|s| - 1]];
  }

  lemma {:induction false} SortedInventory(s: seq<ShardEntry>, es: seq<ShardEntry>)
    requires Holds(s, es)
    ensures Inventory(SortByDate(s), es)
  {
    SortKeeps(s);
    var r := SortByDate(s);
    forall e
      ensures e in r <==> e in s
    {
      assert e in r <==> e in multiset(r);
      assert e in s <==> e in multiset(s);
    }
    forall i, k | 0 <= i < k < |r|
      ensures r[i].date != r[k].date
    {
      DistinctAfterPermuting(s, r, i, k);
    }
  }

  lemma {:induction false} CountedTwice(r: seq<ShardEntry>, i: nat, k: nat)
    requires i < k < |r| && r[i] == r[k]
    ensures multiset(r)[r[i]] >= 2
  {
    assert r == r[..i] + [r[i]] + r[i + 1..k] + [r[k]] + r[k + 1..];
  }

  /** A permutation of a list with distinct dates has distinct dates. */
  lemma {:induction false} DistinctAfterPermuting(s: seq<ShardEntry>, r: seq<ShardEntry>, i: nat, k: nat)
    requires DistinctDates(s) && multiset(s) == multiset(r) && i < k < |r|
    ensures r[i].date != r[k].date
  {
    assert r[i] in multiset(r) && r[k] in multiset(r);
    assert r[i] in s && r[k] in s;
    OnlyOnce(s, r[i]);
    if r[i] == r[k] {
      CountedTwice(r, i, k);
    }
  }

  lemma {:induction false} OnlyOnce(s: seq<ShardEntry>, e: ShardEntry)
    requires DistinctDates(s)
    ensures multiset(s)[e] <= 1
  {
    if s != [] {
      var n := |s| - 1;
      assert s == s[..n] + [s[n]];
      OnlyOnce(s[..n], e);
      if e == s[n] {
        assert e !in s[..n];
      }
    }
  }

  /** `s` with the entry at `i` replaced, or with one more entry. */
  function Replaced(s: seq<ShardEntry>, e: ShardEntry, i: nat): seq<ShardEntry>
    requires i <= |s|
  {
    if i < |s| then s[i := e] else s + [e]
  }

  lemma {:induction false} UpsertInventory(s: seq<ShardEntry>, es: seq<ShardEntry>, e: ShardEntry, i: nat)
    requires i <= |s|
    requires if i < |s| then s[i].date == e.date else forall k :: 0 <= k < |s| ==> s[k].date != e.date
    ensures Holds(s, es) ==> Inventory(SortByDate(Replaced(s, e, i)), es + [e])
    ensures SortByDate(Replaced(s, e, i)) != []
  {
    var r := Replaced(s, e, i);
    SortKeeps(r);
    assert r[i] in multiset(r);
    assert r[i] in multiset(SortByDate(r));
    hide SortByDate;
    if Holds(s, es) {
      UpsertHolds(s, es, e, i);
      SortedInventory(r, es + [e]);
    }
  }

  class ManifestFile {
    var shards: seq<ShardEntry>
    var firstTs: int
    var lastTs: int

    constructor ()
      ensures shards == [] && firstTs == I64_MAX && lastTs == I64_MIN
    {
      shards := [];
      firstTs, lastTs := I64_MAX, I64_MIN;
    }

    /** The manifest-level span is that of the first and the last shard. */
    ghost predicate SpanOk()
      reads this
    {
      if shards == [] then firstTs == I64_MAX && lastTs == I64_MIN
      else firstTs == shards[0].firstTs && lastTs == shards[|shards| - 1].lastTs
    }

    /** Insert or replace one entry by date, then sort and refresh the span. */
    method Upsert(entry: ShardEntry, ghost es: seq<ShardEntry>)
      modifies this
      ensures SpanOk()
      ensures Holds(old(shards), es) ==> Inventory(shards, es + [entry])
    {
      hide Holds, Inventory, SortByDate;
      var i := 0;
      while i < |shards| && shards[i].date != entry.date
        invariant i <= |shards| && forall k :: 0 <= k < i ==> shards[k].date != entry.date
      {
        i := i + 1;
      }
      ghost var was := shards;
      if i < |shards| {
        shards := shards[i := entry];
      } else {
        shards := shards + [entry];
      }
      UpsertInventory(was, es, entry, i);
      shards := SortByDate(shards);
      if |shards| > 0 {
        firstTs := shards[0].firstTs;
        lastTs := shards[|shards| - 1].lastTs;
      }
    }

    /** Replace all entries in one batch: deduplicate by date with the last one winning,
        then sort once. */
    method SetShardsBatch(entries: seq<ShardEntry>)
      modifies this
      ensures SpanOk() && Inventory(shards, entries)
    {
      var seen: map<string, nat> := map[];
      var deduped: seq<ShardEntry> := [];
      for i := 0 to |entries|
        invariant Holds(deduped, entries[..i])
        invariant forall d :: d in seen ==> seen[d] < |deduped| && deduped[seen[d]].date == d
        invariant forall k :: 0 <= k < |deduped| ==> deduped[k].date in seen
      {
        var e := entries[i];
        assert entries[..i + 1] == entries[..i] + [e];
        if e.date in seen {
          UpsertHolds(deduped, entries[..i], e, seen[e.date]);
          deduped := deduped[seen[e.date] := e];
        } else {
          UpsertHolds(deduped, entries[..i], e, |deduped|);
          seen := seen[e.date := |deduped|];
          deduped := deduped + [e];
        }
      }
      assert entries[..|entries|] == entries;
      SortedInventory(deduped, entries);
      shards := SortByDate(deduped);
      firstTs := if |shards| > 0 then shards[0].firstTs else I64_MAX;
      lastTs := if |shards| > 0 then shards[|shards| - 1].lastTs else I64_MIN;
    }
  }

  /** Replacing the entry of a date, or adding one for a new date, follows the entries fed. */
  lemma {:induction false} UpsertHolds(s: seq<ShardEntry>, es: seq<ShardEntry>, e: ShardEntry, i: nat)
    requires Holds(s, es) && i <= |s|
    requires if i < |s| then s[i].date == e.date else forall k :: 0 <= k < |s| ==> s[k].date != e.date
    ensures Holds(Replaced(s, e, i), es + [e])
  {
    var r := Replaced(s, e, i);
    assert r[i] == e;
    forall x
      ensures x in r <==> IsLast(es + [e], x)
    {
      IsLastSnoc(es, e, x);
      if x in s && x.date != e.date {
        var k :| 0 <= k < |s| && s[k] == x;
        assert r[k] == x;
      }
      if x in r && x != e {
        var k :| 0 <= k < |r| && r[k] == x;
        assert s[k] == x;
      }
    }
  }

  ghost predicate Earlier(a: string, b: string) {
    exists p :: 0 <= p <= |a| && p < |b| && a[..p] == b[..p] && (p == |a| || a[p] < b[p])
  }

  /** What a rebuilt manifest holds: of every date its last entry and no other, by ascending date, spanning from
      the first timestamp of the first shard to the last one of the last. */
  method Rebuild(entries: seq<ShardEntry>) returns (m: ManifestFile)
    ensures forall i, k :: 0 <= i < k < |m.shards| ==> Earlier(m.shards[i].date, m.shards[k].date)
    ensures forall e :: e in m.shards <==>
              exists i :: 0 <= i < |entries| && entries[i] == e
                          && forall k :: i < k < |entries| ==> entries[k].date != e.date
    ensures m.shards == [] ==> m.firstTs == 0x7FFF_FFFF_FFFF_FFFF && m.lastTs == -0x8000_0000_0000_0000
    ensures m.shards != [] ==>
              m.firstTs == m.shards[0].firstTs && m.lastTs == m.shards[|m.shards| - 1].lastTs
  {
    m := new ManifestFile();
    m.SetShardsBatch(entries);
    forall i, k | 0 <= i < k < |m.shards|
      ensures Earlier(m.shards[i].date, m.shards[k].date)
    {
      BeforeTotal(m.shards[i].date, m.shards[k].date);
      BeforeExactly(m.shards[i].date, m.shards[k].date);
    }
    forall e
      ensures e in m.shards <==> IsLast(entries, e)
    {
    }
  }

  /** Building a manifest in one batch equals inserting the same entries one at a time into
      an empty manifest: any order, any repeated dates, same list and same span. */
  method BatchEqualsUpserts(entries: seq<ShardEntry>) returns (batch: ManifestFile, single: ManifestFile)
    ensures batch.shards == single.shards
    ensures batch.firstTs == single.firstTs && batch.lastTs == single.lastTs
    ensures Inventory(batch.shards, entries)
  {
    batch := new ManifestFile();
    batch.SetShardsBatch(entries);
    single := new ManifestFile();
    for i := 0 to |entries|
      invariant fresh(single) && single.SpanOk() && Inventory(single.shards, entries[..i])
      invariant batch != single && batch.SpanOk() && Inventory(batch.shards, entries)
    {
      assert entries[..i + 1] == entries[..i] + [entries[i]];
      single.Upsert(entries[i], entries[..i]);
    }
    assert entries[..|entries|] == entries;
    InventoryUnique(batch.shards, single.shards);
  }
}
