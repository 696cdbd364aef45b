/** The greedy Jaro matcher of the asset resolver, its Winkler prefix bonus, and
    the cheap upper bound that lets the fuzzy scan skip candidates.

    Scores are exact reals. Strings are sequences of characters.
 */
module Jaro {

  // ---- The matcher, as a function of the two strings ----

  /** The two match arrays. */
  datatype Marks = Marks(m1: seq<bool>, m2: seq<bool>)

  function Min(a: int, b: int): int { if a <= b then a else b }

  function Max(a: int, b: int): int { if a <= b then b else a }

  /** How far apart two equal characters may lie and still match. */
  function Window(l1: nat, l2: nat): nat {
    if Max(l1, l2) <= 2 then 0 else Max(l1, l2) / 2 - 1
  }

  function WindowLo(l1: nat, l2: nat, i: nat): nat { Max(0, i - Window(l1, l2)) }

  function WindowHi(l1: nat, l2: nat, i: nat): nat { Min(i + Window(l1, l2) + 1, l2) }

  /** `j` is an unmatched position of `c2` that holds `c`. */
  predicate Free(c: char, c2: string, m2: seq<bool>, j: nat)
    requires |m2| == |c2|
  {
    j < |c2| && !m2[j] && c2[j] == c
  }

  /** The first free position for `c` in `[lo, hi)`, or `hi` when there is none. */
  function FirstFree(c: char, c2: string, m2: seq<bool>, lo: nat, hi: nat): (j: nat)
    requires |m2| == |c2| && lo <= hi <= |c2|
    ensures lo <= j <= hi
    ensures j < hi ==> Free(c, c2, m2, j)
    ensures forall k :: lo <= k < j ==> !Free(c, c2, m2, k)
    decreases hi - lo
  {
    if lo == hi || Free(c, c2, m2, lo) then lo else FirstFree(c, c2, m2, lo + 1, hi)
  }

  function AllFalse(n: nat): (m: seq<bool>)
    ensures |m| == n && forall k :: 0 <= k < n ==> !m[k]
  {
    seq(n, _ => false)
  }

  /** The match arrays once the first `i` characters of `c1` have been tried. */
  function MarksAfter(c1: string, c2: string, i: nat): (m: Marks)
    requires i <= |c1|
    ensures |m.m1| == |c1| && |m.m2| == |c2|
    ensures forall k :: i <= k < |c1| ==> !m.m1[k]
  {
    if i == 0 then
      Marks(AllFalse(|c1|), AllFalse(|c2|))
    else
      Step(c1, c2, MarksAfter(c1, c2, i - 1), i - 1)
  }

  /** Try character `i` of `c1`: mark it and the first free equal character in its window. */
  function Step(c1: string, c2: string, m: Marks, i: nat): (r: Marks)
    requires i < |c1| && |m.m1| == |c1| && |m.m2| == |c2|
    ensures |r.m1| == |c1| && |r.m2| == |c2|
    ensures forall k :: i < k < |c1| ==> r.m1[k] == m.m1[k]
  {
    var lo, hi := WindowLo(|c1|, |c2|, i), WindowHi(|c1|, |c2|, i);
    if lo >= hi then m
    else
      var j := FirstFree(c1[i], c2, m.m2, lo, hi);
      if j < hi then Marks(m.m1[i := true], m.m2[j := true]) else m
  }

  function Matching(c1: string, c2: string): (m: Marks)
    ensures |m.m1| == |c1| && |m.m2| == |c2|
  {
    MarksAfter(c1, c2, |c1|)
  }

  /** How many entries are set. */
  function Count(m: seq<bool>): (n: nat)
    ensures n <= |m|
  {
    if m == [] then 0 else Count(m[..|m| - 1]) + (if m[|m| - 1] then 1 else 0)
  }

  /** The marked characters, in order. */
  function Picked(s: string, m: seq<bool>): (r: string)
    requires |s| == |m|
    ensures |r| == Count(m)
  {
    if m == [] then []
    else
      Picked(s[..|s| - 1], m[..|m| - 1]) + (if m[|m| - 1] then [s[|s| - 1]] else [])
  }

  /** At how many positions two strings of one length differ. */
  function Mismatches(a: string, b: string): (n: nat)
    requires |a| == |b|
    ensures n <= |a|
  {
    if a == [] then 0
    else Mismatches(a[..|a| - 1], b[..|b| - 1]) + (if a[|a| - 1] != b[|b| - 1] then 1 else 0)
  }

  /** The score from the three counts; `t` counts transposed positions, not pairs. */
  function Score(l1: nat, l2: nat, m: nat, t: nat): real
    requires l1 > 0 && l2 > 0 && m > 0
  {
    var r := m as real;
    (r / l1 as real + r / l2 as real + (r - t as real / 2.0) / r) / 3.0
  }

  function Similarity(c1: string, c2: string): real {
    if |c1| == 0 && |c2| == 0 then 1.0
    else if |c1| == 0 || |c2| == 0 then 0.0
    else
      var m := Matching(c1, c2);
      MatchingCounts(c1, c2);
      if Count(m.m1) == 0 then 0.0
      else Score(|c1|, |c2|, Count(m.m1), Mismatches(Picked(c1, m.m1), Picked(c2, m.m2)))
  }

  // ---- Counting lemmas ----

  lemma {:induction false} CountUpdate(m: seq<bool>, j: nat)
    requires j < |m| && !m[j]
    ensures Count(m[j := true]) == Count(m) + 1
  {
    var n := |m| - 1;
    if j == n {
      assert m[j := true][..n] == m[..n];
    } else {
      assert m[j := true][..n] == m[..n][j := true];
      CountUpdate(m[..n], j);
    }
  }

  lemma {:induction false} CountAllFalse(m: seq<bool>)
    requires forall k :: 0 <= k < |m| ==> !m[k]
    ensures Count(m) == 0
  {
    if m != [] {
      CountAllFalse(m[..|m| - 1]);
    }
  }

  lemma {:induction false} CountFull(m: seq<bool>)
    ensures Count(m) == |m| <==> forall k :: 0 <= k < |m| ==> m[k]
  {
    if m != [] {
      CountFull(m[..|m| - 1]);
    }
  }

  /** The marked characters, counted. */
  ghost function Bag(s: string, m: seq<bool>): multiset<char>
    requires |s| == |m|
  {
    if m == [] then multiset{}
    else Bag(s[..|s| - 1], m[..|m| - 1]) + (if m[|m| - 1] then multiset{s[|s| - 1]} else multiset{})
  }

  lemma {:induction false} BagOfPicked(s: string, m: seq<bool>)
    requires |s| == |m|
    ensures multiset(Picked(s, m)) == Bag(s, m)
  {
    if m != [] {
      BagOfPicked(s[..|s| - 1], m[..|m| - 1]);
    }
  }

  lemma {:induction false} NothingPicked(s: string, m: seq<bool>)
    requires |s| == |m| && forall k :: 0 <= k < |m| ==> !m[k]
    ensures Count(m) == 0 && Bag(s, m) == multiset{}
  {
    if m != [] {
      NothingPicked(s[..|s| - 1], m[..|m| - 1]);
    }
  }

  /** Marking one more position adds exactly that character. */
  lemma {:induction false} BagUpdate(s: string, m: seq<bool>, j: nat)
    requires |s| == |m| && j < |m| && !m[j]
    ensures Bag(s, m[j := true]) == Bag(s, m) + multiset{s[j]}
  {
    var n := |m| - 1;
    var r := m[j := true];
    if j == n {
      assert r[..n] == m[..n];
    } else {
      assert r[..n] == m[..n][j := true];
      BagUpdate(s[..n], m[..n], j);
    }
  }

  lemma {:induction false} PickedAll(s: string, m: seq<bool>)
    requires |s| == |m| && forall k :: 0 <= k < |m| ==> m[k]
    ensures Picked(s, m) == s
  {
    if m != [] {
      PickedAll(s[..|s| - 1], m[..|m| - 1]);
    }
  }

  lemma {:induction false} CountPrefix(m: seq<bool>, k: nat)
    requires k <= |m|
    ensures Count(m[..k]) <= Count(m)
    decreases |m| - k
  {
    if k == |m| {
      assert m[..k] == m;
    } else {
      CountPrefix(m, k + 1);
      assert m[..k + 1][..k] == m[..k];
    }
  }

  /** If a prefix holds fewer marks than the whole, a mark lies beyond it. */
  lemma {:induction false} MarkAhead(m: seq<bool>, k: nat)
    requires k <= |m| && Count(m[..k]) < Count(m)
    ensures exists p :: k <= p < |m| && m[p]
    decreases |m| - k
  {
    assert m[..|m|] == m;
    if !m[k] {
      assert m[..k + 1][..k] == m[..k];
      MarkAhead(m, k + 1);
    }
  }

  /** Nothing is picked beyond a prefix that already holds every mark. */
  lemma {:induction false} PickedRest(s: string, m: seq<bool>, k: nat)
    requires |s| == |m| && k <= |m| && Count(m[..k]) == Count(m)
    ensures Picked(s[..k], m[..k]) == Picked(s, m)
    decreases |m|
  {
    if k == |m| {
      assert m[..k] == m && s[..k] == s;
    } else {
      var n := |m| - 1;
      assert m[..n][..k] == m[..k] && s[..n][..k] == s[..k];
      CountPrefix(m[..n], k);
      assert !m[n];
      PickedRest(s[..n], m[..n], k);
    }
  }

  // ---- What the matcher guarantees ----

  /** One attempt adds the same character to both sides, or nothing. */
  lemma {:induction false} StepCounts(c1: string, c2: string, m: Marks, i: nat)
    requires i < |c1| && |m.m1| == |c1| && |m.m2| == |c2| && !m.m1[i]
    requires Count(m.m1) == Count(m.m2) && Bag(c1, m.m1) == Bag(c2, m.m2)
    ensures var r := Step(c1, c2, m, i);
            && Count(r.m1) == Count(r.m2) <= Count(m.m1) + 1
            && Bag(c1, r.m1) == Bag(c2, r.m2)
  {
    var lo, hi := WindowLo(|c1|, |c2|, i), WindowHi(|c1|, |c2|, i);
    if lo < hi {
      var j := FirstFree(c1[i], c2, m.m2, lo, hi);
      if j < hi {
        CountUpdate(m.m1, i);
        CountUpdate(m.m2, j);
        BagUpdate(c1, m.m1, i);
        BagUpdate(c2, m.m2, j);
      }
    }
  }

  lemma {:induction false} MarksBalanced(c1: string, c2: string, i: nat)
    requires i <= |c1|
    ensures var m := MarksAfter(c1, c2, i);
            && Count(m.m1) == Count(m.m2) <= i
            && Bag(c1, m.m1) == Bag(c2, m.m2)
  {
    if i == 0 {
      NothingPicked(c1, AllFalse(|c1|));
      NothingPicked(c2, AllFalse(|c2|));
    } else {
      MarksBalanced(c1, c2, i - 1);
      var p := MarksAfter(c1, c2, i - 1);
      var m := Step(c1, c2, p, i - 1);
      assert MarksAfter(c1, c2, i) == m;
      StepCounts(c1, c2, p, i - 1);
    }
  }

  /** Both arrays hold the same number of matches, and the matched subsequences
      are permutations of each other. */
  lemma {:induction false} MatchingCounts(c1: string, c2: string)
    ensures var m := Matching(c1, c2);
            && Count(m.m1) == Count(m.m2) <= Min(|c1|, |c2|)
            && multiset(Picked(c1, m.m1)) == multiset(Picked(c2, m.m2))
  {
    MarksBalanced(c1, c2, |c1|);
    var m := Matching(c1, c2);
    BagOfPicked(c1, m.m1);
    BagOfPicked(c2, m.m2);
  }

  /** `p` and its inverse `q` pair the marked positions one to one, each pair equal
      characters within the window. */
  ghost predicate IsPairing(c1: string, c2: string, m: Marks, p: map<nat, nat>, q: map<nat, nat>)
    requires |m.m1| == |c1| && |m.m2| == |c2|
  {
    && (forall i: nat :: i in p <==> i < |c1| && m.m1[i])
    && (forall j: nat :: j in q <==> j < |c2| && m.m2[j])
    && (forall i: nat :: i in p ==> p[i] in q && q[p[i]] == i)
    && (forall j: nat :: j in q ==> q[j] in p && p[q[j]] == j)
    && (forall i: nat :: i in p ==> c1[i] == c2[p[i]])
    && (forall i: nat :: i in p ==> i - Window(|c1|, |c2|) <= p[i] <= i + Window(|c1|, |c2|))
  }

  lemma {:induction false} PairingStep(
    c1: string, c2: string, m: Marks, p: map<nat, nat>, q: map<nat, nat>, i: nat, j: nat)
    requires |m.m1| == |c1| && |m.m2| == |c2| && IsPairing(c1, c2, m, p, q)
    requires i < |c1| && !m.m1[i] && Free(c1[i], c2, m.m2, j)
    requires i - Window(|c1|, |c2|) <= j <= i + Window(|c1|, |c2|)
    ensures IsPairing(c1, c2, Marks(m.m1[i := true], m.m2[j := true]), p[i := j], q[j := i])
  {
  }

  /** The marks always come from a one-to-one pairing of equal characters inside the window. */
  lemma {:induction false} MatchingPairs(c1: string, c2: string, i: nat) returns (p: map<nat, nat>, q: map<nat, nat>)
    requires i <= |c1|
    ensures IsPairing(c1, c2, MarksAfter(c1, c2, i), p, q)
  {
    if i == 0 {
      p, q := map[], map[];
    } else {
      p, q := MatchingPairs(c1, c2, i - 1);
      var m := MarksAfter(c1, c2, i - 1);
      var lo, hi := WindowLo(|c1|, |c2|, i - 1), WindowHi(|c1|, |c2|, i - 1);
      if lo < hi {
        var j := FirstFree(c1[i - 1], c2, m.m2, lo, hi);
        if j < hi {
          PairingStep(c1, c2, m, p, q, i - 1, j);
          p, q := p[i - 1 := j], q[j := i - 1];
        }
      }
    }
  }

  /** Marks are never taken back. */
  lemma {:induction false} MarksGrow(c1: string, c2: string, i: nat, n: nat)
    requires i <= n <= |c1|
    ensures forall k :: 0 <= k < |c2| && MarksAfter(c1, c2, i).m2[k] ==> MarksAfter(c1, c2, n).m2[k]
    ensures forall k :: 0 <= k < i ==> MarksAfter(c1, c2, n).m1[k] == MarksAfter(c1, c2, i).m1[k]
    decreases n - i
  {
    if i < n {
      MarksGrow(c1, c2, i, n - 1);
    }
  }

  /** The greedy matching is maximal: a character left unmatched has no unmatched
      equal partner inside its window. */
  lemma {:induction false} MatchingMaximal(c1: string, c2: string, i: nat, j: nat)
    requires i < |c1| && j < |c2|
    requires i - Window(|c1|, |c2|) <= j <= i + Window(|c1|, |c2|)
    requires c1[i] == c2[j]
    ensures Matching(c1, c2).m1[i] || Matching(c1, c2).m2[j]
  {
    var m := MarksAfter(c1, c2, i);
    var lo, hi := WindowLo(|c1|, |c2|, i), WindowHi(|c1|, |c2|, i);
    assert lo <= j < hi;
    var f := FirstFree(c1[i], c2, m.m2, lo, hi);
    assert !m.m2[j] ==> Free(c1[i], c2, m.m2, j);
    assert MarksAfter(c1, c2, i + 1) == Step(c1, c2, m, i);
    MarksGrow(c1, c2, i, |c1|);
    MarksGrow(c1, c2, i + 1, |c1|);
  }

  // ---- Transpositions ----

  lemma {:induction false} NoMismatchMeansEqual(a: string, b: string)
    requires |a| == |b|
    ensures Mismatches(a, b) == 0 <==> a == b
  {
    if a != [] {
      var n := |a| - 1;
      NoMismatchMeansEqual(a[..n], b[..n]);
      assert a == a[..n] + [a[n]] && b == b[..n] + [b[n]];
    }
  }

  /** With exactly one mismatch, some character occurs a different number of times. */
  lemma {:induction false} OneMismatch(a: string, b: string) returns (x: char)
    requires |a| == |b| && Mismatches(a, b) == 1
    ensures multiset(a)[x] == multiset(b)[x] + 1
  {
    var n := |a| - 1;
    assert a == a[..n] + [a[n]] && b == b[..n] + [b[n]];
    if a[n] != b[n] {
      NoMismatchMeansEqual(a[..n], b[..n]);
      x := a[n];
    } else {
      x := OneMismatch(a[..n], b[..n]);
    }
  }

  /** Because the matched subsequences are permutations of each other, the
      transposition count is never one. */
  lemma {:induction false} TranspositionsNeverOne(c1: string, c2: string)
    ensures var m := Matching(c1, c2);
            && Count(m.m1) == Count(m.m2)
            && Mismatches(Picked(c1, m.m1), Picked(c2, m.m2)) != 1
  {
    MatchingCounts(c1, c2);
    var m := Matching(c1, c2);
    if Mismatches(Picked(c1, m.m1), Picked(c2, m.m2)) == 1 {
      var x := OneMismatch(Picked(c1, m.m1), Picked(c2, m.m2));
    }
  }

  lemma {:induction false} SkipUnmarked(s: string, m: seq<bool>, k: nat)
    requires |s| == |m| && k < |m| && !m[k]
    ensures Count(m[..k + 1]) == Count(m[..k])
    ensures Picked(s[..k + 1], m[..k + 1]) == Picked(s[..k], m[..k])
  {
    assert m[..k + 1][..k] == m[..k] && s[..k + 1][..k] == s[..k];
  }

  lemma {:induction false} TakeMarked(s: string, m: seq<bool>, k: nat)
    requires |s| == |m| && k < |m| && m[k]
    ensures Count(m[..k + 1]) == Count(m[..k]) + 1
    ensures Picked(s[..k + 1], m[..k + 1]) == Picked(s[..k], m[..k]) + [s[k]]
  {
    assert m[..k + 1][..k] == m[..k] && s[..k + 1][..k] == s[..k];
  }

  lemma {:induction false} MismatchesSnoc(a: string, b: string, x: char, y: char)
    requires |a| == |b|
    ensures Mismatches(a + [x], b + [y]) == Mismatches(a, b) + if x != y then 1 else 0
  {
    assert (a + [x])[..|a|] == a && (b + [y])[..|b|] == b;
  }

  /** Cursors `i` and `k` have passed equally many marks, `t` of them transposed. */
  ghost predicate InStep(c1: string, a: seq<bool>, i: nat, c2: string, b: seq<bool>, k: nat, t: nat)
    requires |a| == |c1| && |b| == |c2|
  {
    && i <= |c1| && k <= |c2|
    && Count(a[..i]) == Count(b[..k])
    && t == Mismatches(Picked(c1[..i], a[..i]), Picked(c2[..k], b[..k]))
  }

  lemma {:induction false} InStepStart(c1: string, a: seq<bool>, c2: string, b: seq<bool>)
    requires |a| == |c1| && |b| == |c2|
    ensures InStep(c1, a, 0, c2, b, 0, 0)
  {
  }

  lemma {:induction false} InStepTake(c1: string, a: seq<bool>, i: nat, c2: string, b: seq<bool>, k: nat, t: nat)
    requires |a| == |c1| && |b| == |c2| && InStep(c1, a, i, c2, b, k, t)
    requires i < |c1| && k < |c2| && a[i] && b[k]
    ensures InStep(c1, a, i + 1, c2, b, k + 1, t + (if c1[i] != c2[k] then 1 else 0))
  {
    hide Count, Picked, Mismatches;
    TakeMarked(c1, a, i);
    TakeMarked(c2, b, k);
    MismatchesSnoc(Picked(c1[..i], a[..i]), Picked(c2[..k], b[..k]), c1[i], c2[k]);
  }

  lemma {:induction false} InStepSkip(c1: string, a: seq<bool>, i: nat, c2: string, b: seq<bool>, k: nat, t: nat)
    requires |a| == |c1| && |b| == |c2| && InStep(c1, a, i, c2, b, k, t)
    ensures i < |c1| && !a[i] ==> InStep(c1, a, i + 1, c2, b, k, t)
    ensures k < |c2| && !b[k] ==> InStep(c1, a, i, c2, b, k + 1, t)
  {
    if i < |c1| && !a[i] {
      SkipUnmarked(c1, a, i);
    }
    if k < |c2| && !b[k] {
      SkipUnmarked(c2, b, k);
    }
  }

  /** With equal totals, a mark ahead of `i` means a mark ahead of `k`. */
  lemma {:induction false} InStepAhead(c1: string, a: seq<bool>, i: nat, c2: string, b: seq<bool>, k: nat, t: nat)
    requires |a| == |c1| && |b| == |c2| && InStep(c1, a, i, c2, b, k, t)
    requires Count(a) == Count(b) && i < |c1| && a[i]
    ensures k < |c2|
  {
    TakeMarked(c1, a, i);
    CountPrefix(a, i + 1);
    MarkAhead(b, k);
  }

  lemma {:induction false} InStepDone(c1: string, a: seq<bool>, c2: string, b: seq<bool>, k: nat, t: nat)
    requires |a| == |c1| && |b| == |c2| && InStep(c1, a, |c1|, c2, b, k, t)
    requires Count(a) == Count(b)
    ensures t == Mismatches(Picked(c1, a), Picked(c2, b))
  {
    assert a[..|c1|] == a && c1[..|c1|] == c1;
    PickedRest(c2, b, k);
  }

  // ---- The imperative matcher ----

  /** The inner scan: the first free position for `c` in `[lo, hi)`, if any. */
  method FindFree(c: char, c2: string, m2: array<bool>, lo: nat, hi: nat) returns (j: nat)
    requires m2.Length == |c2| && hi <= |c2|
    ensures lo <= hi ==> j == FirstFree(c, c2, m2[..], lo, hi)
    ensures lo > hi ==> j == lo
  {
    j := lo;
    while j < hi
      invariant lo <= j && (lo <= hi ==> j <= hi && FirstFree(c, c2, m2[..], lo, hi) == FirstFree(c, c2, m2[..], j, hi))
      invariant lo > hi ==> j == lo
    {
      if m2[j] || c != c2[j] {
        j := j + 1;
        continue;
      }
      return;
    }
  }

  /** What one round of the outer loop does to the arrays, given the scan's result. */
  lemma {:induction false} RoundMarks(c1: string, c2: string, i: nat, j: nat)
    requires i < |c1|
    requires var m, lo, hi := MarksAfter(c1, c2, i), WindowLo(|c1|, |c2|, i), WindowHi(|c1|, |c2|, i);
             if lo <= hi then j == FirstFree(c1[i], c2, m.m2, lo, hi) else j == lo
    ensures var m, hi := MarksAfter(c1, c2, i), WindowHi(|c1|, |c2|, i);
            if j < hi then
              && j < |c2|
              && MarksAfter(c1, c2, i + 1) == Marks(m.m1[i := true], m.m2[j := true])
              && Count(m.m1[i := true]) == Count(m.m1) + 1
            else
              MarksAfter(c1, c2, i + 1) == m
  {
    var m := MarksAfter(c1, c2, i);
    CountUpdate(m.m1, i);
  }

  /** Set one entry of an array. */
  method Mark(m: array<bool>, i: nat)
    requires i < m.Length
    modifies m
    ensures m[..] == old(m[..])[i := true]
  {
    m[i] := true;
  }

  /** First pass: fill the two match arrays and count the matches. */
  method MarkMatches(c1: string, c2: string, m1: array<bool>, m2: array<bool>) returns (matches: nat)
    requires m1 != m2
    requires m1.Length == |c1| && m2.Length == |c2|
    requires forall k :: 0 <= k < m1.Length ==> !m1[k]
    requires forall k :: 0 <= k < m2.Length ==> !m2[k]
    modifies m1, m2
    ensures Marks(m1[..], m2[..]) == Matching(c1, c2)
    ensures matches == Count(m1[..])
  {
    hide Count, MarksAfter, FirstFree, Window;
    var l1, l2 := |c1|, |c2|;
    var window := Window(l1, l2);
    matches := 0;
    NothingMarked(c1, c2, m1[..], m2[..]);
    for i := 0 to l1
      invariant Marks(m1[..], m2[..]) == MarksAfter(c1, c2, i)
      invariant matches == Count(m1[..])
    {
      var lo := Max(0, i - window);
      var hi := Min(i + window + 1, l2);
      var j := FindFree(c1[i], c2, m2, lo, hi);
      RoundMarks(c1, c2, i, j);
      if j < hi {
        Mark(m1, i);
        Mark(m2, j);
        matches := matches + 1;
      }
    }
  }

  lemma {:induction false} NothingMarked(c1: string, c2: string, a: seq<bool>, b: seq<bool>)
    requires |a| == |c1| && |b| == |c2|
    requires (forall k :: 0 <= k < |a| ==> !a[k]) && (forall k :: 0 <= k < |b| ==> !b[k])
    ensures Marks(a, b) == MarksAfter(c1, c2, 0) && Count(a) == 0
  {
    assert a == AllFalse(|c1|) && b == AllFalse(|c2|);
    CountAllFalse(a);
  }

  /** Second pass: walk both match arrays in step. Since they hold equally many
      marks, the scan for the next mark of `m2` never leaves the array. */
  method CountTranspositions(c1: string, c2: string, m1: array<bool>, m2: array<bool>)
    returns (transpositions: nat)
    requires m1.Length == |c1| && m2.Length == |c2|
    requires Count(m1[..]) == Count(m2[..])
    ensures transpositions == Mismatches(Picked(c1, m1[..]), Picked(c2, m2[..]))
  {
    hide InStep, Picked, Mismatches, Count;
    ghost var a, b := m1[..], m2[..];
    transpositions := 0;
    var k := 0;
    InStepStart(c1, a, c2, b);
    for i := 0 to |c1|
      invariant k <= |c2| && InStep(c1, a, i, c2, b, k, transpositions)
    {
      InStepSkip(c1, a, i, c2, b, k, transpositions);
      if !m1[i] {
        continue;
      }
      InStepAhead(c1, a, i, c2, b, k, transpositions);
      while !m2[k]
        invariant k < |c2| && InStep(c1, a, i, c2, b, k, transpositions)
        decreases |c2| - k
      {
        InStepSkip(c1, a, i, c2, b, k, transpositions);
        InStepAhead(c1, a, i, c2, b, k + 1, transpositions);
        k := k + 1;
      }
      InStepTake(c1, a, i, c2, b, k, transpositions);
      if c1[i] != c2[k] {
        transpositions := transpositions + 1;
      }
      k := k + 1;
    }
    InStepDone(c1, a, c2, b, k, transpositions);
  }

  /** The matcher over zeroed scratch arrays. */
  method JaroCore(c1: string, c2: string, m1: array<bool>, m2: array<bool>) returns (score: real)
    requires m1 != m2
    requires m1.Length == |c1| && m2.Length == |c2|
    requires forall k :: 0 <= k < m1.Length ==> !m1[k]
    requires forall k :: 0 <= k < m2.Length ==> !m2[k]
    modifies m1, m2
    ensures score == Similarity(c1, c2)
  {
    var l1, l2 := |c1|, |c2|;
    if l1 == 0 && l2 == 0 {
      return 1.0;
    }
    if l1 == 0 || l2 == 0 {
      return 0.0;
    }
    var matches := MarkMatches(c1, c2, m1, m2);
    if matches == 0 {
      return 0.0;
    }
    MatchingCounts(c1, c2);
    var transpositions := CountTranspositions(c1, c2, m1, m2);
    score := Score(l1, l2, matches, transpositions);
  }

  // ---- Range of the score ----

  lemma {:induction false} Ratio(m: nat, l: nat)
    requires 0 < l && m <= l
    ensures 0.0 <= m as real / l as real <= 1.0
    ensures m as real / l as real == 1.0 <==> m == l
  {
  }

  lemma {:induction false} HalfTransposed(m: nat, t: nat)
    requires 0 < m && t <= m
    ensures 0.0 <= (m as real - t as real / 2.0) / m as real <= 1.0
    ensures (m as real - t as real / 2.0) / m as real == 1.0 <==> t == 0
  {
    var q := (m as real - t as real / 2.0) / m as real;
    assert q * m as real == m as real - t as real / 2.0;
  }

  lemma {:induction false} ScoreRange(l1: nat, l2: nat, m: nat, t: nat)
    requires 0 < m <= l1 && m <= l2 && t <= m
    ensures 0.0 <= Score(l1, l2, m, t) <= 1.0
    ensures Score(l1, l2, m, t) == 1.0 <==> m == l1 == l2 && t == 0
  {
    Ratio(m, l1);
    Ratio(m, l2);
    HalfTransposed(m, t);
  }

  /** Matching a string against itself marks every position in order. */
  lemma {:induction false} MarksOfSame(c: string, i: nat)
    requires i <= |c|
    ensures forall k :: 0 <= k < |c| ==> MarksAfter(c, c, i).m1[k] == MarksAfter(c, c, i).m2[k] == (k < i)
  {
    if i > 0 {
      MarksOfSame(c, i - 1);
      var m := MarksAfter(c, c, i - 1);
      var lo, hi := WindowLo(|c|, |c|, i - 1), WindowHi(|c|, |c|, i - 1);
      assert lo <= i - 1 < hi && Free(c[i - 1], c, m.m2, i - 1);
    }
  }

  /** The score lies in [0, 1] and is 1 exactly for equal strings. */
  lemma {:induction false} SimilarityRange(c1: string, c2: string)
    ensures 0.0 <= Similarity(c1, c2) <= 1.0
    ensures Similarity(c1, c2) == 1.0 <==> c1 == c2
  {
    if |c1| == 0 || |c2| == 0 {
      return;
    }
    MatchingCounts(c1, c2);
    var m := Matching(c1, c2);
    var a, b := Picked(c1, m.m1), Picked(c2, m.m2);
    if c1 == c2 {
      MarksOfSame(c1, |c1|);
      CountFull(m.m1);
      PickedAll(c1, m.m1);
      PickedAll(c2, m.m2);
      NoMismatchMeansEqual(a, b);
    }
    if Count(m.m1) > 0 {
      ScoreRange(|c1|, |c2|, Count(m.m1), Mismatches(a, b));
      if Similarity(c1, c2) == 1.0 {
        CountFull(m.m1);
        CountFull(m.m2);
        PickedAll(c1, m.m1);
        PickedAll(c2, m.m2);
        NoMismatchMeansEqual(a, b);
      }
    }
  }

  // ---- Jaro-Winkler ----

  /** Length of the common prefix, looking at no more than `n` characters. */
  function CommonPrefix(s1: string, s2: string, n: nat): (p: nat)
    ensures p <= n && p <= |s1| && p <= |s2|
    ensures s1[..p] == s2[..p]
    ensures p < n && p < |s1| && p < |s2| ==> s1[p] != s2[p]
  {
    if n == 0 || s1 == "" || s2 == "" || s1[0] != s2[0] then 0
    else
      var p := CommonPrefix(s1[1..], s2[1..], n - 1);
      assert s1[..p + 1] == [s1[0]] + s1[1..][..p] && s2[..p + 1] == [s2[0]] + s2[1..][..p];
      p + 1
  }

  /** The Winkler bonus pulls a score towards 1 by a tenth of the gap per prefix character. */
  function Boost(jaro: real, prefix: nat): real { jaro + 0.1 * prefix as real * (1.0 - jaro) }

  function JaroWinkler(s1: string, s2: string): real {
    if s1 == s2 then 1.0
    else if s1 == "" || s2 == "" then 0.0
    else Boost(Similarity(s1, s2), CommonPrefix(s1, s2, 4))
  }

  lemma {:induction false} BoostMonotone(j: real, k: real, prefix: nat)
    requires j <= k <= 1.0 && prefix <= 4
    ensures j <= Boost(j, prefix) <= Boost(k, prefix) <= 1.0
    ensures Boost(j, prefix) == 1.0 <==> j == 1.0
  {
    match prefix
    case 0 =>
    case 1 =>
    case 2 =>
    case 3 =>
    case 4 =>
  }

  /** Jaro-Winkler lies in [0, 1] and is 1 exactly for equal strings. */
  lemma {:induction false} JaroWinklerRange(s1: string, s2: string)
    ensures 0.0 <= JaroWinkler(s1, s2) <= 1.0
    ensures JaroWinkler(s1, s2) == 1.0 <==> s1 == s2
  {
    SimilarityRange(s1, s2);
    BoostMonotone(Similarity(s1, s2), 1.0, CommonPrefix(s1, s2, 4));
  }

  // ---- The upper bound ----

  /** Presence bit of a character: the normalized alphabet one bit each, the rest shared. */
  function CharBit(c: char): bv64 {
    (1 as bv64) << (
      if 'a' <= c <= 'z' then c as int - 'a' as int
      else if '0' <= c <= '9' then 26 + (c as int - '0' as int)
      else if c == '+' then 36
      else if c == '-' then 37
      else 63)
  }

  function CharMask(s: string): bv64 {
    if s == "" then 0 else CharMask(s[..|s| - 1]) | CharBit(s[|s| - 1])
  }

  /** How many characters of `s` have their bit in `mask`. */
  function Shared(s: string, mask: bv64): (n: nat)
    ensures n <= |s|
  {
    if s == "" then 0
    else Shared(s[..|s| - 1], mask) + (if CharBit(s[|s| - 1]) & mask != 0 then 1 else 0)
  }

  lemma {:induction false} BitNonZero(c: char)
    ensures CharBit(c) != 0
  {
  }

  lemma {:induction false} MaskKeeps(b: bv64, m: bv64, x: bv64)
    requires b & m != 0
    ensures b & (m | x) != 0
  {
    assert b & (m | x) == (b & m) | (b & x);
  }

  lemma {:induction false} MaskHolds(s: string, c: char)
    requires c in s
    ensures CharBit(c) & CharMask(s) != 0
  {
    var n := |s| - 1;
    assert s == s[..n] + [s[n]];
    if c == s[n] {
      BitNonZero(c);
      assert CharBit(c) & (CharMask(s[..n]) | CharBit(c)) == CharBit(c);
    } else {
      MaskHolds(s[..n], c);
      MaskKeeps(CharBit(c), CharMask(s[..n]), CharBit(s[n]));
    }
  }

  /** Characters picked from `s2` that all occur in `s1` are no more than the shared ones. */
  lemma {:induction false} PickedShared(s1: string, s2: string, m: seq<bool>)
    requires |m| == |s2| && forall c :: c in Picked(s2, m) ==> c in s1
    ensures Count(m) <= Shared(s2, CharMask(s1))
  {
    if m != [] {
      var n := |m| - 1;
      assert Picked(s2[..n], m[..n]) <= Picked(s2, m);
      forall c | c in Picked(s2[..n], m[..n])
        ensures c in s1
      {
        assert c in Picked(s2, m);
      }
      PickedShared(s1, s2[..n], m[..n]);
      if m[n] {
        assert s2[n] in Picked(s2, m);
        MaskHolds(s1, s2[n]);
      }
    }
  }

  lemma {:induction false} PickedFrom(s: string, m: seq<bool>, c: char)
    requires |s| == |m| && c in Picked(s, m)
    ensures c in s
  {
    var n := |m| - 1;
    if c in Picked(s[..n], m[..n]) {
      PickedFrom(s[..n], m[..n], c);
    }
  }

  /** No pair of strings has more matches than the bound assumes. */
  lemma {:induction false} MatchesBounded(s1: string, s2: string)
    ensures Count(Matching(s1, s2).m1) <= Min(Min(|s1|, |s2|), Shared(s2, CharMask(s1)))
  {
    MatchingCounts(s1, s2);
    var m := Matching(s1, s2);
    forall c | c in Picked(s2, m.m2)
      ensures c in s1
    {
      assert c in multiset(Picked(s2, m.m2));
      assert c in multiset(Picked(s1, m.m1));
      PickedFrom(s1, m.m1, c);
    }
    PickedShared(s1, s2, m.m2);
  }

  lemma {:induction false} RatioMonotone(a: nat, b: nat, l: nat)
    requires a <= b && 0 < l
    ensures a as real / l as real <= b as real / l as real
  {
  }

  /** The Jaro score the bound assumes: as many matches as possible, none transposed. */
  function OptimisticScore(l1: nat, l2: nat, m: nat): real
    requires l1 > 0 && l2 > 0
  {
    (m as real / l1 as real + m as real / l2 as real + 1.0) / 3.0
  }

  lemma {:induction false} ScoreBelowOptimistic(l1: nat, l2: nat, n: nat, m: nat, t: nat)
    requires 0 < n <= m && t <= n && l1 > 0 && l2 > 0
    ensures Score(l1, l2, n, t) <= OptimisticScore(l1, l2, m)
  {
    RatioMonotone(n, m, l1);
    RatioMonotone(n, m, l2);
    HalfTransposed(n, t);
  }

  lemma {:induction false} SimilarityBelowOptimistic(s1: string, s2: string)
    requires s1 != "" && s2 != ""
    ensures Similarity(s1, s2)
         <= OptimisticScore(|s1|, |s2|, Min(Min(|s1|, |s2|), Shared(s2, CharMask(s1)))) <= 1.0
  {
    MatchingCounts(s1, s2);
    MatchesBounded(s1, s2);
    var mk := Matching(s1, s2);
    var m := Min(Min(|s1|, |s2|), Shared(s2, CharMask(s1)));
    Ratio(m, |s1|);
    Ratio(m, |s2|);
    if Count(mk.m1) > 0 {
      ScoreBelowOptimistic(|s1|, |s2|, Count(mk.m1), m, Mismatches(Picked(s1, mk.m1), Picked(s2, mk.m2)));
    }
  }

  function UpperBound(s1: string, s2: string): real
    requires s1 != "" && s2 != ""
  {
    Boost(OptimisticScore(|s1|, |s2|, Min(Min(|s1|, |s2|), Shared(s2, CharMask(s1)))), CommonPrefix(s1, s2, 4))
  }

  /** Skipping is conservative: the bound is never below the true score. */
  lemma {:induction false} UpperBoundHolds(s1: string, s2: string)
    requires s1 != "" && s2 != ""
    ensures 0.0 <= JaroWinkler(s1, s2) <= UpperBound(s1, s2) <= 1.0
  {
    JaroWinklerRange(s1, s2);
    SimilarityRange(s1, s2);
    SimilarityBelowOptimistic(s1, s2);
    var jaro := OptimisticScore(|s1|, |s2|, Min(Min(|s1|, |s2|), Shared(s2, CharMask(s1))));
    BoostMonotone(Similarity(s1, s2), jaro, CommonPrefix(s1, s2, 4));
    BoostMonotone(jaro, 1.0, CommonPrefix(s1, s2, 4));
  }

  /** The score when it can reach `minConfidence`, else 0. */
  function AtLeast(s1: string, s2: string, minConfidence: real): real {
    if s1 != "" && s2 != "" && UpperBound(s1, s2) + 0.000000001 < minConfidence then 0.0
    else JaroWinkler(s1, s2)
  }

  /** A caller that discards scores below its threshold cannot tell the pruned score
      from the true one. */
  lemma {:induction false} PruningIsInvisible(s1: string, s2: string, minConfidence: real)
    ensures AtLeast(s1, s2, minConfidence) <= JaroWinkler(s1, s2)
    ensures AtLeast(s1, s2, minConfidence) == JaroWinkler(s1, s2)
         || (JaroWinkler(s1, s2) < minConfidence && AtLeast(s1, s2, minConfidence) < minConfidence)
  {
    JaroWinklerRange(s1, s2);
    if s1 != "" && s2 != "" {
      UpperBoundHolds(s1, s2);
    }
  }
}
