/** The Jaro and Jaro-Winkler scores in terms of the two strings: which positions match, how many of them are
    out of order, and what the score makes of them.
 */
module JaroLaws {
  import opened Jaro

  // ---- Which positions match ----

  /** Half the longer length, less one; nothing for two characters or fewer. */
  function Reach(l1: nat, l2: nat): nat {
    var longer := if l1 < l2 then l2 else l1;
    if longer <= 2 then 0 else longer / 2 - 1
  }

  /** Position `j` of `c2` is within reach of `i`, holds the same character, and no earlier one has it. */
  ghost predicate Candidate(c1: string, c2: string, to: seq<int>, i: nat, j: int)
    requires i < |c1| && i <= |to|
  {
    && 0 <= j < |c2| && i - Reach(|c1|, |c2|) <= j <= i + Reach(|c1|, |c2|)
    && c1[i] == c2[j] && forall k :: 0 <= k < i ==> to[k] != j
  }

  /** Each of the first characters of `c1` takes the leftmost candidate, or -1 when there is none. */
  ghost predicate Greedy(c1: string, c2: string, to: seq<int>)
    requires |to| <= |c1|
  {
    forall i :: 0 <= i < |to| ==>
      if to[i] == -1 then forall j: int :: !Candidate(c1, c2, to, i, j)
      else Candidate(c1, c2, to, i, to[i]) && forall j: int :: j < to[i] ==> !Candidate(c1, c2, to, i, j)
  }

  /** Later choices do not change what an earlier position could take. */
  lemma {:induction false} CandidatePrefix(c1: string, c2: string, p: seq<int>, x: int, i: nat, j: int)
    requires i <= |p| && i < |c1|
    ensures Candidate(c1, c2, p + [x], i, j) <==> Candidate(c1, c2, p, i, j)
  {
    assert forall k :: 0 <= k < i ==> (p + [x])[k] == p[k];
  }

  lemma {:induction false} GreedySnoc(c1: string, c2: string, p: seq<int>, x: int)
    requires |p| < |c1| && Greedy(c1, c2, p)
    requires if x == -1 then forall j: int :: !Candidate(c1, c2, p, |p|, j)
             else Candidate(c1, c2, p, |p|, x) && forall j: int :: j < x ==> !Candidate(c1, c2, p, |p|, j)
    ensures Greedy(c1, c2, p + [x])
  {
    hide Candidate;
    var to := p + [x];
    forall i, j: int | 0 <= i <= |p|
      ensures Candidate(c1, c2, to, i, j) <==> Candidate(c1, c2, p, i, j)
    {
      CandidatePrefix(c1, c2, p, x, i, j);
    }
    assert forall i :: 0 <= i < |p| ==> to[i] == p[i];
  }

  /** The candidates are the free positions of the window the matcher scans. */
  lemma {:induction false} CandidateIsFree(c1: string, c2: string, m2: seq<bool>, p: seq<int>, j: int)
    requires |p| < |c1| && |m2| == |c2|
    requires forall k :: 0 <= k < |c2| ==> (m2[k] <==> k in p)
    ensures Candidate(c1, c2, p, |p|, j)
       <==> WindowLo(|c1|, |c2|, |p|) <= j < WindowHi(|c1|, |c2|, |p|) && Free(c1[|p|], c2, m2, j)
  {
    if 0 <= j < |c2| {
      assert j in p <==> exists k :: 0 <= k < |p| && p[k] == j;
    }
  }

  /** The matcher's two arrays mark exactly the positions this pairs. */
  lemma {:induction false} GreedyMarks(c1: string, c2: string, n: nat) returns (to: seq<int>)
    requires n <= |c1|
    ensures |to| == n && Greedy(c1, c2, to)
    ensures var m := MarksAfter(c1, c2, n);
            && (forall i :: 0 <= i < n ==> (m.m1[i] <==> to[i] != -1))
            && (forall j :: 0 <= j < |c2| ==> (m.m2[j] <==> j in to))
  {
    hide Greedy, Candidate, WindowLo, WindowHi, Free;
    if n == 0 {
      to := [];
      NoChoices(c1, c2);
    } else {
      var i := n - 1;
      var p := GreedyMarks(c1, c2, i);
      var m := MarksAfter(c1, c2, i);
      var lo, hi := WindowLo(|c1|, |c2|, i), WindowHi(|c1|, |c2|, i);
      HighInside(|c1|, |c2|, i);
      var j := if lo < hi then FirstFree(c1[i], c2, m.m2, lo, hi) else hi;
      var x := if lo < hi && j < hi then j else -1;
      forall y: int
        ensures Candidate(c1, c2, p, i, y) <==> lo <= y < hi && Free(c1[i], c2, m.m2, y)
      {
        CandidateIsFree(c1, c2, m.m2, p, y);
      }
      GreedySnoc(c1, c2, p, x);
      to := p + [x];
    }
  }

  lemma {:induction false} HighInside(l1: nat, l2: nat, i: nat)
    ensures WindowHi(l1, l2, i) <= l2
  {
  }

  lemma {:induction false} NoChoices(c1: string, c2: string)
    ensures Greedy(c1, c2, [])
  {
  }

  // ---- Marked positions in order ----

  /** The members of a set, ascending. */
  ghost predicate Lists(at: seq<nat>, s: set<nat>) {
    && (forall k :: 0 <= k < |at| ==> at[k] in s)
    && (forall k, l :: 0 <= k < l < |at| ==> at[k] < at[l])
    && (forall i :: i in s ==> i in at)
  }

  ghost function Marked(m: seq<bool>): set<nat> { set i: nat | i < |m| && m[i] }

  lemma {:induction false} PickedLists(s: string, m: seq<bool>) returns (at: seq<nat>)
    requires |s| == |m|
    ensures Lists(at, Marked(m)) && |at| == Count(m)
    ensures forall k :: 0 <= k < |at| ==> at[k] < |s| && Picked(s, m)[k] == s[at[k]]
  {
    if m == [] {
      at := [];
    } else {
      var n := |m| - 1;
      var f := PickedLists(s[..n], m[..n]);
      at := if m[n] then f + [n] else f;
      ListsSnoc(f, m);
    }
  }

  lemma {:induction false} MarkedBelow(m: seq<bool>)
    ensures forall i :: i in Marked(m) ==> i < |m|
  {
  }

  lemma {:induction false} ListsSnoc(f: seq<nat>, m: seq<bool>)
    requires m != [] && Lists(f, Marked(m[..|m| - 1]))
    ensures Lists(if m[|m| - 1] then f + [|m| - 1] else f, Marked(m))
  {
    var n: nat := |m| - 1;
    assert Marked(m) == Marked(m[..n]) + if m[n] then {n} else {};
    hide Marked;
    assert forall i :: i in Marked(m[..n]) ==> i < n by { MarkedBelow(m[..n]); }
    if m[n] {
      assert forall i :: i in f + [n] <==> i in f || i == n;
    }
  }

  /** The positions at which two strings of one length differ. */
  ghost function Differing(a: string, b: string): set<nat>
    requires |a| == |b|
  {
    set k: nat | k < |a| && a[k] != b[k]
  }

  lemma {:induction false} MismatchesCounted(a: string, b: string)
    requires |a| == |b|
    ensures Mismatches(a, b) == |Differing(a, b)|
  {
    if a != [] {
      var n := |a| - 1;
      MismatchesCounted(a[..n], b[..n]);
      assert Differing(a, b) == Differing(a[..n], b[..n]) + if a[n] != b[n] then {n as nat} else {};
    }
  }

  /** The matched characters, in order of `c1` and in order of `c2`, and where they disagree. */
  ghost function Crossed(c1: string, at: seq<nat>, c2: string, bt: seq<nat>): set<nat>
    requires |at| == |bt|
    requires forall k :: 0 <= k < |at| ==> at[k] < |c1| && bt[k] < |c2|
  {
    set k: nat | k < |at| && c1[at[k]] != c2[bt[k]]
  }

  lemma {:induction false} CrossedAsPicked(c1: string, at: seq<nat>, c2: string, bt: seq<nat>, a: string, b: string)
    requires |at| == |bt| == |a| == |b|
    requires forall k :: 0 <= k < |at| ==> at[k] < |c1| && a[k] == c1[at[k]] && bt[k] < |c2| && b[k] == c2[bt[k]]
    ensures Crossed(c1, at, c2, bt) == Differing(a, b)
  {
  }

  // ---- The scores ----

  lemma {:induction false} ScoreAs(l1: nat, l2: nat, m: nat, t: nat)
    requires l1 > 0 && l2 > 0 && m > 0
    ensures Score(l1, l2, m, t)
         == (m as real / l1 as real + m as real / l2 as real + (m as real - t as real / 2.0) / m as real) / 3.0
  {
  }

  /** The Jaro score of two non-empty strings: `at` and `bt` are the matched positions, each in its own order. */
  lemma {:induction false} JaroLaw(c1: string, c2: string) returns (to: seq<int>, at: seq<nat>, bt: seq<nat>)
    requires c1 != "" && c2 != ""
    ensures |to| == |c1| && Greedy(c1, c2, to)
    ensures Lists(at, set i: nat | i < |to| && to[i] != -1) && Lists(bt, set j: nat | j < |c2| && j in to)
    ensures |at| == |bt| && forall k :: 0 <= k < |at| ==> at[k] < |c1| && bt[k] < |c2|
    ensures var l1, l2, m := |c1| as real, |c2| as real, |at| as real;
            Similarity(c1, c2)
            == if at == [] then 0.0
               else (m / l1 + m / l2 + (m - |Crossed(c1, at, c2, bt)| as real / 2.0) / m) / 3.0
  {
    hide MarksAfter, Greedy, Lists, Candidate, Picked, Count, Mismatches, Crossed, Differing, Score;
    to := GreedyMarks(c1, c2, |c1|);
    var mk := Matching(c1, c2);
    MatchingCounts(c1, c2);
    at := PickedLists(c1, mk.m1);
    bt := PickedLists(c2, mk.m2);
    assert Marked(mk.m1) == set i: nat | i < |to| && to[i] != -1;
    assert Marked(mk.m2) == set j: nat | j < |c2| && j in to;
    var a, b := Picked(c1, mk.m1), Picked(c2, mk.m2);
    MismatchesCounted(a, b);
    CrossedAsPicked(c1, at, c2, bt, a, b);
    if at != [] {
      ScoreAs(|c1|, |c2|, |at|, Mismatches(a, b));
    }
  }

  /** The Winkler score: `p` is the common prefix, four characters of it at most, and each brings the score a
      tenth of the way to 1. */
  lemma {:induction false} JaroWinklerLaw(s1: string, s2: string) returns (p: nat)
    ensures s1 == s2 ==> JaroWinkler(s1, s2) == 1.0
    ensures s1 != s2 && (s1 == "" || s2 == "") ==> JaroWinkler(s1, s2) == 0.0
    ensures p <= 4 && p <= |s1| && p <= |s2| && s1[..p] == s2[..p]
    ensures p == 4 || p == |s1| || p == |s2| || s1[p] != s2[p]
    ensures s1 != s2 && s1 != "" && s2 != "" ==>
              JaroWinkler(s1, s2) - Similarity(s1, s2) == p as real / 10.0 * (1.0 - Similarity(s1, s2))
  {
    hide Similarity, Boost, CommonPrefix;
    p := CommonPrefix(s1, s2, 4);
    BoostAs(Similarity(s1, s2), p);
  }

  lemma {:induction false} BoostAs(j: real, p: nat)
    ensures Boost(j, p) - j == p as real / 10.0 * (1.0 - j)
  {
    assert 0.1 * p as real == p as real / 10.0;
  }
}
