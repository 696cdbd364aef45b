/** Largest elements of finite integer sets, for walking map keys in order. */
module IntSets {
  ghost predicate IsMax(s: set<int>, m: int) {
    m in s && forall x :: x in s ==> x <= m
  }

  lemma {:induction false} Pick<T>(s: set<T>) returns (x: T)
    requires s != {}
    ensures x in s
  {
    x :| x in s;
  }

  lemma {:induction false} MaxExists(s: set<int>)
    requires s != {}
    ensures exists m :: IsMax(s, m)
  {
    var x := Pick(s);
    if s == {x} {
      assert IsMax(s, x);
    } else {
      MaxExists(s - {x});
      var m :| IsMax(s - {x}, m);
      var top := if x <= m then m else x;
      forall d | d in s
        ensures d <= top
      {
        assert d == x || d in s - {x};
      }
      assert IsMax(s, top);
    }
  }

  ghost function MaxOf(s: set<int>): (m: int)
    requires s != {}
    ensures IsMax(s, m)
  {
    MaxExists(s);
    var m :| IsMax(s, m);
    m
  }

  /** The largest element of a set, by a scan. */
  method FindMax(s: set<int>) returns (m: int)
    requires s != {}
    ensures IsMax(s, m) && m == MaxOf(s)
  {
    var left := s;
    ghost var any := Pick(left);
    m :| m in left;
    left := left - {m};
    ghost var seen := {m};
    while left != {}
      invariant left + seen == s && IsMax(seen, m)
      decreases |left|
    {
      any := Pick(left);
      var d :| d in left;
      if m < d {
        m := d;
      }
      left := left - {d};
      seen := seen + {d};
    }
  }
}
