/** Reals with the two infinities the accumulators use as empty-window sentinels. */
module Extended {
  datatype Ext = NegInf | Fin(v: real) | PosInf

  /** `max(h, p)` and `min(l, p)` for a finite price. */
  function Raise(h: Ext, p: real): Ext {
    match h
    case NegInf => Fin(p)
    case Fin(v) => if p > v then Fin(p) else h
    case PosInf => h
  }

  function Lower(l: Ext, p: real): Ext {
    match l
    case NegInf => l
    case Fin(v) => if p < v then Fin(p) else l
    case PosInf => Fin(p)
  }

  /** The extremes of a list of prices; the sentinels when it is empty. */
  function Highest(ps: seq<real>): (h: Ext)
    ensures h.NegInf? <==> ps == []
    ensures h.Fin? ==> h.v in ps && forall p :: p in ps ==> p <= h.v
    ensures !h.PosInf?
  {
    if ps == [] then NegInf
    else
      var n := |ps| - 1;
      assert ps == ps[..n] + [ps[n]];
      Raise(Highest(ps[..n]), ps[n])
  }

  function Lowest(ps: seq<real>): (l: Ext)
    ensures l.PosInf? <==> ps == []
    ensures l.Fin? ==> l.v in ps && forall p :: p in ps ==> l.v <= p
    ensures !l.NegInf?
  {
    if ps == [] then PosInf
    else
      var n := |ps| - 1;
      assert ps == ps[..n] + [ps[n]];
      Lower(Lowest(ps[..n]), ps[n])
  }

  lemma {:induction false} ExtremesSnoc(ps: seq<real>, p: real)
    ensures Highest(ps + [p]) == Raise(Highest(ps), p)
    ensures Lowest(ps + [p]) == Lower(Lowest(ps), p)
  {
    assert (ps + [p])[..|ps|] == ps;
  }
}
