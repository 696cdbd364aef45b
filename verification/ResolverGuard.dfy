/** What the load-time panic on crypto keys does and does not catch. It compares a new row with the
    current owner of a key, and with nothing else.
 */
module ResolverGuard {
  import opened Optional
  import opened Resolver

  // ---- The exact condition ----

  /** A crypto asset other than `e`. */
  predicate Rival(e: Entry, r: Entry) { r.asset.cls == CR && r.asset.id != e.asset.id }

  /** Some loaded row is a different crypto asset that holds the key. */
  ghost predicate Contested(rows: seq<Entry>, e: Entry, key: string) {
    exists i :: 0 <= i < |rows| && Rival(e, rows[i]) && key in Keys(rows[i])
  }

  /** Row `k` hides every rival on the key: a row of another class, or an earlier one of `e` itself,
      that goes before all of them. */
  ghost predicate Shields(rows: seq<Entry>, e: Entry, key: string, k: nat)
    requires k < |rows|
  {
    && !Rival(e, rows[k]) && key in Keys(rows[k])
    && forall i :: 0 <= i < |rows| && Rival(e, rows[i]) && key in Keys(rows[i]) ==>
         Less(ExactKey(rows[k], key), ExactKey(rows[i], key))
  }

  ghost predicate Shielded(rows: seq<Entry>, e: Entry, key: string) {
    Contested(rows, e, key) ==> exists k :: 0 <= k < |rows| && Shields(rows, e, key, k)
  }

  /** Rows of different assets never tie. */
  lemma {:induction false} NeverTied(e: Entry, a: Entry, b: Entry, key: string)
    requires !Rival(e, a) && Rival(e, b) && e.asset.cls == CR
    ensures Less(ExactKey(a, key), ExactKey(b, key)) || Less(ExactKey(b, key), ExactKey(a, key))
  {
  }

  /** The guard stays silent on a key if and only if no rival holds it or some row shields them all. */
  lemma {:induction false} GuardSilentExactlyWhen(rows: seq<Entry>, e: Entry, key: string)
    requires e.asset.cls == CR && key != ""
    ensures !CollidesOn(rows, e, key) <==> Shielded(rows, e, key)
  {
    hide ExactKey, Less, Keys;
    var o := Owner(rows, key, None);
    assert forall r: Entry :: Hits(key, None)(r) <==> key in Keys(r);
    if o.Some? && Rival(e, rows[o.value]) {
      assert Contested(rows, e, key);
    } else if o.Some? {
      forall i | 0 <= i < |rows| && Rival(e, rows[i]) && key in Keys(rows[i])
        ensures Less(ExactKey(rows[o.value], key), ExactKey(rows[i], key))
      {
        NeverTied(e, rows[o.value], rows[i], key);
        assert Hits(key, None)(rows[i]);
      }
      assert Shields(rows, e, key, o.value);
    } else {
      forall i | 0 <= i < |rows|
        ensures key !in Keys(rows[i])
      {
        assert !Hits(key, None)(rows[i]);
      }
    }
  }

  /** Every key of a crypto row is uncontested or shielded. */
  ghost predicate RowShielded(rows: seq<Entry>, e: Entry) {
    e.asset.cls == CR ==> forall key :: key in Keys(e) && key != "" ==> Shielded(rows, e, key)
  }

  lemma {:induction false} RowSilentExactlyWhen(rows: seq<Entry>, e: Entry)
    ensures !Collides(rows, e) <==> RowShielded(rows, e)
  {
    hide CollidesOn, Shielded;
    if e.asset.cls == CR {
      forall key | key != ""
        ensures !CollidesOn(rows, e, key) <==> Shielded(rows, e, key)
      {
        GuardSilentExactlyWhen(rows, e, key);
      }
    }
    forall key | key == "" || e.asset.cls != CR
      ensures !CollidesOn(rows, e, key)
    {
      NeverOnThese(rows, e, key);
    }
    if Collides(rows, e) {
      var i :| 0 <= i < |Keys(e)| && CollidesOn(rows, e, Keys(e)[i]);
      assert Keys(e)[i] in Keys(e);
    }
  }

  lemma {:induction false} NeverOnThese(rows: seq<Entry>, e: Entry, key: string)
    requires key == "" || e.asset.cls != CR
    ensures !CollidesOn(rows, e, key)
  {
  }

  lemma {:induction false} ShieldedRowsLoad(es: seq<Entry>)
    requires forall j :: 0 <= j < |es| ==> RowShielded(es[..j], es[j])
    ensures LoadsCleanly([], es)
  {
    hide RowShielded, Collides;
    if es != [] {
      var n := |es| - 1;
      forall j | 0 <= j < n
        ensures RowShielded(es[..n][..j], es[..n][j])
      {
        assert es[..n][..j] == es[..j];
      }
      ShieldedRowsLoad(es[..n]);
      RowSilentExactlyWhen(es[..n], es[n]);
      assert [] + es[..n] == es[..n];
    }
  }

  lemma {:induction false} LoadedRowShielded(es: seq<Entry>, j: nat)
    requires LoadsCleanly([], es) && j < |es|
    ensures RowShielded(es[..j], es[j])
  {
    hide RowShielded, Collides, LoadsCleanly;
    LoadsPrefix([], es, j);
    assert [] + es[..j] == es[..j];
    RowSilentExactlyWhen(es[..j], es[j]);
  }

  /** A table loads if and only if every key of every crypto row is uncontested or shielded among the
      rows before it. */
  lemma {:induction false} LoadsExactlyWhen(es: seq<Entry>)
    ensures LoadsCleanly([], es) <==> forall j :: 0 <= j < |es| ==> RowShielded(es[..j], es[j])
  {
    hide RowShielded, LoadsCleanly;
    if LoadsCleanly([], es) {
      forall j | 0 <= j < |es|
        ensures RowShielded(es[..j], es[j])
      {
        LoadedRowShielded(es, j);
      }
    }
    if forall j :: 0 <= j < |es| ==> RowShielded(es[..j], es[j]) {
      ShieldedRowsLoad(es);
    }
  }

  // ---- Twins ----

  /** Two crypto assets that share a key. */
  predicate Twins(a: Entry, b: Entry, key: string) {
    a.asset.cls == b.asset.cls == CR && a.asset.id != b.asset.id && key != "" && key in Keys(a) && key in Keys(b)
  }

  ghost predicate TwinFree(es: seq<Entry>) {
    forall a, b, key :: a in es && b in es ==> !Twins(a, b, key)
  }

  /** A row of another class shares a key with a crypto row. */
  predicate Overlap(a: Entry, c: Entry, key: string) {
    a.asset.cls != CR && c.asset.cls == CR && key != "" && key in Keys(a) && key in Keys(c)
  }

  /** Where a row got past the guard although its twin was there, and no row of another class holds
      the key, the rows before it already held twins. */
  lemma {:induction false} EarlierTwins(front: seq<Entry>, e: Entry, a: Entry, key: string)
    requires RowShielded(front, e) && a in front && Twins(a, e, key)
    requires forall r :: r in front ==> !Overlap(r, e, key)
    ensures exists r :: r in front && Twins(r, a, key)
  {
    hide Keys, Less, ExactKey;
    var i :| 0 <= i < |front| && front[i] == a;
    assert Rival(e, front[i]) && Contested(front, e, key);
    assert Shielded(front, e, key);
    var k :| 0 <= k < |front| && Shields(front, e, key, k);
    assert front[k] in front && !Overlap(front[k], e, key);
    assert Twins(front[k], a, key);
  }

  /** A table that loads and in which no row of another class shares a key with a crypto row has no
      twins: without such a row the guard is complete. */
  lemma {:induction false} GuardCompleteWithoutOverlap(es: seq<Entry>)
    requires LoadsCleanly([], es)
    requires forall a, c, key :: a in es && c in es ==> !Overlap(a, c, key)
    ensures TwinFree(es)
  {
    hide Keys, RowShielded;
    if es != [] {
      var n := |es| - 1;
      GuardCompleteWithoutOverlap(es[..n]);
      LoadedRowShielded(es, n);
      hide LoadsCleanly;
      forall a, key | a in es[..n]
        ensures !Twins(a, es[n], key) && !Twins(es[n], a, key)
      {
        if Twins(a, es[n], key) || Twins(es[n], a, key) {
          EarlierTwins(es[..n], es[n], a, key);
        }
      }
      assert es == es[..n] + [es[n]];
    }
  }

  lemma {:induction false} TwinFreeLoads(es: seq<Entry>)
    requires TwinFree(es)
    ensures LoadsCleanly([], es)
  {
    hide Keys;
    forall j | 0 <= j < |es|
      ensures RowShielded(es[..j], es[j])
    {
      forall key | key in Keys(es[j]) && key != "" && es[j].asset.cls == CR
        ensures !Contested(es[..j], es[j], key)
      {
        forall i | 0 <= i < j && Rival(es[j], es[..j][i])
          ensures key !in Keys(es[..j][i])
        {
          assert !Twins(es[i], es[j], key);
        }
      }
    }
    ShieldedRowsLoad(es);
  }

  lemma {:induction false} InOfClass(rows: seq<Entry>, filter: Option<nat>, e: Entry)
    ensures e in OfClass(rows, filter) <==> e in rows && InClass(e, filter)
  {
    OfClassCount(rows, filter, e);
    assert e in OfClass(rows, filter) <==> e in multiset(OfClass(rows, filter));
    assert e in rows <==> e in multiset(rows);
  }

  /** What the guard is for, exactly: a table has no two crypto assets of one key if and only if its
      crypto rows load on their own. */
  lemma {:induction false} TwinFreeExactlyWhen(es: seq<Entry>)
    ensures TwinFree(es) <==> LoadsCleanly([], OfClass(es, Some(CR)))
  {
    hide Keys, LoadsCleanly, OfClass;
    var c := OfClass(es, Some(CR));
    forall e
      ensures e in c <==> e in es && e.asset.cls == CR
    {
      InOfClass(es, Some(CR), e);
    }
    if TwinFree(es) {
      TwinFreeLoads(c);
    }
    if LoadsCleanly([], c) {
      GuardCompleteWithoutOverlap(c);
    }
  }

  /** And in a table that loads, twins exist if and only if some row shields one from the other. */
  lemma {:induction false} LoadedTwinsExactlyWhen(es: seq<Entry>)
    requires LoadsCleanly([], es)
    ensures !TwinFree(es) <==>
            exists j, key, k :: 0 <= k < j < |es| && es[j].asset.cls == CR && key in Keys(es[j]) && key != ""
                                && Contested(es[..j], es[j], key) && Shields(es[..j], es[j], key, k)
  {
    hide Keys, LoadsCleanly, Less, ExactKey;
    if j, key, k :| 0 <= k < j < |es| && es[j].asset.cls == CR && key in Keys(es[j]) && key != ""
                    && Contested(es[..j], es[j], key) && Shields(es[..j], es[j], key, k) {
      var i :| 0 <= i < j && Rival(es[j], es[..j][i]) && key in Keys(es[..j][i]);
      assert Twins(es[i], es[j], key);
    }
    if !TwinFree(es) {
      var a, b, key :| a in es && b in es && Twins(a, b, key);
      var i :| 0 <= i < |es| && es[i] == a;
      var j :| 0 <= j < |es| && es[j] == b;
      LaterTwinShielded(es, if i < j then i else j, if i < j then j else i, key);
    }
  }

  lemma {:induction false} LaterTwinShielded(es: seq<Entry>, i: nat, j: nat, key: string)
    requires LoadsCleanly([], es) && i < j < |es| && Twins(es[i], es[j], key)
    ensures Contested(es[..j], es[j], key)
    ensures exists k :: 0 <= k < j && Shields(es[..j], es[j], key, k)
  {
    hide Keys, Less, ExactKey, LoadsCleanly;
    LoadedRowShielded(es, j);
    assert Rival(es[j], es[..j][i]);
  }

  // ---- The failing input ----

  /** Where the shield is not an earlier row of the same asset it is of another class, and it owns
      the key. */
  lemma {:induction false} TwinOnlyBehindOtherClass(es: seq<Entry>, i: nat, j: nat, key: string)
    requires LoadsCleanly([], es) && i < j < |es| && key != ""
    requires es[i].asset.cls == CR && es[j].asset.cls == CR
    requires key in Keys(es[i]) && key in Keys(es[j])
    requires forall k :: 0 <= k < j ==> es[k].asset.cls != CR || es[k].asset.id != es[j].asset.id
    ensures var o := Owner(es[..j], key, None);
            && o.Some? && es[o.value].asset.cls != CR
            && Less(ExactKey(es[o.value], key), ExactKey(es[i], key))
  {
    LoadsPrefix([], es, j);
    assert [] + es[..j] == es[..j];
    assert Hits(key, None)(es[..j][i]);
    var o := Owner(es[..j], key, None);
    assert !CollidesOn(es[..j], es[j], key);
    assert !Less(ExactKey(es[i], key), ExactKey(es[o.value], key));
  }

  lemma {:induction false} CleanSnoc(es: seq<Entry>, e: Entry)
    requires es == [] || LoadsCleanly([], es)
    requires forall key :: key in Keys(e) ==> !CollidesOn(es, e, key)
    ensures LoadsCleanly([], es + [e])
  {
    assert (es + [e])[..|es|] == es && [] + es == es;
    assert !Collides(es, e);
  }

  /** The commodity row owns the key, before and after the first crypto row. */
  lemma {:induction false} CommodityOwns(cm: Entry, c1: Entry, key: string)
    requires cm.asset.cls != CR && Keys(cm) == Keys(c1) == [key]
    requires Less(ExactKey(cm, key), ExactKey(c1, key))
    ensures Owner([], key, None) == None
    ensures Owner([cm], key, None) == Some(0) == Owner([cm] + [c1], key, None)
  {
    OwnerSnoc([], cm, key, None);
    assert [cm] == [] + [cm];
    OwnerSnoc([cm], c1, key, None);
  }

  /** Such a table exists: one commodity row, then two crypto rows of the same name. */
  lemma {:induction false} TwinsCanLoad() returns (es: seq<Entry>)
    ensures |es| == 3 && LoadsCleanly([], es)
    ensures es[0].asset.cls == 4 && es[1].asset.cls == es[2].asset.cls == 6 && es[1].asset.id != es[2].asset.id
    ensures es[1].normName == es[2].normName != ""
  {
    var k := "gold";
    var cm := Entry(Asset(4, 1, k, []), k, []);
    var c1 := Entry(Asset(CR, 1, k, []), k, []);
    var c2 := Entry(Asset(CR, 2, k, []), k, []);
    assert [] + [cm] == [cm];
    es := [cm] + [c1] + [c2];
    hide LoadsCleanly, Owner;
    CommodityOwns(cm, c1, k);
    CleanSnoc([], cm);
    CleanSnoc([cm], c1);
    CleanSnoc([cm] + [c1], c2);
  }
}
