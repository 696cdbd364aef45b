/** What the resolver answers, in the rows' own fields: which key is tried first, which row wins, and what
    the answer says about it.
 */
module ResolverLaws {
  import opened Jaro
  import opened Optional
  import opened Resolver

  // ---- Exact hits ----

  predicate Named(e: Entry, key: string) { e.normName == key || key in e.normAliases }

  predicate Wanted(e: Entry, filter: Option<nat>) { filter.Some? ==> e.asset.cls == filter.value }

  /** The key is the name or the first alias of the row. */
  predicate Primary(e: Entry, key: string) {
    e.normName == key || (e.normAliases != [] && e.normAliases[0] == key)
  }

  /** Name or first alias before later alias, then the lower class, then the lower id. */
  predicate GoesBefore(a: Entry, b: Entry, key: string) {
    || (Primary(a, key) && !Primary(b, key))
    || (Primary(a, key) == Primary(b, key)
        && (a.asset.cls < b.asset.cls || (a.asset.cls == b.asset.cls && a.asset.id < b.asset.id)))
  }

  ghost predicate SomeNamed(rows: seq<Entry>, key: string, filter: Option<nat>) {
    key != "" && exists i :: 0 <= i < |rows| && Named(rows[i], key) && Wanted(rows[i], filter)
  }

  /** Row `i` has the key, is wanted by `filter`, and no such row goes before it. */
  ghost predicate First(rows: seq<Entry>, key: string, filter: Option<nat>, i: nat) {
    && i < |rows| && Named(rows[i], key) && Wanted(rows[i], filter)
    && forall k :: 0 <= k < |rows| && Named(rows[k], key) && Wanted(rows[k], filter) ==>
         !GoesBefore(rows[k], rows[i], key)
  }

  /** The answer is the first wanted row of the key, with full confidence. It says so plainly when a wanted
      row is first among the rows of all classes too. */
  ghost predicate ExactHit(rows: seq<Entry>, key: string, filter: Option<nat>, r: Option<Match>) {
    && r.Some? && r.value.confidence == 1.0
    && (exists i: nat :: First(rows, key, filter, i) && r.value.asset == rows[i].asset)
    && r.value.field
       == if exists i: nat :: First(rows, key, None, i) && Wanted(rows[i], filter)
          then ExactField else ExactAlias(key)
  }

  lemma {:induction false} LessIsGoesBefore(a: Entry, b: Entry, key: string)
    requires Named(a, key) && Named(b, key)
    ensures Less(ExactKey(a, key), ExactKey(b, key)) <==> GoesBefore(a, b, key)
  {
  }

  lemma {:induction false} OwnerIsFirst(rows: seq<Entry>, key: string, filter: Option<nat>)
    ensures var o := Owner(rows, key, filter);
            && (o.None? <==> forall i :: 0 <= i < |rows| ==> !(Named(rows[i], key) && Wanted(rows[i], filter)))
            && (o.Some? ==> First(rows, key, filter, o.value))
  {
    hide ExactKey, Less, GoesBefore, Primary;
    var o := Owner(rows, key, filter);
    assert forall e: Entry :: Hits(key, filter)(e) <==> Named(e, key) && Wanted(e, filter);
    if o.Some? {
      forall k | 0 <= k < |rows| && Named(rows[k], key) && Wanted(rows[k], filter)
        ensures !GoesBefore(rows[k], rows[o.value], key)
      {
        assert Hits(key, filter)(rows[k]);
        LessIsGoesBefore(rows[k], rows[o.value], key);
      }
    }
    if i :| 0 <= i < |rows| && Named(rows[i], key) && Wanted(rows[i], filter) {
      assert Hits(key, filter)(rows[i]);
    }
  }

  /** Of two rows first for one key neither goes before the other, so they have the same class. */
  lemma {:induction false} FirstsAgree(rows: seq<Entry>, key: string, i: nat, k: nat)
    requires First(rows, key, None, i) && First(rows, key, None, k)
    ensures rows[i].asset.cls == rows[k].asset.cls
  {
    assert !GoesBefore(rows[i], rows[k], key) && !GoesBefore(rows[k], rows[i], key);
  }

  lemma {:induction false} ExactLaw(rows: seq<Entry>, key: string, filter: Option<nat>)
    ensures SomeNamed(rows, key, filter) ==> ExactHit(rows, key, filter, ExactSpec(rows, key, filter))
    ensures !SomeNamed(rows, key, filter) ==> ExactSpec(rows, key, filter) == None
  {
    hide Owner, First, Named;
    var l, g := Owner(rows, key, filter), Owner(rows, key, None);
    OwnerIsFirst(rows, key, filter);
    OwnerIsFirst(rows, key, None);
    if SomeNamed(rows, key, filter) {
      assert g.Some? && First(rows, key, None, g.value);
      FirstBounds(rows, key, g.value);
      forall i: nat | First(rows, key, None, i)
        ensures i < |rows| && rows[i].asset.cls == rows[g.value].asset.cls
      {
        FirstBounds(rows, key, i);
        FirstsAgree(rows, key, i, g.value);
      }
    }
  }

  lemma {:induction false} FirstBounds(rows: seq<Entry>, key: string, i: nat)
    requires First(rows, key, None, i)
    ensures i < |rows|
  {
  }

  // ---- Fuzzy hits ----

  /** The largest score over the name and the aliases of a row. */
  ghost predicate Scores(e: Entry, score: string -> real, x: real) {
    && (score(e.normName) == x || exists i :: 0 <= i < |e.normAliases| && score(e.normAliases[i]) == x)
    && score(e.normName) <= x && forall i :: 0 <= i < |e.normAliases| ==> score(e.normAliases[i]) <= x
  }

  /** Among equal scores the shorter name wins, then the lower class, then the lower id. */
  predicate Shorter(t: Text, a: Asset, b: Asset) {
    || t.byteLen(a.name) < t.byteLen(b.name)
    || (t.byteLen(a.name) == t.byteLen(b.name) && (a.cls < b.cls || (a.cls == b.cls && a.id < b.id)))
  }

  /** What the answer says it matched: the name when that reaches the score, else the first alias that does,
      in its raw spelling. */
  ghost predicate Says(e: Entry, score: string -> real, m: Match) {
    if score(e.normName) == m.confidence then m.field == NameField
    else exists i ::
           && 0 <= i < |e.normAliases| && score(e.normAliases[i]) == m.confidence
           && (forall k :: 0 <= k < i ==> score(e.normAliases[k]) != m.confidence)
           && m.field == AliasField(if i < |e.asset.aliases| then e.asset.aliases[i] else "")
  }

  ghost predicate BestHit(
    t: Text, rows: seq<Entry>, filter: Option<nat>, score: string -> real, minConfidence: real, m: Match)
  {
    && m.confidence >= minConfidence
    && (exists e :: e in rows && Wanted(e, filter) && m.asset == e.asset
                    && Scores(e, score, m.confidence) && Says(e, score, m))
    && forall e, x :: e in rows && Wanted(e, filter) && Scores(e, score, x) ==>
         x <= m.confidence && (x == m.confidence ==> !Shorter(t, e.asset, m.asset))
  }

  ghost predicate FuzzyAnswer(
    t: Text, rows: seq<Entry>, filter: Option<nat>, score: string -> real, minConfidence: real, r: Option<Match>)
  {
    if exists e, x :: e in rows && Wanted(e, filter) && Scores(e, score, x) && x >= minConfidence
    then r.Some? && BestHit(t, rows, filter, score, minConfidence, r.value)
    else r.None?
  }

  lemma {:induction false} BestScores(e: Entry, score: string -> real)
    ensures Scores(e, score, Best(e, score).0)
    ensures forall x :: Scores(e, score, x) ==> x == Best(e, score).0
    ensures var b := Best(e, score); Says(e, score, Match(e.asset, b.0, FieldOf(e.asset, b.1)))
  {
    FirstBest(e, score, |e.normAliases|);
  }

  /** The field kept is the first one to reach the score. */
  lemma {:induction false} FirstBest(e: Entry, score: string -> real, n: nat)
    requires n <= |e.normAliases|
    ensures var b := BestField(e, score, n);
            && (b.1.None? <==> score(e.normName) == b.0)
            && (b.1.Some? ==> forall k :: 0 <= k < b.1.value ==> score(e.normAliases[k]) < b.0)
  {
    if n > 0 {
      FirstBest(e, score, n - 1);
    }
  }

  lemma {:induction false} FuzzyLaw(
    t: Text, rows: seq<Entry>, filter: Option<nat>, score: string -> real, minConfidence: real)
    ensures FuzzyAnswer(t, rows, filter, score, minConfidence,
                        FuzzySpec(t, OfClass(rows, filter), score, minConfidence))
  {
    hide Best, Scores, Says, FieldOf, OfClass;
    var cs := OfClass(rows, filter);
    var b := ArgMin(cs, Reaches(score, minConfidence), ByScore(t, score));
    forall e: Entry
      ensures e in cs <==> e in rows && Wanted(e, filter)
      ensures forall x :: Scores(e, score, x) <==> x == Best(e, score).0
    {
      InClassRows(rows, filter, e);
      BestScores(e, score);
    }
    if b.Some? {
      var e := cs[b.value];
      BestScores(e, score);
      assert e in cs;
      forall c, x | c in rows && Wanted(c, filter) && Scores(c, score, x)
        ensures x <= Best(e, score).0 && (x == Best(e, score).0 ==> !Shorter(t, c.asset, e.asset))
      {
        var k :| 0 <= k < |cs| && cs[k] == c;
        assert Reaches(score, minConfidence)(cs[k]) ==> !Less(ByScore(t, score)(cs[k]), ByScore(t, score)(e));
        assert Reaches(score, minConfidence)(e);
      }
      assert BestHit(t, rows, filter, score, minConfidence, MatchOf(e, score));
    } else {
      forall k | 0 <= k < |cs|
        ensures Best(cs[k], score).0 < minConfidence
      {
        assert !Reaches(score, minConfidence)(cs[k]);
      }
    }
  }

  lemma {:induction false} InClassRows(rows: seq<Entry>, filter: Option<nat>, e: Entry)
    ensures e in OfClass(rows, filter) <==> e in rows && Wanted(e, filter)
  {
    OfClassCount(rows, filter, e);
    assert e in OfClass(rows, filter) <==> e in multiset(OfClass(rows, filter));
    assert e in rows <==> e in multiset(rows);
  }

  // ---- The answer ----

  /** Nothing for a blank query or a class that was never loaded; else the raw key, the stripped key, and only
      when no wanted row has either the best fuzzy score of the stripped key. */
  ghost predicate Answers(
    t: Text, rows: seq<Entry>, loaded: set<nat>, query: string, minConfidence: real, filter: Option<nat>,
    r: Option<Match>)
  {
    var raw, bare := t.normalize(query), t.normalize(t.strip(query));
    if t.isBlank(query) || (filter.Some? && filter.value !in loaded) then r == None
    else if SomeNamed(rows, raw, filter) then ExactHit(rows, raw, filter, r)
    else if SomeNamed(rows, bare, filter) then ExactHit(rows, bare, filter, r)
    else FuzzyAnswer(t, rows, filter, s => JaroWinkler(bare, s), minConfidence, r)
  }

  lemma {:induction false} AnswerLaw(
    t: Text, rows: seq<Entry>, loaded: set<nat>, query: string, minConfidence: real, filter: Option<nat>)
    ensures Answers(t, rows, loaded, query, minConfidence, filter,
                    FindSpec(t, rows, loaded, query, minConfidence, filter))
  {
    hide ExactSpec, ExactHit, SomeNamed, FuzzySpec, FuzzyAnswer, OfClass;
    var bare := t.normalize(t.strip(query));
    ExactLaw(rows, t.normalize(query), filter);
    ExactLaw(rows, bare, filter);
    HitIsSome(rows, t.normalize(query), filter);
    HitIsSome(rows, bare, filter);
    FuzzyLaw(t, rows, filter, s => JaroWinkler(bare, s), minConfidence);
  }

  lemma {:induction false} HitIsSome(rows: seq<Entry>, key: string, filter: Option<nat>)
    ensures ExactHit(rows, key, filter, ExactSpec(rows, key, filter)) ==> ExactSpec(rows, key, filter).Some?
  {
  }

  /** The indexed search gives that answer. */
  method Ask(r: AssetResolver, t: Text, query: string, minConfidence: real, filter: Option<nat>)
    returns (best: Option<Match>)
    requires r.Valid()
    ensures Answers(t, r.all, r.byClass.Keys, query, minConfidence, filter, best)
  {
    hide Answers, FindSpec;
    best := r.Find(t, query, minConfidence, filter);
    AnswerLaw(t, r.all, r.byClass.Keys, query, minConfidence, filter);
  }

  // ---- From the table to the answer ----

  /** The line has the key as its name or one of its aliases, normalized. */
  predicate LineHas(t: Text, d: Data, key: string) {
    t.normalize(d.name) == key || exists i :: 0 <= i < |d.aliases| && t.normalize(d.aliases[i]) == key
  }

  /** Load one table and look up the name or an alias of any of its lines, as it is spelled there: the answer
      is an asset of that class built from a line with this key, with full confidence. */
  method LoadAndAsk(t: Text, cls: nat, data: seq<Data>, query: string, minConfidence: real)
    returns (loaded: bool, best: Option<Match>)
    ensures loaded ==>
              !t.isBlank(query) && t.normalize(query) != ""
              && (exists i :: 0 <= i < |data| && LineHas(t, data[i], t.normalize(query))) ==>
                && best.Some? && best.value.confidence == 1.0
                && exists i :: && 0 <= i < |data| && LineHas(t, data[i], t.normalize(query))
                               && best.value.asset
                                  == Asset(cls, data[i].id % 65_536, data[i].name, data[i].aliases)
  {
    var r := new AssetResolver();
    loaded := r.LoadClass(t, cls, data);
    if !loaded {
      return false, None;
    }
    ghost var rows, key := r.all, t.normalize(query);
    best := Ask(r, t, query, minConfidence, Some(cls));
    LinesBecomeRows(t, cls, data, key);
    assert rows == NewEntries(t, cls, data);
    if !t.isBlank(query) && key != "" && exists i :: 0 <= i < |data| && LineHas(t, data[i], key) {
      var i :| 0 <= i < |data| && LineHas(t, data[i], key);
      assert Named(rows[i], key) && Wanted(rows[i], Some(cls));
      assert ExactHit(rows, key, Some(cls), best);
      var k: nat :| First(rows, key, Some(cls), k) && best.value.asset == rows[k].asset;
      assert Named(rows[k], key);
    }
  }

  lemma {:induction false} LinesBecomeRows(t: Text, cls: nat, data: seq<Data>, key: string)
    ensures |NewEntries(t, cls, data)| == |data|
    ensures forall i :: 0 <= i < |data| ==>
              var e := NewEntries(t, cls, data)[i];
              && e.asset == Asset(cls, data[i].id % 65_536, data[i].name, data[i].aliases)
              && (Named(e, key) <==> LineHas(t, data[i], key))
  {
    forall i | 0 <= i < |data|
      ensures Named(NewEntries(t, cls, data)[i], key) <==> LineHas(t, data[i], key)
    {
      var e := NewEntries(t, cls, data)[i];
      if LineHas(t, data[i], key) && t.normalize(data[i].name) != key {
        var j :| 0 <= j < |data[i].aliases| && t.normalize(data[i].aliases[j]) == key;
        assert e.normAliases[j] == key;
      }
    }
  }
}
