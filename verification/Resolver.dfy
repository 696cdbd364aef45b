/** The asset resolver: loading the tables into hash indexes, and looking a query up.
    `FindSpec` is the plain scan of the loaded rows; the indexed `Find` is proved equal to it.

    Text handling (normalization, suffix stripping, blank test, byte length of a name)
    is a parameter of the model.
 */
module Resolver {
  import opened Jaro
  import opened Optional

  // ---- Rows ----

  /** `aliases` are the non-empty raw aliases, in order. */
  datatype Asset = Asset(cls: nat, id: nat, name: string, aliases: seq<string>)

  /** A table row: an asset beside the keys its name and aliases are searched under. */
  datatype Entry = Entry(asset: Asset, normName: string, normAliases: seq<string>)

  /** One line of a compiled-in table. */
  datatype Data = Data(id: nat, name: string, aliases: seq<string>)

  datatype Text = Text(
    normalize: string -> string,
    strip: string -> string,
    isBlank: string -> bool,
    byteLen: string -> nat)

  /** The class id of crypto assets. */
  const CR: nat := 6

  function NewEntry(t: Text, cls: nat, d: Data): Entry {
    Entry(
      Asset(cls, d.id % 0x1_0000, d.name, d.aliases),
      t.normalize(d.name),
      seq(|d.aliases|, i requires 0 <= i < |d.aliases| => t.normalize(d.aliases[i])))
  }

  function NewEntries(t: Text, cls: nat, data: seq<Data>): (es: seq<Entry>)
    ensures |es| == |data| && forall i :: 0 <= i < |data| ==> es[i] == NewEntry(t, cls, data[i])
  {
    seq(|data|, i requires 0 <= i < |data| => NewEntry(t, cls, data[i]))
  }

  /** The keys an entry answers to, canonical name first. */
  function Keys(e: Entry): seq<string> { [e.normName] + e.normAliases }

  /** 0 for the name or the first alias, 1 for a later alias, `None` for no exact hit. */
  function ExactRank(e: Entry, key: string): (r: Option<nat>)
    ensures r.Some? <==> key in Keys(e)
  {
    if e.normName == key then Some(0)
    else if key in e.normAliases then
      if e.normAliases[0] == key then Some(0) else Some(1)
    else None
  }

  // ---- Smallest-key selection ----

  /** A sort key: two criteria, then class and id. Smaller wins. */
  datatype Key = Key(first: real, second: nat, cls: nat, id: nat)

  predicate Less(a: Key, b: Key) {
    a.first < b.first || (a.first == b.first &&
      (a.second < b.second || (a.second == b.second &&
        (a.cls < b.cls || (a.cls == b.cls && a.id < b.id)))))
  }

  /** The earliest admissible row whose key no admissible row undercuts. */
  function ArgMin<T(!new)>(rows: seq<T>, ok: T -> bool, key: T -> Key): (r: Option<nat>)
    ensures r.None? <==> forall i :: 0 <= i < |rows| ==> !ok(rows[i])
    ensures r.Some? ==> r.value < |rows| && ok(rows[r.value])
    ensures r.Some? ==> forall k :: 0 <= k < |rows| && ok(rows[k]) ==> !Less(key(rows[k]), key(rows[r.value]))
    ensures r.Some? ==> forall k :: 0 <= k < r.value && ok(rows[k]) ==> Less(key(rows[r.value]), key(rows[k]))
  {
    if rows == [] then None
    else
      var n := |rows| - 1;
      var b := ArgMin(rows[..n], ok, key);
      if ok(rows[n]) && (b.None? || Less(key(rows[n]), key(rows[b.value]))) then Some(n) else b
  }

  /** With distinct keys the chosen row does not depend on the order of the rows. */
  lemma {:induction false} ArgMinOrderFree<T(!new)>(rows: seq<T>, perm: seq<T>, ok: T -> bool, key: T -> Key)
    requires multiset(rows) == multiset(perm)
    requires forall i, k :: 0 <= i < |rows| && 0 <= k < |rows| && key(rows[i]) == key(rows[k]) ==> rows[i] == rows[k]
    ensures var a, b := ArgMin(rows, ok, key), ArgMin(perm, ok, key);
            && a.Some? == b.Some?
            && (a.Some? ==> rows[a.value] == perm[b.value])
  {
    var a, b := ArgMin(rows, ok, key), ArgMin(perm, ok, key);
    if b.Some? {
      assert perm[b.value] in multiset(rows);
      var i :| 0 <= i < |rows| && rows[i] == perm[b.value];
    }
    if a.Some? {
      assert rows[a.value] in multiset(perm);
      var k :| 0 <= k < |perm| && perm[k] == rows[a.value];
    }
  }

  // ---- Exact winners ----

  /** Precedence of an exact hit: rank, then class, then id. */
  function ExactKey(e: Entry, key: string): Key {
    var r := ExactRank(e, key);
    Key((if r.Some? then r.value else 1) as real, 0, e.asset.cls, e.asset.id)
  }

  predicate InClass(e: Entry, filter: Option<nat>) {
    filter.None? || e.asset.cls == filter.value
  }

  function Hits(key: string, filter: Option<nat>): Entry -> bool {
    (e: Entry) => key in Keys(e) && InClass(e, filter)
  }

  function ByExactKey(key: string): Entry -> Key { (e: Entry) => ExactKey(e, key) }

  /** The row that owns `key` among the rows of one class, or of all. */
  function Owner(rows: seq<Entry>, key: string, filter: Option<nat>): Option<nat> {
    ArgMin(rows, Hits(key, filter), ByExactKey(key))
  }

  /** When the overall owner is of the wanted class it is also the owner inside that class. */
  lemma {:induction false} GlobalOwnerIsLocal(rows: seq<Entry>, key: string, filter: Option<nat>)
    requires var g := Owner(rows, key, None); g.Some? && InClass(rows[g.value], filter)
    ensures Owner(rows, key, filter) == Owner(rows, key, None)
  {
    var g, l := Owner(rows, key, None), Owner(rows, key, filter);
    assert Hits(key, filter)(rows[g.value]);
    assert Hits(key, None)(rows[l.value]);
  }

  lemma {:induction false} OwnerSnoc(rows: seq<Entry>, e: Entry, key: string, filter: Option<nat>)
    ensures var b := Owner(rows, key, filter);
            Owner(rows + [e], key, filter)
            == (if Hits(key, filter)(e) && (b.None? || Less(ExactKey(e, key), ExactKey(rows[b.value], key)))
                then Some(|rows|) else b)
  {
    assert (rows + [e])[..|rows|] == rows;
  }

  // ---- Fuzzy candidates ----

  /** The best score over the first `n` aliases and the name, and the alias that set it. */
  function BestField(e: Entry, score: string -> real, n: nat): (r: (real, Option<nat>))
    requires n <= |e.normAliases|
    ensures r.1.Some? ==> r.1.value < n
    ensures r.0 == score(if r.1.Some? then e.normAliases[r.1.value] else e.normName)
    ensures score(e.normName) <= r.0
    ensures forall i :: 0 <= i < n ==> score(e.normAliases[i]) <= r.0
  {
    if n == 0 then (score(e.normName), None)
    else
      var b := BestField(e, score, n - 1);
      var s := score(e.normAliases[n - 1]);
      if s > b.0 then (s, Some(n - 1)) else b
  }

  function Best(e: Entry, score: string -> real): (real, Option<nat>) {
    BestField(e, score, |e.normAliases|)
  }

  /** `low` may replace scores below the threshold by other scores below it. */
  ghost predicate Prunes(low: string -> real, score: string -> real, minConfidence: real) {
    forall s :: low(s) <= score(s) &&
                (low(s) == score(s) || (score(s) < minConfidence && low(s) < minConfidence))
  }

  /** Pruning never changes the score or the field of an entry that reaches the threshold. */
  lemma {:induction false} PrunedField(
    e: Entry, low: string -> real, score: string -> real, minConfidence: real, n: nat)
    requires Prunes(low, score, minConfidence) && n <= |e.normAliases|
    ensures var p, b := BestField(e, low, n), BestField(e, score, n);
            p.0 <= b.0 && (p == b || (p.0 < minConfidence && b.0 < minConfidence))
  {
    if n > 0 {
      PrunedField(e, low, score, minConfidence, n - 1);
      var s := e.normAliases[n - 1];
      assert low(s) <= score(s);
    }
  }

  datatype Field = ExactField | ExactAlias(key: string) | NameField | AliasField(alias: string)

  datatype Match = Match(asset: Asset, confidence: real, field: Field)

  function FieldOf(a: Asset, alias: Option<nat>): Field {
    if alias.Some? then AliasField(if alias.value < |a.aliases| then a.aliases[alias.value] else "") else NameField
  }

  /** Among equal scores the shortest name wins, then the lowest class and id. */
  function ScoreKey(t: Text, a: Asset, confidence: real): Key {
    Key(-confidence, t.byteLen(a.name), a.cls, a.id)
  }

  function Reaches(score: string -> real, minConfidence: real): Entry -> bool {
    (e: Entry) => Best(e, score).0 >= minConfidence
  }

  function ByScore(t: Text, score: string -> real): Entry -> Key {
    (e: Entry) => ScoreKey(t, e.asset, Best(e, score).0)
  }

  function OfClass(rows: seq<Entry>, filter: Option<nat>): (r: seq<Entry>)
    ensures filter.None? ==> r == rows
  {
    if rows == [] then []
    else
      var n := |rows| - 1;
      assert rows == rows[..n] + [rows[n]];
      OfClass(rows[..n], filter) + (if InClass(rows[n], filter) then [rows[n]] else [])
  }

  function MatchOf(e: Entry, score: string -> real): Match {
    Match(e.asset, Best(e, score).0, FieldOf(e.asset, Best(e, score).1))
  }

  function FuzzySpec(t: Text, rows: seq<Entry>, score: string -> real, minConfidence: real): Option<Match> {
    var b := ArgMin(rows, Reaches(score, minConfidence), ByScore(t, score));
    if b.Some? then Some(MatchOf(rows[b.value], score)) else None
  }

  // ---- The plain scan ----

  function ExactSpec(rows: seq<Entry>, key: string, filter: Option<nat>): Option<Match> {
    var l, g := Owner(rows, key, filter), Owner(rows, key, None);
    if key == "" || l.None? then None
    else if g.Some? && InClass(rows[g.value], filter) then Some(Match(rows[l.value].asset, 1.0, ExactField))
    else Some(Match(rows[l.value].asset, 1.0, ExactAlias(key)))
  }

  function FindSpec(
    t: Text, rows: seq<Entry>, loaded: set<nat>, query: string, minConfidence: real, filter: Option<nat>)
    : Option<Match>
  {
    if t.isBlank(query) || (filter.Some? && filter.value !in loaded) then None
    else
      var norm := t.normalize(t.strip(query));
      var a := ExactSpec(rows, t.normalize(query), filter);
      var b := ExactSpec(rows, norm, filter);
      if a.Some? then a
      else if b.Some? then b
      else FuzzySpec(t, OfClass(rows, filter), s => JaroWinkler(norm, s), minConfidence)
  }

  // ---- The indexes ----

  /** What the global key index must hold for `key`. */
  ghost predicate NormIndexed(m: map<string, (Asset, nat)>, rows: seq<Entry>, key: string) {
    var o := Owner(rows, key, None);
    if key == "" || o.None? then key !in m
    else key in m && m[key] == (rows[o.value].asset, ExactRank(rows[o.value], key).value)
  }

  /** What the key index of one class must hold for `key`. */
  ghost predicate ClassIndexed(m: map<string, nat>, rows: seq<Entry>, cls: nat, key: string) {
    var o := Owner(rows, key, Some(cls));
    if key == "" || o.None? then key !in m else key in m && m[key] == o.value
  }

  /** The positions of the rows of one class, in load order. */
  function IndicesOf(rows: seq<Entry>, cls: nat): (r: seq<nat>)
    ensures forall i :: 0 <= i < |r| ==> r[i] < |rows|
  {
    if rows == [] then []
    else
      var n := |rows| - 1;
      IndicesOf(rows[..n], cls) + (if rows[n].asset.cls == cls then [n] else [])
  }

  /** Assets by class and id; a later row replaces an earlier one. */
  function IdIndex(rows: seq<Entry>): map<(nat, nat), Asset> {
    if rows == [] then map[]
    else
      var a := rows[|rows| - 1].asset;
      IdIndex(rows[..|rows| - 1])[(a.cls, a.id) := a]
  }

  lemma {:induction false} IdSnoc(rows: seq<Entry>, e: Entry)
    ensures IdIndex(rows + [e]) == IdIndex(rows)[(e.asset.cls, e.asset.id) := e.asset]
  {
    assert (rows + [e])[..|rows|] == rows;
  }

  /** Inserting `e` panics: for one of its keys the current owner is a different crypto asset. */
  predicate Collides(rows: seq<Entry>, e: Entry) {
    exists i :: 0 <= i < |Keys(e)| && CollidesOn(rows, e, Keys(e)[i])
  }

  predicate CollidesOn(rows: seq<Entry>, e: Entry, key: string) {
    var o := Owner(rows, key, None);
    && key != "" && o.Some?
    && rows[o.value].asset.cls == CR && e.asset.cls == CR && rows[o.value].asset.id != e.asset.id
  }

  /** Appending `es` one after the other never panics. */
  predicate LoadsCleanly(rows: seq<Entry>, es: seq<Entry>) {
    es == [] ||
    (LoadsCleanly(rows, es[..|es| - 1]) && !Collides(rows + es[..|es| - 1], es[|es| - 1]))
  }

  /** The rows a key is indexed against while `ent` is being added. */
  ghost function RowsFor(rows: seq<Entry>, ent: Entry, done: set<string>, key: string): seq<Entry> {
    if key in done then rows + [ent] else rows
  }

  ghost predicate NormsIndexed(m: map<string, (Asset, nat)>, rows: seq<Entry>, ent: Entry, done: set<string>) {
    forall key :: NormIndexed(m, RowsFor(rows, ent, done, key), key)
  }

  ghost predicate ClassesIndexed(m: map<nat, map<string, nat>>, rows: seq<Entry>, ent: Entry, done: set<string>) {
    forall c, key :: c in m ==> ClassIndexed(m[c], RowsFor(rows, ent, done, key), c, key)
  }

  lemma {:induction false} EmptyKey(m: map<string, (Asset, nat)>, cm: map<nat, map<string, nat>>, rows: seq<Entry>,
      ent: Entry, done: set<string>)
    requires NormsIndexed(m, rows, ent, done) && ClassesIndexed(cm, rows, ent, done)
    ensures NormsIndexed(m, rows, ent, done + {""}) && ClassesIndexed(cm, rows, ent, done + {""})
  {
    forall key
      ensures NormIndexed(m, RowsFor(rows, ent, done + {""}, key), key)
    {
      assert NormIndexed(m, RowsFor(rows, ent, done, key), key);
    }
    forall c, key | c in cm
      ensures ClassIndexed(cm[c], RowsFor(rows, ent, done + {""}, key), c, key)
    {
      assert ClassIndexed(cm[c], RowsFor(rows, ent, done, key), c, key);
    }
  }

  /** The indexed owner of a key of `ent` is the earlier owner, or `ent` itself once the key is done. */
  lemma {:induction false} NormLookup(
    m: map<string, (Asset, nat)>, rows: seq<Entry>, ent: Entry, norm: string, done: set<string>)
    requires NormsIndexed(m, rows, ent, done) && norm in Keys(ent) && norm != ""
    ensures var o := Owner(rows, norm, None);
            && (norm !in m ==> o.None? && norm !in done)
            && (norm in m && norm !in done ==> o.Some? && m[norm].0 == rows[o.value].asset)
            && (norm in m && norm in done ==> m[norm].0 == ent.asset || (o.Some? && m[norm].0 == rows[o.value].asset))
  {
    OwnerSnoc(rows, ent, norm, None);
    assert NormIndexed(m, RowsFor(rows, ent, done, norm), norm);
  }

  ghost function NormInsert(m: map<string, (Asset, nat)>, ent: Entry, norm: string): map<string, (Asset, nat)>
    requires norm in Keys(ent)
  {
    var a := ent.asset;
    var rank := ExactRank(ent, norm).value;
    if norm !in m || Less(Key(rank as real, 0, a.cls, a.id), Key(m[norm].1 as real, 0, m[norm].0.cls, m[norm].0.id))
    then m[norm := (a, rank)] else m
  }

  lemma {:induction false} NormUpdate(
    m: map<string, (Asset, nat)>, rows: seq<Entry>, ent: Entry, norm: string, done: set<string>)
    requires NormsIndexed(m, rows, ent, done) && norm in Keys(ent) && norm != ""
    ensures NormsIndexed(NormInsert(m, ent, norm), rows, ent, done + {norm})
  {
    var r := NormInsert(m, ent, norm);
    forall key
      ensures NormIndexed(r, RowsFor(rows, ent, done + {norm}, key), key)
    {
      assert NormIndexed(m, RowsFor(rows, ent, done, key), key);
      if key == norm {
        OwnerSnoc(rows, ent, norm, None);
      }
    }
  }

  ghost function ClassInsert(m: map<nat, map<string, nat>>, rows: seq<Entry>, ent: Entry, norm: string)
    : map<nat, map<string, nat>>
    requires ent.asset.cls in m && (norm in m[ent.asset.cls] ==> m[ent.asset.cls][norm] <= |rows|)
  {
    var own: map<string, nat> := m[ent.asset.cls];
    var n: nat := |rows|;
    if norm !in own || Less(ExactKey(ent, norm), ExactKey(if own[norm] == |rows| then ent else rows[own[norm]], norm))
    then m[ent.asset.cls := own[norm := n]] else m
  }

  lemma {:induction false} ClassLookup(m: map<nat, map<string, nat>>, rows: seq<Entry>,
      ent: Entry, norm: string, done: set<string>)
    requires ClassesIndexed(m, rows, ent, done) && norm in Keys(ent) && norm != "" && ent.asset.cls in m
    ensures norm in m[ent.asset.cls] ==> m[ent.asset.cls][norm] <= |rows|
    ensures ClassIndexed(ClassInsert(m, rows, ent, norm)[ent.asset.cls], rows + [ent], ent.asset.cls, norm)
  {
    assert ClassIndexed(m[ent.asset.cls], RowsFor(rows, ent, done, norm), ent.asset.cls, norm);
    OwnerSnoc(rows, ent, norm, Some(ent.asset.cls));
  }

  lemma {:induction false} ClassUpdate(m: map<nat, map<string, nat>>, rows: seq<Entry>,
      ent: Entry, norm: string, done: set<string>)
    requires ClassesIndexed(m, rows, ent, done) && norm in Keys(ent) && norm != "" && ent.asset.cls in m
    ensures norm in m[ent.asset.cls] ==> m[ent.asset.cls][norm] <= |rows|
    ensures ClassesIndexed(ClassInsert(m, rows, ent, norm), rows, ent, done + {norm})
  {
    hide Owner;
    ClassLookup(m, rows, ent, norm, done);
    var r := ClassInsert(m, rows, ent, norm);
    forall c, key | c in r
      ensures ClassIndexed(r[c], RowsFor(rows, ent, done + {norm}, key), c, key)
    {
      assert ClassIndexed(m[c], RowsFor(rows, ent, done, key), c, key);
      if key == norm && c != ent.asset.cls {
        OwnerSnoc(rows, ent, norm, Some(c));
      }
    }
  }

  lemma {:induction false} NothingDone(
    m: map<string, (Asset, nat)>, cm: map<nat, map<string, nat>>, rows: seq<Entry>, ent: Entry)
    requires forall key :: NormIndexed(m, rows, key)
    requires forall c, key :: c in cm ==> ClassIndexed(cm[c], rows, c, key)
    ensures NormsIndexed(m, rows, ent, {}) && ClassesIndexed(cm, rows, ent, {})
  {
    forall key
      ensures NormIndexed(m, RowsFor(rows, ent, {}, key), key)
    {
      assert NormIndexed(m, rows, key);
    }
    forall c, key | c in cm
      ensures ClassIndexed(cm[c], RowsFor(rows, ent, {}, key), c, key)
    {
      assert ClassIndexed(cm[c], rows, c, key);
    }
  }

  /** Once every key of `ent` is indexed, the indexes describe the rows with `ent` appended. */
  lemma {:induction false} AllDone(m: map<string, (Asset, nat)>, cm: map<nat, map<string, nat>>, rows: seq<Entry>,
      ent: Entry, done: set<string>)
    requires NormsIndexed(m, rows, ent, done) && ClassesIndexed(cm, rows, ent, done)
    requires forall key :: key in done <==> key in Keys(ent)
    ensures forall key :: NormIndexed(m, rows + [ent], key)
    ensures forall c, key :: c in cm ==> ClassIndexed(cm[c], rows + [ent], c, key)
  {
    forall key
      ensures NormIndexed(m, rows + [ent], key)
    {
      OwnerSnoc(rows, ent, key, None);
      assert NormIndexed(m, RowsFor(rows, ent, done, key), key);
    }
    forall c, key | c in cm
      ensures ClassIndexed(cm[c], rows + [ent], c, key)
    {
      OwnerSnoc(rows, ent, key, Some(c));
      assert ClassIndexed(cm[c], RowsFor(rows, ent, done, key), c, key);
    }
  }

  /** A class no row belongs to starts with empty indexes. */
  lemma {:induction false} NewClass(cm: map<nat, map<string, nat>>, rows: seq<Entry>, cls: nat)
    requires cls !in cm && forall i :: 0 <= i < |rows| ==> rows[i].asset.cls in cm
    ensures forall key :: ClassIndexed(map[], rows, cls, key)
    ensures IndicesOf(rows, cls) == []
  {
    if rows != [] {
      NewClass(cm, rows[..|rows| - 1], cls);
    }
  }

  ghost predicate ListsClasses(m: map<nat, seq<nat>>, rows: seq<Entry>) {
    forall c :: c in m ==> m[c] == IndicesOf(rows, c)
  }

  /** `n` positions from `start`. */
  function Positions(start: nat, n: nat): (r: seq<nat>)
    ensures |r| == n && forall i :: 0 <= i < n ==> r[i] == start + i
  {
    seq(n, i => start + i)
  }

  /** Rows of one class, appended together, extend the list of that class alone. */
  lemma {:induction false} IndicesAppend(rows: seq<Entry>, es: seq<Entry>, cls: nat, c: nat)
    requires forall i :: 0 <= i < |es| ==> es[i].asset.cls == cls
    ensures IndicesOf(rows + es, c) == IndicesOf(rows, c) + if c == cls then Positions(|rows|, |es|) else []
  {
    if es == [] {
      assert rows + es == rows;
    } else {
      var n := |es| - 1;
      IndicesAppend(rows, es[..n], cls, c);
      assert (rows + es)[..|rows + es| - 1] == rows + es[..n];
      assert Positions(|rows|, n) + [|rows| + n] == Positions(|rows|, |es|);
    }
  }

  /** A class listed for the first time leaves all lists right. */
  lemma {:induction false} ListsNewClass(m: map<nat, seq<nat>>, rows: seq<Entry>, es: seq<Entry>, cls: nat)
    requires ListsClasses(m, rows) && IndicesOf(rows, cls) == []
    requires forall i :: 0 <= i < |es| ==> es[i].asset.cls == cls
    ensures ListsClasses(m[cls := Positions(|rows|, |es|)], rows + es)
  {
    hide IndicesOf;
    forall c
      ensures IndicesOf(rows + es, c) == IndicesOf(rows, c) + if c == cls then Positions(|rows|, |es|) else []
    {
      IndicesAppend(rows, es, cls, c);
    }
  }

  /** Loading is clean exactly when no single row collides with the rows before it. */
  lemma {:induction false} LoadsPrefix(rows: seq<Entry>, es: seq<Entry>, i: nat)
    requires i < |es|
    ensures LoadsCleanly(rows, es) ==> LoadsCleanly(rows, es[..i]) && !Collides(rows + es[..i], es[i])
    decreases |es|
  {
    var n := |es| - 1;
    if i < n {
      LoadsPrefix(rows, es[..n], i);
      assert es[..n][..i] == es[..i];
    }
  }

  lemma {:induction false} LoadsNothing(rows: seq<Entry>)
    ensures LoadsCleanly(rows, [])
  {
  }

  lemma {:induction false} LoadsSnoc(rows: seq<Entry>, es: seq<Entry>, i: nat)
    requires i < |es|
    ensures LoadsCleanly(rows, es[..i + 1]) <==> LoadsCleanly(rows, es[..i]) && !Collides(rows + es[..i], es[i])
    ensures Collides(rows + es[..i], es[i]) ==> !LoadsCleanly(rows, es)
    ensures rows + es[..i + 1] == rows + es[..i] + [es[i]]
  {
    assert es[..i + 1][..i] == es[..i];
    LoadsPrefix(rows, es, i);
  }

  /** The indexes answer an exact lookup as the scan does. */
  lemma {:induction false} ExactByIndex(m: map<string, (Asset, nat)>, cm: map<nat, map<string, nat>>, rows: seq<Entry>,
                     key: string, filter: Option<nat>)
    requires NormIndexed(m, rows, key) && key != ""
    requires filter.Some? ==> filter.value in cm && ClassIndexed(cm[filter.value], rows, filter.value, key)
    ensures ExactSpec(rows, key, filter)
            == (if key in m && (filter.None? || filter.value == m[key].0.cls) then
                  Some(Match(m[key].0, 1.0, ExactField))
                else if filter.Some? && key in cm[filter.value] && cm[filter.value][key] < |rows| then
                  Some(Match(rows[cm[filter.value][key]].asset, 1.0, ExactAlias(key)))
                else
                  None)
  {
    var g := Owner(rows, key, None);
    if g.Some? && InClass(rows[g.value], filter) {
      GlobalOwnerIsLocal(rows, key, filter);
    }
  }

  /** The candidates by position are the candidates by class. */
  lemma {:induction false} CandidatesByIndex(rows: seq<Entry>, filter: Option<nat>, ixs: seq<nat>)
    requires ixs == if filter.Some? then IndicesOf(rows, filter.value) else seq(|rows|, i => i)
    ensures var c := OfClass(rows, filter);
            |ixs| == |c| && forall p :: 0 <= p < |ixs| ==> ixs[p] < |rows| && rows[ixs[p]] == c[p]
  {
    if filter.Some? && rows != [] {
      CandidatesByIndex(rows[..|rows| - 1], filter, IndicesOf(rows[..|rows| - 1], filter.value));
    }
  }

  /** One more candidate, scored with pruning, moves the best match as the scan does. */
  lemma {:induction false} FuzzySnoc(t: Text, cands: seq<Entry>, p: nat, norm: string, minConfidence: real)
    requires p < |cands|
    ensures var score, e := (s => JaroWinkler(norm, s)), cands[p];
            var b := FuzzySpec(t, cands[..p], score, minConfidence);
            var best := Best(e, s => AtLeast(norm, s, minConfidence));
            FuzzySpec(t, cands[..p + 1], score, minConfidence)
            == (if best.0 >= minConfidence
                   && (b.None? || Less(ScoreKey(t, e.asset, best.0), ScoreKey(t, b.value.asset, b.value.confidence)))
                then Some(Match(e.asset, best.0, FieldOf(e.asset, best.1))) else b)
  {
    var score, low := (s => JaroWinkler(norm, s)), s => AtLeast(norm, s, minConfidence);
    assert cands[..p + 1][..p] == cands[..p];
    forall s
      ensures low(s) <= score(s) && (low(s) == score(s) || (score(s) < minConfidence && low(s) < minConfidence))
    {
      PruningIsInvisible(norm, s, minConfidence);
    }
    PrunedField(cands[p], low, score, minConfidence, |cands[p].normAliases|);
  }

  class AssetResolver {
    var byId: map<(nat, nat), Asset>
    var byNormalized: map<string, (Asset, nat)>
    var exactByClass: map<nat, map<string, nat>>
    var byClass: map<nat, seq<nat>>
    var all: seq<Entry>

    /** The key indexes describe these rows. */
    ghost predicate KeysIndexed(rows: seq<Entry>)
      reads this`byNormalized, this`exactByClass
    {
      && (forall key :: NormIndexed(byNormalized, rows, key))
      && (forall c, key :: c in exactByClass ==> ClassIndexed(exactByClass[c], rows, c, key))
    }

    /** The key and id indexes describe the loaded rows. */
    ghost predicate Indexed()
      reads this`byId, this`byNormalized, this`exactByClass, this`all
    {
      && byId == IdIndex(all) && KeysIndexed(all)
      && (forall i :: 0 <= i < |all| ==> all[i].asset.cls in exactByClass)
    }

    ghost predicate Valid()
      reads this
    {
      && Indexed()
      && byClass.Keys == exactByClass.Keys
      && ListsClasses(byClass, all)
    }

    constructor ()
      ensures Valid() && all == [] && byClass == map[]
    {
      byId := map[];
      byNormalized := map[];
      exactByClass := map[];
      byClass := map[];
      all := [];
    }

    /** Index one key of the row `ent`, which is about to be appended. `done` are the
        keys of the row already indexed. Returns false where the source panics. */
    method InsertChecked(ent: Entry, norm: string, ghost done: set<string>) returns (ok: bool)
      requires norm in Keys(ent) && ent.asset.cls in exactByClass
      requires NormsIndexed(byNormalized, all, ent, done)
      requires ClassesIndexed(exactByClass, all, ent, done)
      requires norm in done ==> !CollidesOn(all, ent, norm)
      modifies this`byNormalized, this`exactByClass
      ensures ok <==> !CollidesOn(all, ent, norm)
      ensures exactByClass.Keys == old(exactByClass.Keys)
      ensures ok ==> NormsIndexed(byNormalized, all, ent, done + {norm})
      ensures ok ==> ClassesIndexed(exactByClass, all, ent, done + {norm})
    {
      if norm == "" {
        EmptyKey(byNormalized, exactByClass, all, ent, done);
        return true;
      }
      var a := ent.asset;
      var rank := ExactRank(ent, norm).value;
      NormLookup(byNormalized, all, ent, norm, done);
      if norm in byNormalized {
        var ex := byNormalized[norm].0;
        if (ex.cls, ex.id) != (a.cls, a.id) && ex.cls == CR && a.cls == CR {
          return false;
        }
      }
      var key := Key(rank as real, 0, a.cls, a.id);
      NormUpdate(byNormalized, all, ent, norm, done);
      ClassUpdate(exactByClass, all, ent, norm, done);
      if norm !in byNormalized
      || Less(key, Key(byNormalized[norm].1 as real, 0, byNormalized[norm].0.cls, byNormalized[norm].0.id)) {
        byNormalized := byNormalized[norm := (a, rank)];
      }
      var classExact: map<string, nat> := exactByClass[a.cls];
      var allLen: nat := |all|;
      if norm !in classExact
      || Less(key, ExactKey(if classExact[norm] == allLen then ent else all[classExact[norm]], norm)) {
        exactByClass := exactByClass[a.cls := classExact[norm := allLen]];
      }
      ok := true;
    }

    /** Enter the name and every alias of one row into the key indexes. */
    method EnterKeys(ent: Entry) returns (ok: bool)
      requires KeysIndexed(all) && ent.asset.cls in exactByClass
      modifies this`byNormalized, this`exactByClass
      ensures ok <==> !Collides(all, ent)
      ensures exactByClass.Keys == old(exactByClass.Keys)
      ensures ok ==> KeysIndexed(all + [ent])
    {
      hide NormIndexed, ClassIndexed, CollidesOn, RowsFor, NormsIndexed, ClassesIndexed;
      NothingDone(byNormalized, exactByClass, all, ent);
      var keys := Keys(ent);
      ghost var done: set<string> := {};
      for i := 0 to |keys|
        invariant exactByClass.Keys == old(exactByClass.Keys)
        invariant done == set k | 0 <= k < i :: keys[k]
        invariant forall k :: 0 <= k < i ==> !CollidesOn(all, ent, keys[k])
        invariant NormsIndexed(byNormalized, all, ent, done)
        invariant ClassesIndexed(exactByClass, all, ent, done)
      {
        var good := InsertChecked(ent, keys[i], done);
        if !good {
          return false;
        }
        done := done + {keys[i]};
      }
      AllDone(byNormalized, exactByClass, all, ent, done);
      ok := true;
    }

    /** Append one row of a class being loaded. Returns false where the source panics. */
    method AddEntry(ent: Entry) returns (ok: bool)
      requires Indexed() && ent.asset.cls in exactByClass
      modifies this`byId, this`byNormalized, this`exactByClass, this`all
      ensures ok <==> !Collides(old(all), ent)
      ensures ok ==> Indexed() && all == old(all) + [ent]
      ensures exactByClass.Keys == old(exactByClass.Keys)
    {
      hide KeysIndexed, Collides, IdIndex;
      IdSnoc(all, ent);
      byId := byId[(ent.asset.cls, ent.asset.id) := ent.asset];
      ok := EnterKeys(ent);
      if ok {
        all := all + [ent];
      }
    }

    /** Append the rows of one class; also returns their positions. */
    method AddRows(t: Text, cls: nat, data: seq<Data>) returns (ok: bool, classIxs: seq<nat>)
      requires Indexed() && cls in exactByClass
      modifies this`byId, this`byNormalized, this`exactByClass, this`all
      ensures ok <==> LoadsCleanly(old(all), NewEntries(t, cls, data))
      ensures ok ==> Indexed() && all == old(all) + NewEntries(t, cls, data)
      ensures ok ==> classIxs == Positions(|old(all)|, |data|)
      ensures exactByClass.Keys == old(exactByClass.Keys)
    {
      hide Collides, Indexed, LoadsCleanly;
      ghost var before, es := all, NewEntries(t, cls, data);
      LoadsNothing(before);
      classIxs := [];
      for i := 0 to |data|
        invariant exactByClass.Keys == old(exactByClass.Keys)
        invariant all == before + es[..i] && Indexed()
        invariant LoadsCleanly(before, es[..i])
        invariant classIxs == Positions(|before|, i)
      {
        var allLen: nat := |all|;
        LoadsSnoc(before, es, i);
        ok := AddEntry(NewEntry(t, cls, data[i]));
        if !ok {
          return;
        }
        classIxs := classIxs + [allLen];
      }
      assert es[..|es|] == es;
      ok := true;
    }

    /** The class gets an empty key index unless it has one. */
    method OpenClass(cls: nat)
      requires Indexed()
      modifies this`exactByClass
      ensures Indexed() && exactByClass.Keys == old(exactByClass.Keys) + {cls}
      ensures cls !in old(exactByClass) ==> IndicesOf(all, cls) == []
    {
      hide NormIndexed, ClassIndexed, IndicesOf, IdIndex;
      if cls !in exactByClass {
        NewClass(exactByClass, all, cls);
        exactByClass := exactByClass[cls := map[]];
      }
    }

    /** Load the table of one class. A class loaded again keeps its earlier rows in every index but
        the list of its positions, which then names the new rows only. */
    method LoadClass(t: Text, cls: nat, data: seq<Data>) returns (ok: bool)
      requires Indexed() && byClass.Keys == exactByClass.Keys
      modifies this
      ensures ok <==> LoadsCleanly(old(all), NewEntries(t, cls, data))
      ensures ok ==> Indexed() && all == old(all) + NewEntries(t, cls, data)
      ensures ok ==> byClass == old(byClass)[cls := Positions(|old(all)|, |data|)] && byClass.Keys == exactByClass.Keys
      ensures ok && cls !in old(byClass) && old(Valid()) ==> Valid()
    {
      hide LoadsCleanly, Indexed, IndicesOf, NewEntries;
      OpenClass(cls);
      var classIxs;
      ok, classIxs := AddRows(t, cls, data);
      if ok {
        if cls !in byClass && old(Valid()) {
          ListsNewClass(byClass, old(all), NewEntries(t, cls, data), cls);
        }
        byClass := byClass[cls := classIxs];
      }
    }

    /** Best score of one entry under the pruned scorer, with the alias that set it. */
    method ScoreEntry(norm: string, ent: Entry, minConfidence: real) returns (bestSim: real, fieldAlias: Option<nat>)
      ensures (bestSim, fieldAlias) == Best(ent, s => AtLeast(norm, s, minConfidence))
    {
      ghost var low := s => AtLeast(norm, s, minConfidence);
      bestSim := AtLeast(norm, ent.normName, minConfidence);
      fieldAlias := None;
      for i := 0 to |ent.normAliases|
        invariant (bestSim, fieldAlias) == BestField(ent, low, i)
      {
        var sim := AtLeast(norm, ent.normAliases[i], minConfidence);
        if sim > bestSim {
          bestSim := sim;
          fieldAlias := Some(i);
        }
      }
    }

    /** The exact lookup of one key. */
    method FindExact(key: string, filter: Option<nat>) returns (r: Option<Match>)
      requires Valid() && (filter.Some? ==> filter.value in byClass)
      ensures r == ExactSpec(all, key, filter)
    {
      if key == "" {
        return None;
      }
      ExactByIndex(byNormalized, exactByClass, all, key, filter);
      if key in byNormalized && (filter.None? || filter.value == byNormalized[key].0.cls) {
        return Some(Match(byNormalized[key].0, 1.0, ExactField));
      }
      if filter.Some? && filter.value in exactByClass && key in exactByClass[filter.value] {
        var ix := exactByClass[filter.value][key];
        return Some(Match(all[ix].asset, 1.0, ExactAlias(key)));
      }
      r := None;
    }

    /** Look a query up: exact keys through the indexes, then the pruned fuzzy scan.
        The answer is that of the plain scan, for every query, threshold and class filter. */
    method Find(t: Text, query: string, minConfidence: real, filter: Option<nat>) returns (best: Option<Match>)
      requires Valid()
      ensures best == FindSpec(t, all, byClass.Keys, query, minConfidence, filter)
    {
      hide Valid, ExactSpec, FuzzySpec;
      if t.isBlank(query) {
        return None;
      }
      var norm := t.normalize(t.strip(query));
      if filter.Some? && filter.value !in byClass {
        return None;
      }
      best := FindExact(t.normalize(query), filter);
      if best.Some? {
        return;
      }
      best := FindExact(norm, filter);
      if best.Some? {
        return;
      }
      best := FindFuzzy(t, norm, minConfidence, filter);
    }

    /** The fuzzy scan over the rows of one class, or of all. */
    method FindFuzzy(t: Text, norm: string, minConfidence: real, filter: Option<nat>) returns (best: Option<Match>)
      requires Valid() && (filter.Some? ==> filter.value in byClass)
      ensures best == FuzzySpec(t, OfClass(all, filter), s => JaroWinkler(norm, s), minConfidence)
    {
      hide Best, JaroWinkler, AtLeast;
      var ixs := if filter.Some? then byClass[filter.value] else seq(|all|, i => i);
      ghost var cands := OfClass(all, filter);
      ghost var score := s => JaroWinkler(norm, s);
      CandidatesByIndex(all, filter, ixs);
      best := None;
      for p := 0 to |ixs|
        invariant best == FuzzySpec(t, cands[..p], score, minConfidence)
      {
        var ent := all[ixs[p]];
        FuzzySnoc(t, cands, p, norm, minConfidence);
        var bestSim, fieldAlias := ScoreEntry(norm, ent, minConfidence);
        if bestSim < minConfidence {
          continue;
        }
        if best.None?
        || Less(ScoreKey(t, ent.asset, bestSim), ScoreKey(t, best.value.asset, best.value.confidence)) {
          best := Some(Match(ent.asset, bestSim, FieldOf(ent.asset, fieldAlias)));
        }
      }
      assert cands[..|ixs|] == cands;
    }
  }

  // ---- What the answer means ----

  predicate SameId(a: Asset, b: Asset) { a.cls == b.cls && a.id == b.id }

  /** No two different rows share a class and an id. */
  ghost predicate DistinctIds(rows: seq<Entry>) {
    forall i, k :: (0 <= i < |rows| && 0 <= k < |rows| && SameId(rows[i].asset, rows[k].asset)) ==> rows[i] == rows[k]
  }

  lemma {:induction false} MultisetSnoc(a: seq<Entry>, b: seq<Entry>, e: Entry)
    ensures multiset(a + b)[e] == multiset(a)[e] + multiset(b)[e]
  {
    assert multiset(a + b) == multiset(a) + multiset(b);
  }

  lemma {:induction false} OfClassSnoc(rows: seq<Entry>, filter: Option<nat>)
    requires rows != []
    ensures var n := |rows| - 1;
            OfClass(rows, filter) == OfClass(rows[..n], filter) + if InClass(rows[n], filter) then [rows[n]] else []
  {
    var n := |rows| - 1;
    assert rows == rows[..n] + [rows[n]];
  }

  lemma {:induction false} OfClassCount(rows: seq<Entry>, filter: Option<nat>, e: Entry)
    ensures multiset(OfClass(rows, filter))[e] == if InClass(e, filter) then multiset(rows)[e] else 0
  {
    if rows != [] {
      var n := |rows| - 1;
      OfClassSnoc(rows, filter);
      hide OfClass, InClass;
      OfClassCount(rows[..n], filter, e);
      MultisetSnoc(OfClass(rows[..n], filter), if InClass(rows[n], filter) then [rows[n]] else [], e);
      MultisetSnoc(rows[..n], [rows[n]], e);
      assert rows == rows[..n] + [rows[n]];
    }
  }

  lemma {:induction false} OfClassDistinct(rows: seq<Entry>, filter: Option<nat>)
    requires DistinctIds(rows)
    ensures DistinctIds(OfClass(rows, filter))
  {
    var c := OfClass(rows, filter);
    forall i | 0 <= i < |c|
      ensures c[i] in rows
    {
      OfClassCount(rows, filter, c[i]);
      assert c[i] in multiset(c);
      assert c[i] in multiset(rows);
    }
  }

  lemma {:induction false} OwnerOrderFree(rows: seq<Entry>, perm: seq<Entry>, key: string, filter: Option<nat>)
    requires multiset(rows) == multiset(perm) && DistinctIds(rows)
    ensures ExactSpec(rows, key, filter) == ExactSpec(perm, key, filter)
  {
    hide ArgMin, Keys;
    ArgMinOrderFree(rows, perm, Hits(key, filter), ByExactKey(key));
    ArgMinOrderFree(rows, perm, Hits(key, None), ByExactKey(key));
  }

  /** Row order never decides an answer when (class, id) pairs are distinct. */
  lemma {:induction false} FindOrderFree(t: Text, rows: seq<Entry>, perm: seq<Entry>, loaded: set<nat>,
                      query: string, minConfidence: real, filter: Option<nat>)
    requires multiset(rows) == multiset(perm) && DistinctIds(rows)
    ensures FindSpec(t, rows, loaded, query, minConfidence, filter)
         == FindSpec(t, perm, loaded, query, minConfidence, filter)
  {
    hide ExactSpec;
    var norm := t.normalize(t.strip(query));
    var score := s => JaroWinkler(norm, s);
    OwnerOrderFree(rows, perm, t.normalize(query), filter);
    OwnerOrderFree(rows, perm, norm, filter);
    var a, b := OfClass(rows, filter), OfClass(perm, filter);
    forall e
      ensures multiset(a)[e] == multiset(b)[e]
    {
      OfClassCount(rows, filter, e);
      OfClassCount(perm, filter, e);
    }
    assert multiset(a) == multiset(b);
    OfClassDistinct(rows, filter);
    ArgMinOrderFree(a, b, Reaches(score, minConfidence), ByScore(t, score));
  }

  /** The fuzzy answer is the best score over every name and alias of every candidate;
      there is none exactly when no score reaches the threshold. */
  lemma {:induction false} FuzzyIsBest(t: Text, rows: seq<Entry>, score: string -> real, minConfidence: real)
    ensures var r := FuzzySpec(t, rows, score, minConfidence);
            && (r.None? <==> forall i, s :: 0 <= i < |rows| && s in Keys(rows[i]) ==> score(s) < minConfidence)
            && (r.Some? ==> r.value.confidence >= minConfidence)
            && (r.Some? ==> exists i, s :: 0 <= i < |rows| && s in Keys(rows[i])
                                           && rows[i].asset == r.value.asset && score(s) == r.value.confidence)
            && (r.Some? ==> forall i, s :: 0 <= i < |rows| && s in Keys(rows[i]) ==> score(s) <= r.value.confidence)
  {
    var b := ArgMin(rows, Reaches(score, minConfidence), ByScore(t, score));
    forall i, s | 0 <= i < |rows| && s in Keys(rows[i])
      ensures score(s) <= Best(rows[i], score).0
    {
    }
    forall i | 0 <= i < |rows|
      ensures Reaches(score, minConfidence)(rows[i]) ==> exists s :: s in Keys(rows[i]) && score(s) >= minConfidence
    {
      BestAttained(rows[i], score);
    }
    if b.Some? {
      BestAttained(rows[b.value], score);
    }
  }

  lemma {:induction false} BestAttained(e: Entry, score: string -> real)
    ensures exists s :: s in Keys(e) && score(s) == Best(e, score).0
  {
    var f := Best(e, score).1;
    var s := if f.Some? then e.normAliases[f.value] else e.normName;
    assert s in Keys(e);
  }
}
