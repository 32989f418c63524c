/** Batched relation loading (internal/query/relations.go) against one lookup per row. */
module Relations {

  /** A column value or an attached result; a missing column reads as Null. */
  datatype Value = Null | Scalar(repr: int) | Object(row: map<string, Value>) | List(rows: seq<map<string, Value>>)

  type Row = map<string, Value>

  function Get(r: Row, col: string): Value { if col in r then r[col] else Null }

  /** How keys compare: text is keyString on non-nil values, same is SQL equality of non-null ones. */
  datatype Keys = Keys(text: Value -> string, same: (Value, Value) -> bool) {
    function Text(v: Value): string { if v.Null? then "" else text(v) }

    predicate SqlEq(a: Value, b: Value) { !a.Null? && !b.Null? && same(a, b) }
  }

  /** A stored row, as selected, with its deleted_at column. */
  datatype Stored = Stored(row: Row, deletedAt: Value)

  datatype Entity = Entity(database: string, pk: string, softDelete: bool, rows: seq<Stored>)

  predicate Live(s: Stored, softDelete: bool) { softDelete ==> s.deletedAt.Null? }

  predicate KeyIn(v: Value, keys: seq<Value>, K: Keys) {
    exists i :: 0 <= i < |keys| && K.SqlEq(v, keys[i])
  }

  /** SELECT ... WHERE col IN (keys) [AND deleted_at IS NULL], in table order. */
  function Matching(source: seq<Stored>, soft: bool, col: string, keys: seq<Value>, K: Keys): seq<Row> {
    if source == [] then []
    else
      var s := source[|source| - 1];
      Matching(source[..|source| - 1], soft, col, keys, K)
      + (if Live(s, soft) && KeyIn(Get(s.row, col), keys, K) then [s.row] else [])
  }

  /** The database answers one statement with some permutation of the matching rows, or fails. */
  method Query(source: seq<Stored>, soft: bool, col: string, keys: seq<Value>, K: Keys) returns (ok: bool,
               rows: seq<Row>)
    ensures ok ==> multiset(rows) == multiset(Matching(source, soft, col, keys, K))
  {
    hide KeyIn, Get, Live;
    ok, rows := true, [];
    for i := 0 to |source|
      invariant multiset(rows) == multiset(Matching(source[..i], soft, col, keys, K))
    {
      assert source[..i + 1][..i] == source[..i];
      var s := source[i];
      if Live(s, soft) && KeyIn(Get(s.row, col), keys, K) {
        rows := [s.row] + rows;
      }
    }
    assert source[..|source|] == source;
  }

  // ---- fetching in batches ----

  const INCLUDE_BATCH: nat := 500

  predicate DistinctTexts(keys: seq<Value>, K: Keys) {
    && (forall i :: 0 <= i < |keys| ==> !keys[i].Null?)
    && (forall i, j :: 0 <= i < j < |keys| ==> K.Text(keys[i]) != K.Text(keys[j]))
  }

  /** The first key of the last batch. */
  function LastBatch(keys: seq<Value>): (q: nat)
    requires keys != []
    ensures q < |keys| <= q + INCLUDE_BATCH
  {
    (|keys| - 1) / INCLUDE_BATCH * INCLUDE_BATCH
  }

  /** How many batches find a row with this value. */
  function Times(v: Value, keys: seq<Value>, K: Keys): nat
    decreases |keys|
  {
    if keys == [] then 0
    else
      var q := LastBatch(keys);
      Times(v, keys[..q], K) + if KeyIn(v, keys[q..], K) then 1 else 0
  }

  function Repeat(r: Row, n: nat): seq<Row> { seq(n, _ => r) }

  /** What the batches return together: a row once for every batch that finds it. */
  function Fetched(source: seq<Stored>, soft: bool, col: string, keys: seq<Value>, K: Keys): seq<Row> {
    if source == [] then []
    else
      var s := source[|source| - 1];
      Fetched(source[..|source| - 1], soft, col, keys, K)
      + (if Live(s, soft) then Repeat(s.row, Times(Get(s.row, col), keys, K)) else [])
  }

  lemma OneMoreBatch(v: Value, a: seq<Value>, b: seq<Value>, K: Keys)
    requires |a| % INCLUDE_BATCH == 0 && 0 < |b| <= INCLUDE_BATCH
    ensures Times(v, a + b, K) == Times(v, a, K) + if KeyIn(v, b, K) then 1 else 0
  {
    hide KeyIn;
    assert LastBatch(a + b) == |a|;
    assert (a + b)[..|a|] == a && (a + b)[|a|..] == b;
  }

  lemma RepeatOnce(r: Row, n: nat, more: bool)
    ensures multiset(Repeat(r, n + if more then 1 else 0))
        == multiset(Repeat(r, n)) + multiset(if more then [r] else [])
  {
    if more { assert Repeat(r, n + 1) == Repeat(r, n) + [r]; }
  }

  lemma FromNothing(soft: bool, col: string, keys: seq<Value>, K: Keys)
    ensures Fetched([], soft, col, keys, K) == [] && Matching([], soft, col, keys, K) == []
  {
  }

  /** What the last stored row adds. */
  lemma OneMoreStored(source: seq<Stored>, soft: bool, col: string, keys: seq<Value>, K: Keys)
    requires source != []
    ensures var init, s := source[..|source| - 1], source[|source| - 1];
      && multiset(Fetched(source, soft, col, keys, K)) == multiset(Fetched(init, soft, col, keys, K))
         + multiset(if Live(s, soft) then Repeat(s.row, Times(Get(s.row, col), keys, K)) else [])
      && multiset(Matching(source, soft, col, keys, K)) == multiset(Matching(init, soft, col, keys, K))
         + multiset(if Live(s, soft) && KeyIn(Get(s.row, col), keys, K) then [s.row] else [])
  {
    hide KeyIn, Times, Repeat, Live, Get;
  }

  /** One more batch adds its answer. */
  lemma {:induction false} BatchesAdd(source: seq<Stored>, soft: bool, col: string, a: seq<Value>, b: seq<Value>,
                                      K: Keys)
    requires |a| % INCLUDE_BATCH == 0 && 0 < |b| <= INCLUDE_BATCH
    ensures multiset(Fetched(source, soft, col, a + b, K))
         == multiset(Fetched(source, soft, col, a, K)) + multiset(Matching(source, soft, col, b, K))
    decreases |source|
  {
    hide KeyIn, Times, Repeat, Live, Get, Fetched, Matching;
    if source == [] {
      FromNothing(soft, col, a, K);
      FromNothing(soft, col, b, K);
      FromNothing(soft, col, a + b, K);
    } else {
      var s := source[|source| - 1];
      BatchesAdd(source[..|source| - 1], soft, col, a, b, K);
      OneMoreStored(source, soft, col, a, K);
      OneMoreStored(source, soft, col, b, K);
      OneMoreStored(source, soft, col, a + b, K);
      OneMoreBatch(Get(s.row, col), a, b, K);
      var n, more := Times(Get(s.row, col), a, K), Live(s, soft) && KeyIn(Get(s.row, col), b, K);
      RepeatOnce(s.row, n, more);
      Regroup(multiset(Fetched(source[..|source| - 1], soft, col, a, K)),
          multiset(Matching(source[..|source| - 1], soft, col, b, K)),
              multiset(if Live(s, soft) then Repeat(s.row, n) else []), multiset(if more then [s.row] else []));
    }
  }

  lemma Regroup(a: multiset<Row>, b: multiset<Row>, c: multiset<Row>, d: multiset<Row>)
    ensures (a + b) + (c + d) == (a + c) + (b + d)
  {
  }

  lemma {:induction false} FoundByABatch(v: Value, keys: seq<Value>, K: Keys)
    ensures Times(v, keys, K) >= 1 <==> KeyIn(v, keys, K)
    decreases |keys|
  {
    if keys != [] {
      var q := LastBatch(keys);
      FoundByABatch(v, keys[..q], K);
      assert keys == keys[..q] + keys[q..];
      KeyInParts(v, keys[..q], keys[q..], K);
    }
  }

  /** A batch has up to 500 keys. */
  lemma BatchesOfFiveHundred(v: Value, keys: seq<Value>, K: Keys)
    ensures |keys| <= 500 ==> Times(v, keys, K) == if KeyIn(v, keys, K) then 1 else 0
    ensures 500 < |keys| <= 1000 ==>
      Times(v, keys, K) == (if KeyIn(v, keys[..500], K) then 1 else 0) + (if KeyIn(v, keys[500..], K) then 1 else 0)
  {
    hide KeyIn;
    TimesStep(v, keys, K);
    if 500 < |keys| <= 1000 {
      TimesStep(v, keys[..500], K);
      assert keys[..500][..0] == [] && keys[..500][0..] == keys[..500];
    } else if 0 < |keys| <= 500 {
      assert keys[..0] == [] && keys[0..] == keys;
    } else if keys == [] {
      NoKeyFinds(v, K);
    }
    TimesStep(v, [], K);
  }

  lemma TimesStep(v: Value, keys: seq<Value>, K: Keys)
    ensures keys == [] ==> Times(v, keys, K) == 0
    ensures keys != [] ==>
      var q := LastBatch(keys);
      Times(v, keys, K) == Times(v, keys[..q], K) + if KeyIn(v, keys[q..], K) then 1 else 0
  {
    hide KeyIn;
  }

  lemma NoKeyFinds(v: Value, K: Keys)
    ensures !KeyIn(v, [], K)
  {
  }

  lemma KeyInParts(v: Value, a: seq<Value>, b: seq<Value>, K: Keys)
    ensures KeyIn(v, a + b, K) <==> KeyIn(v, a, K) || KeyIn(v, b, K)
  {
    var all := a + b;
    if KeyIn(v, a, K) {
      var i :| 0 <= i < |a| && K.SqlEq(v, a[i]);
      assert all[i] == a[i];
    }
    if KeyIn(v, b, K) {
      var i :| 0 <= i < |b| && K.SqlEq(v, b[i]);
      assert all[|a| + i] == b[i];
    }
  }

  lemma {:induction false} CountsOfBatches(source: seq<Stored>, soft: bool, col: string, keys: seq<Value>, K: Keys)
    ensures |Matching(source, soft, col, keys, K)| <= |Fetched(source, soft, col, keys, K)|
    ensures |Matching(source, soft, col, keys, K)| == |Fetched(source, soft, col, keys, K)|
      <==> forall i :: 0 <= i < |source| && Live(source[i], soft) ==> Times(Get(source[i].row, col), keys, K) <= 1
    ensures |Matching(source, soft, col, keys, K)| == |Fetched(source, soft, col, keys, K)|
      ==> Matching(source, soft, col, keys, K) == Fetched(source, soft, col, keys, K)
    decreases |source|
  {
    hide KeyIn, Times, Live, Get;
    if source != [] {
      var init, s := source[..|source| - 1], source[|source| - 1];
      CountsOfBatches(init, soft, col, keys, K);
      FoundByABatch(Get(s.row, col), keys, K);
      assert Repeat(s.row, 1) == [s.row];
      assert forall i :: 0 <= i < |init| ==> source[i] == init[i];
    }
  }

  /** The batches return together what one query with all keys returns if and only if no live row
      is found by two of them. */
  lemma BatchesAreOneQuery(source: seq<Stored>, soft: bool, col: string, keys: seq<Value>, K: Keys)
    ensures multiset(Fetched(source, soft, col, keys, K)) == multiset(Matching(source, soft, col, keys, K))
      <==> forall i :: 0 <= i < |source| && Live(source[i], soft) ==> Times(Get(source[i].row, col), keys, K) <= 1
  {
    hide Fetched, Matching, Times, Live, Get;
    CountsOfBatches(source, soft, col, keys, K);
    var fetched, matching := Fetched(source, soft, col, keys, K), Matching(source, soft, col, keys, K);
    assert |multiset(fetched)| == |fetched| && |multiset(matching)| == |matching|;
  }

  lemma {:induction false} NoKeysNoRows(source: seq<Stored>, soft: bool, col: string, K: Keys)
    ensures Fetched(source, soft, col, [], K) == []
    decreases |source|
  {
    if source != [] { NoKeysNoRows(source[..|source| - 1], soft, col, K); }
  }

  method FetchIn(source: seq<Stored>, soft: bool, col: string, keys: seq<Value>, K: Keys) returns (ok: bool,
                 rows: seq<Row>)
    ensures ok ==> multiset(rows) == multiset(Fetched(source, soft, col, keys, K))
  {
    hide Fetched, Matching;
    rows := [];
    var start := 0;
    NoKeysNoRows(source, soft, col, K);
    while start < |keys|
      invariant 0 <= start && start % INCLUDE_BATCH == 0
      invariant multiset(rows)
          == multiset(Fetched(source, soft, col, keys[..if start < |keys| then start else |keys|], K))
    {
      var end := if start + INCLUDE_BATCH < |keys| then start + INCLUDE_BATCH else |keys|;
      var batch;
      ok, batch := Query(source, soft, col, keys[start..end], K);
      if !ok {
        return false, [];
      }
      assert keys[..end] == keys[..start] + keys[start..end];
      BatchesAdd(source, soft, col, keys[..start], keys[start..end], K);
      rows := rows + batch;
      start := start + INCLUDE_BATCH;
    }
    assert keys[..|keys|] == keys;
    ok := true;
  }

  // ---- the keys of the rows ----

  predicate HasText(keys: seq<Value>, t: string, K: Keys) {
    exists i :: 0 <= i < |keys| && K.Text(keys[i]) == t
  }

  /** keys holds one key for every text among the non-nil keys of the rows, and no other. */
  ghost predicate CoversKeys(keys: seq<Value>, rows: seq<Row>, col: string, K: Keys) {
    && DistinctTexts(keys, K)
    && (forall i :: 0 <= i < |rows| ==> Get(rows[i], col).Null? || HasText(keys, K.Text(Get(rows[i], col)), K))
    && (forall j :: 0 <= j < |keys| ==> exists i :: 0 <= i < |rows| && Get(rows[i], col) == keys[j])
  }

  function TextsOf(keys: seq<Value>, K: Keys): set<string> { set v | v in keys :: K.Text(v) }

  lemma HasTextIsMember(keys: seq<Value>, t: string, K: Keys)
    ensures HasText(keys, t, K) <==> t in TextsOf(keys, K)
  {
    if t in TextsOf(keys, K) {
      var v :| v in keys && K.Text(v) == t;
      var i :| 0 <= i < |keys| && keys[i] == v;
    }
  }

  lemma HasTextGrows(keys: seq<Value>, v: Value, t: string, K: Keys)
    ensures HasText(keys, t, K) ==> HasText(keys + [v], t, K)
    ensures HasText(keys + [v], K.Text(v), K)
  {
    var all := keys + [v];
    assert all[|keys|] == v;
    if HasText(keys, t, K) {
      var i :| 0 <= i < |keys| && K.Text(keys[i]) == t;
      assert all[i] == keys[i];
    }
  }

  lemma CoversRepeated(keys: seq<Value>, rows: seq<Row>, r: Row, col: string, K: Keys)
    requires CoversKeys(keys, rows, col, K)
    requires Get(r, col).Null? || K.Text(Get(r, col)) in TextsOf(keys, K)
    ensures CoversKeys(keys, rows + [r], col, K)
  {
    hide HasText, DistinctTexts, Get, TextsOf;
    HasTextIsMember(keys, K.Text(Get(r, col)), K);
    var all := rows + [r];
    forall i | 0 <= i < |all| ensures Get(all[i], col).Null? || HasText(keys, K.Text(Get(all[i], col)), K) {
      assert all[i] == if i < |rows| then rows[i] else r;
    }
    forall j | 0 <= j < |keys| ensures exists i :: 0 <= i < |all| && Get(all[i], col) == keys[j] {
      var i :| 0 <= i < |rows| && Get(rows[i], col) == keys[j];
      assert all[i] == rows[i];
    }
    assert DistinctTexts(keys, K);
    assert forall i :: 0 <= i < |all| ==> Get(all[i], col).Null? || HasText(keys, K.Text(Get(all[i], col)), K);
    assert forall j :: 0 <= j < |keys| ==> exists i :: 0 <= i < |all| && Get(all[i], col) == keys[j];
    assert CoversKeys(keys, all, col, K);
  }

  lemma CoversNew(keys: seq<Value>, rows: seq<Row>, r: Row, col: string, K: Keys)
    requires CoversKeys(keys, rows, col, K)
    requires !Get(r, col).Null? && K.Text(Get(r, col)) !in TextsOf(keys, K)
    ensures CoversKeys(keys + [Get(r, col)], rows + [r], col, K)
  {
    hide HasText, DistinctTexts, Get, TextsOf;
    var v := Get(r, col);
    var all, keys' := rows + [r], keys + [v];
    assert all[|rows|] == r;
    NewTextDistinct(keys, v, K);
    forall i | 0 <= i < |all| ensures Get(all[i], col).Null? || HasText(keys', K.Text(Get(all[i], col)), K) {
      HasTextGrows(keys, v, K.Text(Get(all[i], col)), K);
    }
    forall j | 0 <= j < |keys'| ensures exists i :: 0 <= i < |all| && Get(all[i], col) == keys'[j] {
      if j < |keys| {
        var i :| 0 <= i < |rows| && Get(rows[i], col) == keys[j];
        assert all[i] == rows[i];
      }
    }
  }

  lemma NewTextDistinct(keys: seq<Value>, v: Value, K: Keys)
    requires DistinctTexts(keys, K) && !v.Null? && K.Text(v) !in TextsOf(keys, K)
    ensures DistinctTexts(keys + [v], K)
  {
  }

  method DistinctKeys(rows: seq<Row>, col: string, K: Keys) returns (keys: seq<Value>)
    ensures CoversKeys(keys, rows, col, K)
  {
    hide CoversKeys, TextsOf;
    var seen: set<string> := {};
    keys := [];
    NoRowsNoKeys(col, K);
    for i := 0 to |rows|
      invariant seen == TextsOf(keys, K)
      invariant CoversKeys(keys, rows[..i], col, K)
    {
      var v := Get(rows[i], col);
      assert rows[..i + 1] == rows[..i] + [rows[i]];
      if v.Null? {
        CoversRepeated(keys, rows[..i], rows[i], col, K);
        continue;
      }
      var k := K.Text(v);
      if k in seen {
        CoversRepeated(keys, rows[..i], rows[i], col, K);
      } else {
        CoversNew(keys, rows[..i], rows[i], col, K);
        TextsGrow(keys, v, K);
        seen := seen + {k};
        keys := keys + [v];
      }
    }
    assert rows[..|rows|] == rows;
  }

  lemma NoRowsNoKeys(col: string, K: Keys)
    ensures TextsOf([], K) == {} && CoversKeys([], [], col, K)
  {
  }

  lemma TextsGrow(keys: seq<Value>, v: Value, K: Keys)
    ensures TextsOf(keys + [v], K) == TextsOf(keys, K) + {K.Text(v)}
  {
    assert v in keys + [v];
    assert forall k <- keys :: k in keys + [v];
    assert forall k <- keys + [v] :: k in keys || k == v;
  }

  // ---- grouping ----

  const PARENT_KEY: string := "__yaypi_parent"

  /** The row as attached: without the internal column, after the hook. */
  function Clean(r: Row, hook: Row -> Row): Row { hook(r - {PARENT_KEY}) }

  function Group(rows: seq<Row>, col: string, t: string, K: Keys, hook: Row -> Row): seq<Row> {
    if rows == [] then []
    else
      var r := rows[|rows| - 1];
      Group(rows[..|rows| - 1], col, t, K, hook) + (if K.Text(Get(r, col)) == t then [Clean(r, hook)] else [])
  }

  function Listed(m: map<string, seq<Row>>, t: string): seq<Row> { if t in m then m[t] else [] }

  method IndexBy(rows: seq<Row>, col: string, K: Keys, hook: Row -> Row) returns (groups: map<string, seq<Row>>)
    ensures forall t :: Listed(groups, t) == Group(rows, col, t, K, hook)
  {
    hide Clean;
    groups := map[];
    for i := 0 to |rows|
      invariant forall t :: Listed(groups, t) == Group(rows[..i], col, t, K, hook)
    {
      assert rows[..i + 1][..i] == rows[..i];
      var k := K.Text(Get(rows[i], col));
      ghost var prior := groups;
      groups := groups[k := Listed(groups, k) + [Clean(rows[i], hook)]];
      assert forall t :: Listed(groups, t) == Listed(prior, t) + if k == t then [Clean(rows[i], hook)] else [];
    }
    assert rows[..|rows|] == rows;
  }

  lemma {:induction false} GroupAppends(a: seq<Row>, b: seq<Row>, col: string, t: string, K: Keys, hook: Row -> Row)
    ensures Group(a + b, col, t, K, hook) == Group(a, col, t, K, hook) + Group(b, col, t, K, hook)
    decreases |b|
  {
    hide Clean;
    if b == [] {
      assert a + b == a;
    } else {
      assert (a + b)[..|a + b| - 1] == a + b[..|b| - 1];
      GroupAppends(a, b[..|b| - 1], col, t, K, hook);
    }
  }

  /** The order in which the database answers does not change a group's contents. */
  lemma {:induction false} GroupIgnoresOrder(a: seq<Row>, b: seq<Row>, col: string, t: string, K: Keys,
                                             hook: Row -> Row)
    requires multiset(a) == multiset(b)
    ensures multiset(Group(a, col, t, K, hook)) == multiset(Group(b, col, t, K, hook))
    decreases |a|
  {
    hide Clean, Get, Group;
    if a == [] {
      EmptyMultiset(b);
    } else {
      var init, r := a[..|a| - 1], a[|a| - 1];
      assert a == init + [r];
      assert r in multiset(a);
      var j :| 0 <= j < |b| && b[j] == r;
      var pre, post := b[..j], b[j + 1..];
      MovesOut(init, r, b, j);
      GroupIgnoresOrder(init, pre + post, col, t, K, hook);
      GroupAppends(pre, post, col, t, K, hook);
      GroupAppends(pre + [r], post, col, t, K, hook);
      GroupAppends(pre, [r], col, t, K, hook);
      GroupAppends(init, [r], col, t, K, hook);
    }
  }

  lemma MovesOut(init: seq<Row>, r: Row, b: seq<Row>, j: nat)
    requires multiset(init + [r]) == multiset(b) && j < |b| && b[j] == r
    ensures b == b[..j] + [r] + b[j + 1..]
    ensures multiset(init) == multiset(b[..j] + b[j + 1..])
  {
    var pre, post := b[..j], b[j + 1..];
    assert b == pre + [r] + post;
    assert multiset(b) == multiset(pre) + multiset{r} + multiset(post);
    assert multiset(init) + multiset{r} == multiset(pre + post) + multiset{r};
    assert multiset(init) == multiset(init) + multiset{r} - multiset{r};
  }

  lemma EmptyMultiset(b: seq<Row>)
    requires multiset(b) == multiset{}
    ensures b == []
  {
    if b != [] { NonEmptyMultiset(b); }
  }

  lemma NonEmptyMultiset(b: seq<Row>)
    requires b != []
    ensures multiset(b) != multiset{}
  {
    assert b[0] in multiset(b);
  }

  // ---- the naive lookup ----

  /** What a query for one row's key returns: col = key [AND deleted_at IS NULL]. */
  function Lookup(source: seq<Stored>, soft: bool, col: string, key: Value, K: Keys, hook: Row -> Row): seq<Row> {
    if source == [] then []
    else
      var s := source[|source| - 1];
      Lookup(source[..|source| - 1], soft, col, key, K, hook)
      + (if Live(s, soft) && K.SqlEq(Get(s.row, col), key) then [Clean(s.row, hook)] else [])
  }

  /** Per value and key: a value of the key's text is returned once if it equals the key, and not
      at all otherwise; one of another text does not equal it. */
  predicate Served(v: Value, keys: seq<Value>, key: Value, K: Keys) {
    (if K.Text(v) == K.Text(key) then Times(v, keys, K) else 0) == (if K.SqlEq(v, key) then 1 else 0)
  }

  ghost predicate AllServed(source: seq<Stored>, soft: bool, col: string, keys: seq<Value>, key: Value, K: Keys) {
    forall i :: 0 <= i < |source| && Live(source[i], soft) ==> Served(Get(source[i].row, col), keys, key, K)
  }

  /** The group of a row's key is its lookup, however many other keys were fetched with it. */
  lemma {:induction false} GroupIsLookup(source: seq<Stored>, soft: bool, col: string, keys: seq<Value>, key: Value,
                                         K: Keys, hook: Row -> Row)
    requires AllServed(source, soft, col, keys, key, K)
    ensures Group(Fetched(source, soft, col, keys, K), col, K.Text(key), K, hook)
        == Lookup(source, soft, col, key, K, hook)
    decreases |source|
  {
    hide Clean, Get, Live, Keys.SqlEq, Keys.Text, Times, Repeat;
    if source != [] {
      var init, s := source[..|source| - 1], source[|source| - 1];
      assert forall i :: 0 <= i < |init| ==> source[i] == init[i];
      GroupIsLookup(init, soft, col, keys, key, K, hook);
      var last := if Live(s, soft) then Repeat(s.row, Times(Get(s.row, col), keys, K)) else [];
      GroupAppends(Fetched(init, soft, col, keys, K), last, col, K.Text(key), K, hook);
      GroupOfRepeat(s.row, Times(Get(s.row, col), keys, K), col, K.Text(key), K, hook);
      GroupOfOne(s.row, col, K.Text(key), K, hook);
    }
  }

  lemma {:induction false} GroupOfRepeat(r: Row, n: nat, col: string, t: string, K: Keys, hook: Row -> Row)
    ensures n == 0 ==> Repeat(r, n) == []
    ensures n == 1 ==> Repeat(r, n) == [r]
    ensures K.Text(Get(r, col)) != t ==> Group(Repeat(r, n), col, t, K, hook) == []
    ensures K.Text(Get(r, col)) == t ==> (Group(Repeat(r, n), col, t, K, hook) == [] <==> n == 0)
  {
    hide Clean, Get;
    if n > 0 {
      GroupOfRepeat(r, n - 1, col, t, K, hook);
      assert Repeat(r, n)[..n - 1] == Repeat(r, n - 1);
    }
  }

  lemma GroupOfOne(r: Row, col: string, t: string, K: Keys, hook: Row -> Row)
    ensures Group([], col, t, K, hook) == []
    ensures Group([r], col, t, K, hook) == if K.Text(Get(r, col)) == t then [Clean(r, hook)] else []
  {
    assert [r][..0] == [];
  }

  lemma {:induction false} NullFindsNothing(source: seq<Stored>, soft: bool, col: string, K: Keys, hook: Row -> Row)
    ensures Lookup(source, soft, col, Null, K, hook) == []
    decreases |source|
  {
    hide Clean, Get, Live;
    if source != [] { NullFindsNothing(source[..|source| - 1], soft, col, K, hook); }
  }

  /** A live related row with a key whose text is empty was fetched for some row. */
  ghost predicate EmptyKeyFetched(source: seq<Stored>, soft: bool, col: string, keys: seq<Value>, K: Keys) {
    exists i :: 0 <= i < |source| && FetchedUnderEmpty(source[i], soft, col, keys, K)
  }

  predicate FetchedUnderEmpty(s: Stored, soft: bool, col: string, keys: seq<Value>, K: Keys) {
    Live(s, soft) && KeyIn(Get(s.row, col), keys, K) && K.Text(Get(s.row, col)) == ""
  }

  /** A nil key and an empty one share the text "": a row without a key gets the rows of the
      empty key exactly when some were fetched. */
  lemma {:induction false} EmptyGroup(source: seq<Stored>, soft: bool, col: string, keys: seq<Value>, K: Keys,
                                      hook: Row -> Row)
    ensures Group(Fetched(source, soft, col, keys, K), col, "", K, hook) != []
        <==> EmptyKeyFetched(source, soft, col, keys, K)
    decreases |source|
  {
    hide Clean, Get, KeyIn, Live, Keys.Text, EmptyKeyFetched, Group, Times, Repeat;
    GroupOfNone(col, "", K, hook);
    if source == [] {
      NoneFetched(soft, col, keys, K);
    } else {
      var init, s := source[..|source| - 1], source[|source| - 1];
      EmptyGroup(init, soft, col, keys, K, hook);
      var last := if Live(s, soft) then Repeat(s.row, Times(Get(s.row, col), keys, K)) else [];
      GroupAppends(Fetched(init, soft, col, keys, K), last, col, "", K, hook);
      GroupOfRepeat(s.row, Times(Get(s.row, col), keys, K), col, "", K, hook);
      FoundByABatch(Get(s.row, col), keys, K);
      EmptyKeyOneMore(init, s, soft, col, keys, K);
      assert source == init + [s];
    }
  }

  lemma NoneFetched(soft: bool, col: string, keys: seq<Value>, K: Keys)
    ensures !EmptyKeyFetched([], soft, col, keys, K)
  {
  }

  lemma GroupOfNone(col: string, t: string, K: Keys, hook: Row -> Row)
    ensures Group([], col, t, K, hook) == []
  {
  }

  lemma EmptyKeyOneMore(init: seq<Stored>, s: Stored, soft: bool, col: string, keys: seq<Value>, K: Keys)
    ensures EmptyKeyFetched(init + [s], soft, col, keys, K)
      <==> EmptyKeyFetched(init, soft, col, keys, K) || FetchedUnderEmpty(s, soft, col, keys, K)
  {
    hide FetchedUnderEmpty;
    var all := init + [s];
    assert all[|init|] == s;
    if EmptyKeyFetched(init, soft, col, keys, K) {
      var i :| 0 <= i < |init| && FetchedUnderEmpty(init[i], soft, col, keys, K);
      assert all[i] == init[i];
    }
  }

  // ---- Include ----

  datatype Kind = BelongsTo | HasOne | HasMany | ManyToMany | Other

  datatype Relation = Relation(name: string, kind: Kind, entity: string, foreignKey: string, through: string,
      otherKey: string)

  datatype Outcome = Done | UnknownEntity | CrossDatabase | UnknownThrough | Unsupported | QueryFailed

  /** The rows of the many-to-many join, each carrying its owner's key. */
  function JoinWith(o: Stored, links: seq<Stored>, pk: string, fk: string, other: string, K: Keys): seq<Stored> {
    if links == [] then []
    else
      var j := links[|links| - 1].row;
      JoinWith(o, links[..|links| - 1], pk, fk, other, K)
      + (if K.SqlEq(Get(j, other), Get(o.row, pk)) then [Stored(o.row[PARENT_KEY := Get(j, fk)], o.deletedAt)] else [])
  }

  function Join(targets: seq<Stored>, links: seq<Stored>, pk: string, fk: string, other: string, K: Keys): seq<Stored> {
    if targets == [] then []
    else
      Join(targets[..|targets| - 1], links, pk, fk, other, K)
      + JoinWith(targets[|targets| - 1], links, pk, fk, other, K)
  }

  /** The related rows a relation draws from, the column it matches, and the rows' own column. */
  function Source(rel: Relation, own: Entity, registry: map<string, Entity>, K: Keys): (seq<Stored>, string, string)
    requires rel.entity in registry && (rel.kind.ManyToMany? ==> rel.through in registry)
  {
    var target := registry[rel.entity];
    match rel.kind
    case BelongsTo => (target.rows, target.pk, rel.foreignKey)
    case ManyToMany => (Join(target.rows, registry[rel.through].rows, target.pk, rel.foreignKey, rel.otherKey, K),
        PARENT_KEY, own.pk)
    case _ => (target.rows, rel.foreignKey, own.pk)
  }

  /** The value attached for the rows found: all of them, or one and null without any. */
  predicate Attached(kind: Kind, v: Value, found: seq<Row>) {
    if kind.HasMany? || kind.ManyToMany? then v.List? && multiset(v.rows) == multiset(found)
    else if found == [] then v.Null?
    else v.Object? && v.row in found
  }

  function Attach(kind: Kind, list: seq<Row>): Value {
    if kind.HasMany? || kind.ManyToMany? then List(list)
    else if |list| > 0 then Object(list[0])
    else Null
  }

  lemma AttachedUpToOrder(kind: Kind, list: seq<Row>, group: seq<Row>, found: seq<Row>)
    requires multiset(list) == multiset(group)
    requires group == found || (found == [] && group != [])
    ensures Attached(kind, Attach(kind, list), found) <==> group == found
  {
    if list == [] {
      EmptyMultiset(group);
    } else {
      assert list[0] in multiset(list);
      assert list[0] in group;
    }
    if group != [] {
      assert group[0] in multiset(group);
    }
  }

  /** The general lookup of one row once its relation's rows are fetched and grouped. */
  lemma OneRow(source: seq<Stored>, soft: bool, col: string, keys: seq<Value>, key: Value,
                                  related: seq<Row>, list: seq<Row>, kind: Kind, K: Keys, hook: Row -> Row)
    requires key.Null? || AllServed(source, soft, col, keys, key, K)
    requires multiset(related) == multiset(Fetched(source, soft, col, keys, K))
    requires list == Group(related, col, K.Text(key), K, hook)
    ensures Attached(kind, Attach(kind, list), Lookup(source, soft, col, key, K, hook))
      <==> !(key.Null? && EmptyKeyFetched(source, soft, col, keys, K))
  {
    hide Attached, Attach, Lookup, Group, Fetched, EmptyKeyFetched, AllServed;
    var fetched := Fetched(source, soft, col, keys, K);
    GroupIgnoresOrder(related, fetched, col, K.Text(key), K, hook);
    if key.Null? {
      NullFindsNothing(source, soft, col, K, hook);
      EmptyGroup(source, soft, col, keys, K, hook);
    } else {
      GroupIsLookup(source, soft, col, keys, key, K, hook);
    }
    AttachedUpToOrder(kind, list, Group(fetched, col, K.Text(key), K, hook), Lookup(source, soft, col, key, K, hook));
  }

  /** The non-nil keys of the rows, as a naive list. */
  function OwnKeys(rows: seq<Row>,
                   col: string): seq<Value> { seq(|rows|, i requires 0 <= i < |rows| => Get(rows[i], col)) }

  /** Among the live rows that some key finds, a key finds a row exactly when their texts agree. */
  ghost predicate TextsDecide(source: seq<Stored>, soft: bool, col: string, own: seq<Value>, K: Keys) {
    forall i :: 0 <= i < |source| && Live(source[i], soft) ==> TextDecides(Get(source[i].row, col), own, K)
  }

  ghost predicate TextDecides(v: Value, own: seq<Value>, K: Keys) {
    KeyIn(v, own, K) ==>
      forall k :: 0 <= k < |own| && !own[k].Null? ==> (K.SqlEq(v, own[k]) <==> K.Text(v) == K.Text(own[k]))
  }

  ghost predicate ServedAlways(v: Value, keys: seq<Value>, own: seq<Value>, K: Keys) {
    forall k :: 0 <= k < |own| && !own[k].Null? ==> Served(v, keys, own[k], K)
  }

  lemma {:induction false} OneBatchAtMost(v: Value, keys: seq<Value>, K: Keys)
    requires DistinctTexts(keys, K)
    requires forall j :: 0 <= j < |keys| && K.SqlEq(v, keys[j]) ==> K.Text(keys[j]) == K.Text(v)
    ensures Times(v, keys, K) <= 1
    decreases |keys|
  {
    hide Keys.Text, Keys.SqlEq;
    if keys != [] {
      var q := LastBatch(keys);
      var a, b := keys[..q], keys[q..];
      OneBatchAtMost(v, a, K);
      FoundByABatch(v, a, K);
      if KeyIn(v, a, K) {
        var i :| 0 <= i < |a| && K.SqlEq(v, a[i]);
        forall j | 0 <= j < |b| ensures !K.SqlEq(v, b[j]) {
          OtherTextDiffers(v, keys, i, q + j, K);
        }
      }
    }
  }

  lemma OtherTextDiffers(v: Value, keys: seq<Value>, i: nat, j: nat, K: Keys)
    requires DistinctTexts(keys, K) && i < j < |keys| && K.SqlEq(v, keys[i])
    requires forall m :: 0 <= m < |keys| && K.SqlEq(v, keys[m]) ==> K.Text(keys[m]) == K.Text(v)
    ensures !K.SqlEq(v, keys[j])
  {
    hide Keys.Text, Keys.SqlEq;
    assert K.Text(keys[i]) != K.Text(keys[j]);
  }

  /** Every distinct key is some row's, and every row's text is that of a distinct key. */
  lemma DistinctAreOwn(keys: seq<Value>, rows: seq<Row>, col: string, K: Keys)
    requires CoversKeys(keys, rows, col, K)
    ensures var own := OwnKeys(rows, col);
      && DistinctTexts(keys, K)
      && (forall j :: 0 <= j < |keys| ==> keys[j] in own)
      && (forall k :: 0 <= k < |own| && !own[k].Null? ==> HasText(keys, K.Text(own[k]), K))
  {
    hide Get, HasText, Keys.Text;
    var own := OwnKeys(rows, col);
    forall j | 0 <= j < |keys| ensures keys[j] in own {
      var k :| 0 <= k < |rows| && Get(rows[k], col) == keys[j];
      assert own[k] == keys[j];
    }
    forall k | 0 <= k < |own| && !own[k].Null? ensures HasText(keys, K.Text(own[k]), K) {
      assert own[k] == Get(rows[k], col);
    }
  }

  lemma DistinctFindOwn(v: Value, keys: seq<Value>, rows: seq<Row>, col: string, K: Keys)
    requires CoversKeys(keys, rows, col, K) && KeyIn(v, keys, K)
    ensures KeyIn(v, OwnKeys(rows, col), K)
  {
    DistinctAreOwn(keys, rows, col, K);
    hide Keys.SqlEq, OwnKeys, CoversKeys;
    var j :| 0 <= j < |keys| && K.SqlEq(v, keys[j]);
    var own := OwnKeys(rows, col);
    var k :| 0 <= k < |own| && own[k] == keys[j];
    assert K.SqlEq(v, own[k]);
  }

  /** When texts decide, a value that equals a row's key equals the distinct key of that text. */
  lemma OwnFindDistinct(v: Value, keys: seq<Value>, rows: seq<Row>, col: string, K: Keys)
    requires CoversKeys(keys, rows, col, K) && TextDecides(v, OwnKeys(rows, col), K)
    requires KeyIn(v, OwnKeys(rows, col), K)
    ensures KeyIn(v, keys, K)
  {
    DistinctAreOwn(keys, rows, col, K);
    hide Keys.SqlEq, Keys.Text, OwnKeys, CoversKeys, DistinctTexts;
    var own := OwnKeys(rows, col);
    var k :| 0 <= k < |own| && K.SqlEq(v, own[k]);
    NotNull(v, own[k], K);
    var j :| 0 <= j < |keys| && K.Text(keys[j]) == K.Text(own[k]);
    var m :| 0 <= m < |own| && own[m] == keys[j];
    DistinctNotNull(keys, j, K);
    assert K.SqlEq(v, own[m]);
    assert K.SqlEq(v, keys[j]);
  }

  lemma NotNull(v: Value, w: Value, K: Keys)
    requires K.SqlEq(v, w)
    ensures !w.Null?
  {
  }

  lemma DistinctNotNull(keys: seq<Value>, j: nat, K: Keys)
    requires DistinctTexts(keys, K) && j < |keys|
    ensures !keys[j].Null?
  {
  }

  lemma DecidedIsServed(v: Value, keys: seq<Value>, rows: seq<Row>, col: string, K: Keys)
    requires CoversKeys(keys, rows, col, K)
    ensures TextDecides(v, OwnKeys(rows, col), K) <==> ServedAlways(v, keys, OwnKeys(rows, col), K)
  {
    hide TextDecides, ServedAlways, CoversKeys, OwnKeys;
    if TextDecides(v, OwnKeys(rows, col), K) { DecidedThenServed(v, keys, rows, col, K); }
    if ServedAlways(v, keys, OwnKeys(rows, col), K) { ServedThenDecided(v, keys, OwnKeys(rows, col), K); }
  }

  lemma DecidedThenServed(v: Value, keys: seq<Value>, rows: seq<Row>, col: string, K: Keys)
    requires CoversKeys(keys, rows, col, K) && TextDecides(v, OwnKeys(rows, col), K)
    ensures ServedAlways(v, keys, OwnKeys(rows, col), K)
  {
    var own := OwnKeys(rows, col);
    DistinctAreOwn(keys, rows, col, K);
    hide Keys.SqlEq, Keys.Text, OwnKeys, CoversKeys, DistinctTexts, Times;
    FoundByABatch(v, keys, K);
    if KeyIn(v, own, K) {
      OwnFindDistinct(v, keys, rows, col, K);
      forall j | 0 <= j < |keys| && K.SqlEq(v, keys[j]) ensures K.Text(keys[j]) == K.Text(v) {
        var k :| 0 <= k < |own| && own[k] == keys[j];
        NotNull(v, own[k], K);
      }
      OneBatchAtMost(v, keys, K);
    } else {
      if KeyIn(v, keys, K) { DistinctFindOwn(v, keys, rows, col, K); }
      forall k | 0 <= k < |own| && !own[k].Null? ensures !K.SqlEq(v, own[k]) {
      }
    }
  }

  lemma ServedThenDecided(v: Value, keys: seq<Value>, own: seq<Value>, K: Keys)
    requires ServedAlways(v, keys, own, K)
    ensures TextDecides(v, own, K)
  {
    hide Keys.SqlEq, Keys.Text, Times;
    if KeyIn(v, own, K) {
      var m :| 0 <= m < |own| && K.SqlEq(v, own[m]);
      NotNull(v, own[m], K);
      assert Served(v, keys, own[m], K);
    }
  }

  // ---- exactly when groups are lookups ----

  /** The rows of one text, before the hook. */
  function Keyed(rows: seq<Row>, col: string, t: string, K: Keys): seq<Row> {
    if rows == [] then []
    else
      var r := rows[|rows| - 1];
      Keyed(rows[..|rows| - 1], col, t, K) + if K.Text(Get(r, col)) == t then [r] else []
  }

  lemma {:induction false} KeyedAppends(a: seq<Row>, b: seq<Row>, col: string, t: string, K: Keys)
    ensures Keyed(a + b, col, t, K) == Keyed(a, col, t, K) + Keyed(b, col, t, K)
    decreases |b|
  {
    if b == [] {
      assert a + b == a;
    } else {
      assert (a + b)[..|a + b| - 1] == a + b[..|b| - 1];
      KeyedAppends(a, b[..|b| - 1], col, t, K);
    }
  }

  lemma {:induction false} KeyedRepeat(r: Row, n: nat, col: string, t: string, K: Keys)
    ensures Keyed(Repeat(r, n), col, t, K) == if K.Text(Get(r, col)) == t then Repeat(r, n) else []
  {
    if n > 0 {
      KeyedRepeat(r, n - 1, col, t, K);
      assert Repeat(r, n)[..n - 1] == Repeat(r, n - 1) && Repeat(r, n) == Repeat(r, n - 1) + [r];
    }
  }

  /** How many live copies of a row the table has. */
  function LiveCopies(source: seq<Stored>, soft: bool, r: Row): nat {
    if source == [] then 0
    else
      var s := source[|source| - 1];
      LiveCopies(source[..|source| - 1], soft, r) + if Live(s, soft) && s.row == r then 1 else 0
  }

  lemma {:induction false} LiveIsCounted(source: seq<Stored>, soft: bool, i: nat)
    requires i < |source| && Live(source[i], soft)
    ensures LiveCopies(source, soft, source[i].row) > 0
    decreases |source|
  {
    hide Live;
    if i < |source| - 1 { LiveIsCounted(source[..|source| - 1], soft, i); }
  }

  lemma {:induction false} RepeatCount(r: Row, n: nat, x: Row)
    ensures multiset(Repeat(r, n))[x] == if x == r then n else 0
  {
    if n > 0 {
      RepeatCount(r, n - 1, x);
      assert Repeat(r, n) == Repeat(r, n - 1) + [r];
    }
  }

  lemma MoreCopies(n: nat, c: nat)
    ensures n * (c + 1) == n * c + n
  {
  }

  /** How often a row stands in the group of a key, and in the key's lookup. */
  lemma {:induction false} CountsPerRow(source: seq<Stored>, soft: bool, col: string, keys: seq<Value>, key: Value,
                                        K: Keys, r: Row)
    ensures var v, c := Get(r, col), LiveCopies(source, soft, r);
      && multiset(Keyed(Fetched(source, soft, col, keys, K), col, K.Text(key), K))[r]
         == (if K.Text(v) == K.Text(key) then Times(v, keys, K) else 0) * c
      && multiset(Matching(source, soft, col, [key], K))[r] == (if K.SqlEq(v, key) then 1 else 0) * c
    decreases |source|
  {
    hide Times, Live, Get, Keys.Text, Keys.SqlEq, Repeat, Fetched, Matching, Keyed;
    if source == [] {
      FromNothing(soft, col, keys, K);
      FromNothing(soft, col, [key], K);
      KeyedNothing(col, K.Text(key), K);
    } else {
      var init, s := source[..|source| - 1], source[|source| - 1];
      CountsPerRow(init, soft, col, keys, key, K, r);
      KeyedOneMore(source, soft, col, keys, key, K, r);
      OneMoreStored(source, soft, col, [key], K);
      OneKey(Get(s.row, col), key, K);
      MoreCopies(if K.Text(Get(r, col)) == K.Text(key) then Times(Get(r, col), keys, K)
          else 0, LiveCopies(init, soft, r));
    }
  }

  lemma KeyedOneMore(source: seq<Stored>, soft: bool, col: string, keys: seq<Value>, key: Value, K: Keys, r: Row)
    requires source != []
    ensures var init, s := source[..|source| - 1], source[|source| - 1];
      multiset(Keyed(Fetched(source, soft, col, keys, K), col, K.Text(key), K))[r]
      == multiset(Keyed(Fetched(init, soft, col, keys, K), col, K.Text(key), K))[r]
         + if Live(s, soft) && s.row == r && K.Text(Get(r, col)) == K.Text(key) then Times(Get(r, col), keys, K) else 0
  {
    hide Times, Live, Get, Keys.Text, Repeat, Keyed;
    var init, s := source[..|source| - 1], source[|source| - 1];
    var n := Times(Get(s.row, col), keys, K);
    var last := if Live(s, soft) then Repeat(s.row, n) else [];
    KeyedAppends(Fetched(init, soft, col, keys, K), last, col, K.Text(key), K);
    KeyedRepeat(s.row, n, col, K.Text(key), K);
    KeyedNothing(col, K.Text(key), K);
    RepeatCount(s.row, n, r);
  }

  lemma KeyedNothing(col: string, t: string, K: Keys)
    ensures Keyed([], col, t, K) == []
  {
  }

  lemma OneKey(v: Value, key: Value, K: Keys)
    ensures KeyIn(v, [key], K) <==> K.SqlEq(v, key)
  {
    if K.SqlEq(v, key) { assert K.SqlEq(v, [key][0]); }
  }

  /** Of one key: its group holds the rows of its lookup if and only if every live row is served. */
  lemma ExactForKey(source: seq<Stored>, soft: bool, col: string, keys: seq<Value>, key: Value, K: Keys)
    ensures multiset(Keyed(Fetched(source, soft, col, keys, K), col, K.Text(key), K))
        == multiset(Matching(source, soft, col, [key], K))
      <==> AllServed(source, soft, col, keys, key, K)
  {
    hide Times, Live, Get, Keys.Text, Keys.SqlEq, Fetched, Matching, Keyed, LiveCopies;
    var group := multiset(Keyed(Fetched(source, soft, col, keys, K), col, K.Text(key), K));
    var lookup := multiset(Matching(source, soft, col, [key], K));
    forall r: Row ensures AllServed(source, soft, col, keys, key, K) ==> group[r] == lookup[r] {
      CountsPerRow(source, soft, col, keys, key, K, r);
      if LiveCopies(source, soft, r) > 0 {
        var i := LiveAt(source, soft, r);
      }
    }
    if group == lookup {
      forall i | 0 <= i < |source| && Live(source[i], soft) ensures Served(Get(source[i].row, col), keys, key, K) {
        CountsPerRow(source, soft, col, keys, key, K, source[i].row);
        LiveIsCounted(source, soft, i);
        SameFactor(if K.Text(Get(source[i].row, col)) == K.Text(key) then Times(Get(source[i].row, col), keys, K)
            else 0,
                   if K.SqlEq(Get(source[i].row, col), key) then 1 else 0, LiveCopies(source, soft, source[i].row));
      }
    }
  }

  lemma {:induction false} LiveAt(source: seq<Stored>, soft: bool, r: Row) returns (i: nat)
    requires LiveCopies(source, soft, r) > 0
    ensures i < |source| && Live(source[i], soft) && source[i].row == r
    decreases |source|
  {
    hide Live;
    i := |source| - 1;
    if !(Live(source[i], soft) && source[i].row == r) {
      i := LiveAt(source[..|source| - 1], soft, r);
    }
  }

  lemma SameFactor(a: nat, b: nat, c: nat)
    requires c > 0 && a * c == b * c
    ensures a == b
  {
  }

  /** For all rows at once, before the hook: every row with a key gets exactly the rows of its own
      lookup if and only if texts decide, that is keyString agrees with the database on the keys
      and rows at hand. */
  lemma GroupsAreLookups(source: seq<Stored>, soft: bool, col: string, keys: seq<Value>, rows: seq<Row>,
                                            own: string, K: Keys)
    requires CoversKeys(keys, rows, own, K)
    ensures (forall k :: 0 <= k < |rows| && !Get(rows[k], own).Null? ==>
        multiset(Keyed(Fetched(source, soft, col, keys, K), col, K.Text(Get(rows[k], own)), K))
        == multiset(Matching(source, soft, col, [Get(rows[k], own)], K)))
      <==> TextsDecide(source, soft, col, OwnKeys(rows, own), K)
  {
    hide Keyed, Fetched, Matching, Live, Get, Keys.Text, CoversKeys, Served, TextDecides;
    var all := OwnKeys(rows, own);
    forall i | 0 <= i < |source|
      ensures TextDecides(Get(source[i].row, col), all, K) <==> ServedAlways(Get(source[i].row, col), keys, all, K)
    {
      DecidedIsServed(Get(source[i].row, col), keys, rows, own, K);
    }
    forall k | 0 <= k < |rows|
      ensures multiset(Keyed(Fetched(source, soft, col, keys, K), col, K.Text(Get(rows[k], own)), K))
           == multiset(Matching(source, soft, col, [Get(rows[k], own)], K))
         <==> AllServed(source, soft, col, keys, all[k], K)
    {
      ExactForKey(source, soft, col, keys, Get(rows[k], own), K);
    }
  }

  /** An input outside it: under a case-insensitive collation the database finds "a" for the key
      "A", but the row with the key "A" gets nothing. */
  lemma CaseMisses(hook: Row -> Row)
    ensures var upper, lower := Scalar(0), Scalar(1);
      var K := Keys(v => if v == upper then "A" else "a", (v, w) => true);
      var source := [Stored(map["ref" := lower], Null)];
      && Lookup(source, false, "ref", upper, K, hook) != []
      && Group(Fetched(source, false, "ref", [upper], K), "ref", K.Text(upper), K, hook) == []
  {
    var upper, lower := Scalar(0), Scalar(1);
    var K := Keys(v => if v == upper then "A" else "a", (v, w) => true);
    var s := Stored(map["ref" := lower], Null);
    var source := [s];
    assert source[..0] == [];
    assert Lookup([], false, "ref", upper, K, hook) == [];
    assert K.SqlEq(Get(s.row, "ref"), upper);
    assert Fetched([], false, "ref", [upper], K) == [];
    GroupOfRepeat(s.row, Times(lower, [upper], K), "ref", "A", K, hook);
    assert [] + Repeat(s.row, Times(lower, [upper], K)) == Repeat(s.row, Times(lower, [upper], K));
  }

  lemma EmptyFetchedSame(source: seq<Stored>, soft: bool, col: string, keys: seq<Value>, rows: seq<Row>,
                                            own: string, K: Keys)
    requires CoversKeys(keys, rows, own, K) && TextsDecide(source, soft, col, OwnKeys(rows, own), K)
    ensures EmptyKeyFetched(source, soft, col, keys, K) <==> EmptyKeyFetched(source, soft, col, OwnKeys(rows, own), K)
  {
    hide KeyIn, CoversKeys, Get, Live, OwnKeys, TextDecides;
    forall i | 0 <= i < |source|
      ensures FetchedUnderEmpty(source[i], soft, col, keys, K)
          <==> FetchedUnderEmpty(source[i], soft, col, OwnKeys(rows, own), K)
    {
      var v := Get(source[i].row, col);
      if Live(source[i], soft) {
        if KeyIn(v, keys, K) { DistinctFindOwn(v, keys, rows, own, K); }
        if KeyIn(v, OwnKeys(rows, own), K) { OwnFindDistinct(v, keys, rows, own, K); }
      }
    }
  }

  lemma DecidedServesKey(source: seq<Stored>, soft: bool, col: string, keys: seq<Value>, rows: seq<Row>,
                                            i: nat, own: string, K: Keys)
    requires CoversKeys(keys, rows, own, K) && TextsDecide(source, soft, col, OwnKeys(rows, own), K)
    requires i < |rows| && !Get(rows[i], own).Null?
    ensures AllServed(source, soft, col, keys, Get(rows[i], own), K)
  {
    hide CoversKeys, Get, Live, TextDecides, Served;
    var all := OwnKeys(rows, own);
    forall j | 0 <= j < |source| && Live(source[j], soft)
        ensures Served(Get(source[j].row, col), keys, Get(rows[i], own), K) {
      DecidedIsServed(Get(source[j].row, col), keys, rows, own, K);
      assert all[i] == Get(rows[i], own);
    }
  }

  /** The row got the relation's value and nothing else changed; the value is the naive lookup's,
      unless the row has no key and related rows with an empty key were fetched for another row. */
  ghost predicate RowIncluded(before: Row, after: Row, rel: Relation, source: seq<Stored>, soft: bool, col: string,
                              own: string, keys: seq<Value>, K: Keys, hook: Row -> Row) {
    && after == before[rel.name := Get(after, rel.name)]
    && (Attached(rel.kind, Get(after, rel.name), Lookup(source, soft, col, Get(before, own), K, hook))
        <==> !(Get(before, own).Null? && EmptyKeyFetched(source, soft, col, keys, K)))
  }

  lemma AttachIncludes(before: seq<Row>, i: nat, after: Row, rel: Relation, source: seq<Stored>, soft: bool,
                       col: string, own: string, keys: seq<Value>, related: seq<Row>, K: Keys, hook: Row -> Row)
    requires CoversKeys(keys, before, own, K) && TextsDecide(source, soft, col, OwnKeys(before, own), K) && i < |before|
    requires multiset(related) == multiset(Fetched(source, soft, col, keys, K))
    requires after == before[i][rel.name := Attach(rel.kind, Group(related, col, K.Text(Get(before[i], own)), K, hook))]
    ensures RowIncluded(before[i], after, rel, source, soft, col, own, OwnKeys(before, own), K, hook)
  {
    hide Attached, Attach, Lookup, Group, Fetched, EmptyKeyFetched, OwnKeys, Keys.Text, CoversKeys, TextsDecide,
        AllServed;
    EmptyFetchedSame(source, soft, col, keys, before, own, K);
    if !Get(before[i], own).Null? { DecidedServesKey(source, soft, col, keys, before, i, own, K); }
    OneRow(source, soft, col, keys, Get(before[i], own), related,
        Group(related, col, K.Text(Get(before[i], own)), K, hook), rel.kind, K, hook);
    assert Get(after, rel.name) == Attach(rel.kind, Group(related, col, K.Text(Get(before[i], own)), K, hook));
  }

  /** The loops that attach the groups to the rows, in place. */
  method AttachAll(rows: array<Row>, rel: Relation, groups: map<string, seq<Row>>, own: string, K: Keys)
    modifies rows
    ensures forall i :: 0 <= i < rows.Length ==>
      rows[i] == old(rows[i])[rel.name := Attach(rel.kind, Listed(groups, K.Text(Get(old(rows[i]), own))))]
  {
    hide Get, Listed, Attach;
    for k := 0 to rows.Length
      invariant forall i :: 0 <= i < k ==>
        rows[i] == old(rows[i])[rel.name := Attach(rel.kind, Listed(groups, K.Text(Get(old(rows[i]), own))))]
      invariant forall i :: k <= i < rows.Length ==> rows[i] == old(rows[i])
    {
      var list := Listed(groups, K.Text(Get(rows[k], own)));
      rows[k] := rows[k][rel.name := Attach(rel.kind, list)];
    }
  }

  // ---- what each kind attaches ----

  /** A related row that is not deleted, and whose column equals the key. */
  predicate RelatedTo(s: Stored, soft: bool, col: string, key: Value, K: Keys) {
    && (soft ==> s.deletedAt == Null)
    && key != Null && Get(s.row, col) != Null && K.same(Get(s.row, col), key)
  }

  /** One of the related rows, or null if there is none. */
  ghost predicate OneOf(v: Value, source: seq<Stored>, soft: bool, col: string, key: Value, K: Keys, hook: Row -> Row) {
    if exists i :: 0 <= i < |source| && RelatedTo(source[i], soft, col, key, K) then
      v.Object? && exists i ::
        0 <= i < |source| && RelatedTo(source[i], soft, col, key, K) &&
            v.row == hook(source[i].row - {"__yaypi_parent"})
    else v == Null
  }

  /** ks are the numbers of the related rows, in order. */
  ghost predicate PicksRelated(source: seq<Stored>, ks: seq<nat>, soft: bool, col: string, key: Value, K: Keys) {
    && (forall i, j :: 0 <= i < j < |ks| ==> ks[i] < ks[j])
    && (forall i :: 0 <= i < |ks| ==> ks[i] < |source| && RelatedTo(source[ks[i]], soft, col, key, K))
    && (forall k: nat :: k < |source| && RelatedTo(source[k], soft, col, key, K) ==> k in ks)
  }

  function Attachments(source: seq<Stored>, ks: seq<nat>, hook: Row -> Row): seq<Row>
    requires forall i :: 0 <= i < |ks| ==> ks[i] < |source|
  {
    seq(|ks|, i requires 0 <= i < |ks| => hook(source[ks[i]].row - {"__yaypi_parent"}))
  }

  /** Every related row once, in whatever order the database returned them. */
  ghost predicate AllOf(v: Value, source: seq<Stored>, soft: bool, col: string, key: Value, K: Keys, hook: Row -> Row) {
    v.List? && exists ks ::
      PicksRelated(source, ks, soft, col, key, K) && multiset(v.rows) == multiset(Attachments(source, ks, hook))
  }

  lemma {:induction false} RelatedPicked(source: seq<Stored>, soft: bool, col: string, key: Value, K: Keys,
                                         hook: Row -> Row)
    returns (ks: seq<nat>)
    ensures PicksRelated(source, ks, soft, col, key, K)
    ensures Lookup(source, soft, col, key, K, hook) == Attachments(source, ks, hook)
    decreases |source|
  {
    hide RelatedTo, Clean, Lookup, Live, Get;
    LookupSteps(source, soft, col, key, K, hook);
    ks := [];
    if source != [] {
      var n := |source| - 1;
      var js := RelatedPicked(source[..n], soft, col, key, K, hook);
      ks := if RelatedTo(source[n], soft, col, key, K) then js + [n] else js;
      PicksOneMore(source, js, soft, col, key, K);
      assert Attachments(source, js, hook) == Attachments(source[..n], js, hook);
      if RelatedTo(source[n], soft, col, key, K) {
        assert Attachments(source, ks, hook)
            == Attachments(source, js, hook) + [hook(source[n].row - {"__yaypi_parent"})];
      }
    }
  }

  lemma LookupSteps(source: seq<Stored>, soft: bool, col: string, key: Value, K: Keys, hook: Row -> Row)
    ensures source == [] ==> Lookup(source, soft, col, key, K, hook) == []
    ensures source != [] ==>
      var s := source[|source| - 1];
      Lookup(source, soft, col, key, K, hook) == Lookup(source[..|source| - 1], soft, col, key, K, hook)
        + if RelatedTo(s, soft, col, key, K) then [hook(s.row - {"__yaypi_parent"})] else []
  {
  }

  lemma PicksOneMore(source: seq<Stored>, js: seq<nat>, soft: bool, col: string, key: Value, K: Keys)
    requires source != [] && PicksRelated(source[..|source| - 1], js, soft, col, key, K)
    ensures var n := |source| - 1;
      PicksRelated(source, if RelatedTo(source[n], soft, col, key, K) then js + [n] else js, soft, col, key, K)
  {
    hide RelatedTo, PicksRelated;
    var n := |source| - 1;
    var ks := if RelatedTo(source[n], soft, col, key, K) then js + [n] else js;
    forall i | 0 <= i < |js| ensures js[i] < n && RelatedTo(source[js[i]], soft, col, key, K) {
      PickedIsRelated(source[..n], js, soft, col, key, K, i);
    }
    assert forall i, j :: 0 <= i < j < |ks| ==> ks[i] < ks[j] by {
      forall i, j | 0 <= i < j < |js| ensures js[i] < js[j] { PicksAscend(source[..n], js, soft, col, key, K, i, j); }
    }
    forall k: nat | k < |source| && RelatedTo(source[k], soft, col, key, K) ensures k in ks {
      if k < n {
        RelatedIsPicked(source[..n], js, soft, col, key, K, k);
      } else {
        assert ks[|js|] == n;
      }
    }
    MakePicks(source, ks, soft, col, key, K);
  }

  lemma PickedIsRelated(source: seq<Stored>, ks: seq<nat>, soft: bool, col: string, key: Value, K: Keys, i: nat)
    requires PicksRelated(source, ks, soft, col, key, K) && i < |ks|
    ensures ks[i] < |source| && RelatedTo(source[ks[i]], soft, col, key, K)
  {
    hide RelatedTo;
  }

  lemma PicksAscend(source: seq<Stored>, ks: seq<nat>, soft: bool, col: string, key: Value, K: Keys, i: nat, j: nat)
    requires PicksRelated(source, ks, soft, col, key, K) && i < j < |ks|
    ensures ks[i] < ks[j]
  {
    hide RelatedTo;
  }

  lemma RelatedIsPicked(source: seq<Stored>, ks: seq<nat>, soft: bool, col: string, key: Value, K: Keys, k: nat)
    requires PicksRelated(source, ks, soft, col, key, K) && k < |source| && RelatedTo(source[k], soft, col, key, K)
    ensures k in ks
  {
    hide RelatedTo;
  }

  lemma MakePicks(source: seq<Stored>, ks: seq<nat>, soft: bool, col: string, key: Value, K: Keys)
    requires forall i, j :: 0 <= i < j < |ks| ==> ks[i] < ks[j]
    requires forall i :: 0 <= i < |ks| ==> ks[i] < |source| && RelatedTo(source[ks[i]], soft, col, key, K)
    requires forall k: nat :: k < |source| && RelatedTo(source[k], soft, col, key, K) ==> k in ks
    ensures PicksRelated(source, ks, soft, col, key, K)
  {
    hide RelatedTo;
  }

  lemma PickedIsAll(v: Value, source: seq<Stored>, soft: bool, col: string, key: Value, K: Keys, hook: Row -> Row,
                    kind: Kind)
    requires Attached(kind, v, Lookup(source, soft, col, key, K, hook))
    ensures kind.HasMany? || kind.ManyToMany? ==> AllOf(v, source, soft, col, key, K, hook)
    ensures !(kind.HasMany? || kind.ManyToMany?) ==> OneOf(v, source, soft, col, key, K, hook)
  {
    hide RelatedTo, Lookup, Get;
    var ks := RelatedPicked(source, soft, col, key, K, hook);
    var found := Attachments(source, ks, hook);
    if !(kind.HasMany? || kind.ManyToMany?) {
      if found != [] {
        assert RelatedTo(source[ks[0]], soft, col, key, K);
        var i :| 0 <= i < |found| && found[i] == v.row;
        assert RelatedTo(source[ks[i]], soft, col, key, K);
      } else {
        assert forall k: nat :: k < |source| ==> !RelatedTo(source[k], soft, col, key, K);
      }
    }
  }

  /** What is attached to row i, for each kind of relation. A row without a key gets nothing, unless
      related rows with an empty key were fetched for another row. */
  ghost predicate Included(before: seq<Row>, i: nat, v: Value, rel: Relation, own: Entity, target: Entity,
                           links: seq<Stored>, K: Keys, hook: Row -> Row)
    requires i < |before|
  {
    var key := Get(before[i], if rel.kind.BelongsTo? then rel.foreignKey else own.pk);
    match rel.kind
    case BelongsTo =>
      TextsDecide(target.rows, target.softDelete, target.pk, OwnKeys(before, rel.foreignKey), K) ==>
        if key != Null then OneOf(v, target.rows, target.softDelete, target.pk, key, K, hook)
        else v == Null <==> !EmptyKeyFetched(target.rows, target.softDelete, target.pk,
            OwnKeys(before, rel.foreignKey), K)
    case HasOne =>
      TextsDecide(target.rows, target.softDelete, rel.foreignKey, OwnKeys(before, own.pk), K) ==>
        if key != Null then OneOf(v, target.rows, target.softDelete, rel.foreignKey, key, K, hook)
        else v == Null <==> !EmptyKeyFetched(target.rows, target.softDelete, rel.foreignKey, OwnKeys(before, own.pk), K)
    case HasMany =>
      TextsDecide(target.rows, target.softDelete, rel.foreignKey, OwnKeys(before, own.pk), K) ==>
        if key != Null then AllOf(v, target.rows, target.softDelete, rel.foreignKey, key, K, hook)
        else v == List([]) <==> !EmptyKeyFetched(target.rows, target.softDelete, rel.foreignKey,
            OwnKeys(before, own.pk), K)
    case ManyToMany =>
      var joined := Join(target.rows, links, target.pk, rel.foreignKey, rel.otherKey, K);
      TextsDecide(joined, target.softDelete, "__yaypi_parent", OwnKeys(before, own.pk), K) ==>
        if key != Null then
          v.List? && multiset(v.rows)
            == multiset(Linked(target.rows, links, target.softDelete, target.pk, rel.foreignKey, rel.otherKey, key, K,
                hook))
        else v == List([]) <==> !EmptyKeyFetched(joined, target.softDelete, "__yaypi_parent", OwnKeys(before, own.pk),
            K)
    case Other => true
  }

  lemma IncludedByKind(before: seq<Row>, i: nat, after: Row, rel: Relation, own: Entity, registry: map<string, Entity>,
                       K: Keys, hook: Row -> Row)
    requires i < |before| && rel.entity in registry && (rel.kind.ManyToMany? ==> rel.through in registry)
    requires var (source, col, ownCol) := Source(rel, own, registry, K);
      TextsDecide(source, registry[rel.entity].softDelete, col, OwnKeys(before, ownCol), K) ==>
        RowIncluded(before[i], after, rel, source, registry[rel.entity].softDelete, col, ownCol,
            OwnKeys(before, ownCol), K, hook)
    ensures Included(before, i, Get(after, rel.name), rel, own, registry[rel.entity],
                     if rel.kind.ManyToMany? then registry[rel.through].rows else [], K, hook)
  {
    hide Get, Lookup, OneOf, AllOf, EmptyKeyFetched, TextsDecide, Linked, Join;
    var (source, col, ownCol) := Source(rel, own, registry, K);
    var soft, v, key := registry[rel.entity].softDelete, Get(after, rel.name), Get(before[i], ownCol);
    if TextsDecide(source, soft, col, OwnKeys(before, ownCol), K) {
      if key == Null {
        NullFindsNothing(source, soft, col, K, hook);
        EmptyList(v);
      } else {
        PickedIsAll(v, source, soft, col, key, K, hook, rel.kind);
        if rel.kind.ManyToMany? {
          JoinLookup(registry[rel.entity].rows, registry[rel.through].rows, soft, registry[rel.entity].pk,
              rel.foreignKey,
                     rel.otherKey, key, K, hook);
        }
      }
    }
  }

  lemma EmptyList(v: Value)
    ensures v.List? && multiset(v.rows) == multiset([]) ==> v == List([])
  {
    if v.List? && multiset(v.rows) == multiset([]) { EmptyMultiset(v.rows); }
  }

  /** Include: refuses in the order of its checks, leaves the rows alone unless it is done, and then
      changes nothing but the relation's own field. */
  method Include(rows: array<Row>, rel: Relation, own: Entity, registry: map<string, Entity>, K: Keys, hook: Row -> Row)
    returns (out: Outcome)
    modifies rows
    ensures rows.Length == 0 ==> out == Done
    ensures out == UnknownEntity <==> rows.Length > 0 && rel.entity !in registry
    ensures out == CrossDatabase <==>
      rows.Length > 0 && rel.entity in registry && registry[rel.entity].database != own.database
    ensures out == UnknownThrough <==>
      && rows.Length > 0 && rel.entity in registry && registry[rel.entity].database == own.database
      && rel.kind == ManyToMany && rel.through !in registry
    ensures out == Unsupported <==>
      && rows.Length > 0 && rel.entity in registry && registry[rel.entity].database == own.database && rel.kind == Other
    ensures out != Done ==> rows[..] == old(rows[..])
    ensures out == Done ==> forall i :: 0 <= i < rows.Length ==>
      && rows[i] == old(rows[i])[rel.name := Get(rows[i], rel.name)]
      && Included(old(rows[..]), i, Get(rows[i], rel.name), rel, own, registry[rel.entity],
                  if rel.kind.ManyToMany? then registry[rel.through].rows else [], K, hook)
  {
    hide Attach, Listed, Group, CoversKeys, RowIncluded, OwnKeys, Keys.Text, Fetched, Get, Source, TextsDecide,
        Included;
    if rows.Length == 0 {
      return Done;
    }
    if rel.entity !in registry {
      return UnknownEntity;
    }
    if registry[rel.entity].database != own.database {
      return CrossDatabase;
    }
    if rel.kind.ManyToMany? && rel.through !in registry {
      return UnknownThrough;
    }
    if rel.kind.Other? {
      return Unsupported;
    }
    var (source, col, ownCol) := Source(rel, own, registry, K);
    var soft := registry[rel.entity].softDelete;
    ghost var before := rows[..];
    var keys := DistinctKeys(rows[..], ownCol, K);
    var ok, related := FetchIn(source, soft, col, keys, K);
    if !ok {
      return QueryFailed;
    }
    var groups := IndexBy(related, col, K, hook);
    AttachAll(rows, rel, groups, ownCol, K);
    out := Done;
    forall i | 0 <= i < rows.Length
      ensures rows[i] == before[i][rel.name := Get(rows[i], rel.name)]
      ensures Included(before, i, Get(rows[i], rel.name), rel, own, registry[rel.entity],
                       if rel.kind.ManyToMany? then registry[rel.through].rows else [], K, hook)
    {
      GetAttached(before[i], rel.name, Attach(rel.kind, Listed(groups, K.Text(Get(before[i], ownCol)))));
      if TextsDecide(source, soft, col, OwnKeys(before, ownCol), K) {
        AttachIncludes(before, i, rows[i], rel, source, soft, col, ownCol, keys, related, K, hook);
      }
      IncludedByKind(before, i, rows[i], rel, own, registry, K, hook);
    }
  }

  lemma GetAttached(r: Row, name: string, v: Value)
    ensures Get(r[name := v], name) == v
  {
  }

  // ---- what a many-to-many lookup returns ----

  /** One copy of a live related row for each link from the key to it. */
  function Copies(o: Stored, links: seq<Stored>, soft: bool, pk: string, fk: string, other: string, key: Value,
                  K: Keys, hook: Row -> Row): seq<Row> {
    if links == [] then []
    else
      var j := links[|links| - 1].row;
      Copies(o, links[..|links| - 1], soft, pk, fk, other, key, K, hook)
      + (if Live(o, soft) && K.SqlEq(Get(j, fk), key) && K.SqlEq(Get(j, other), Get(o.row, pk))
          then [Clean(o.row, hook)] else [])
  }

  function Linked(targets: seq<Stored>, links: seq<Stored>, soft: bool, pk: string, fk: string, other: string,
                  key: Value, K: Keys, hook: Row -> Row): seq<Row> {
    if targets == [] then []
    else
      Linked(targets[..|targets| - 1], links, soft, pk, fk, other, key, K, hook)
      + Copies(targets[|targets| - 1], links, soft, pk, fk, other, key, K, hook)
  }

  lemma {:induction false} LookupAppends(a: seq<Stored>, b: seq<Stored>, soft: bool, col: string, key: Value, K: Keys,
                                         hook: Row -> Row)
    ensures Lookup(a + b, soft, col, key, K, hook)
        == Lookup(a, soft, col, key, K, hook) + Lookup(b, soft, col, key, K, hook)
    decreases |b|
  {
    hide Clean, Live, Get, Keys.SqlEq;
    if b == [] {
      assert a + b == a;
    } else {
      assert (a + b)[..|a + b| - 1] == a + b[..|b| - 1];
      LookupAppends(a, b[..|b| - 1], soft, col, key, K, hook);
    }
  }

  lemma {:induction false} JoinWithLookup(o: Stored, links: seq<Stored>, soft: bool, pk: string, fk: string,
                                          other: string, key: Value, K: Keys, hook: Row -> Row)
    ensures Lookup(JoinWith(o, links, pk, fk, other, K), soft, PARENT_KEY, key, K, hook)
        == Copies(o, links, soft, pk, fk, other, key, K, hook)
    decreases |links|
  {
    hide Live, Keys.SqlEq, Clean;
    if links != [] {
      var init, j := links[..|links| - 1], links[|links| - 1].row;
      JoinWithLookup(o, init, soft, pk, fk, other, key, K, hook);
      var joined := Stored(o.row[PARENT_KEY := Get(j, fk)], o.deletedAt);
      var last := if K.SqlEq(Get(j, other), Get(o.row, pk)) then [joined] else [];
      LookupAppends(JoinWith(o, init, pk, fk, other, K), last, soft, PARENT_KEY, key, K, hook);
      LookupOne(joined, soft, key, K, hook);
      CleanJoined(o.row, Get(j, fk), hook);
      LiveJoined(o, joined, soft);
    }
  }

  lemma LiveJoined(o: Stored, joined: Stored, soft: bool)
    requires joined.deletedAt == o.deletedAt
    ensures Live(joined, soft) == Live(o, soft)
  {
  }

  lemma CleanJoined(r: Row, v: Value, hook: Row -> Row)
    ensures Clean(r[PARENT_KEY := v], hook) == Clean(r, hook)
  {
    assert r[PARENT_KEY := v] - {PARENT_KEY} == r - {PARENT_KEY};
  }

  lemma LookupOne(s: Stored, soft: bool, key: Value, K: Keys, hook: Row -> Row)
    ensures Lookup([], soft, PARENT_KEY, key, K, hook) == []
    ensures Lookup([s], soft, PARENT_KEY, key, K, hook)
         == if Live(s, soft) && K.SqlEq(Get(s.row, PARENT_KEY), key) then [Clean(s.row, hook)] else []
  {
    assert [s][..0] == [];
  }

  /** A many-to-many lookup returns every live related row once per link from the key to it. */
  lemma {:induction false} JoinLookup(targets: seq<Stored>, links: seq<Stored>, soft: bool, pk: string, fk: string,
                                      other: string, key: Value, K: Keys, hook: Row -> Row)
    ensures Lookup(Join(targets, links, pk, fk, other, K), soft, PARENT_KEY, key, K, hook)
         == Linked(targets, links, soft, pk, fk, other, key, K, hook)
    decreases |targets|
  {
    hide Lookup, JoinWith, Copies;
    if targets == [] {
      LookupOne(Stored(map[], Null), soft, key, K, hook);
    } else {
      var init, o := targets[..|targets| - 1], targets[|targets| - 1];
      JoinLookup(init, links, soft, pk, fk, other, key, K, hook);
      JoinWithLookup(o, links, soft, pk, fk, other, key, K, hook);
      LookupAppends(Join(init, links, pk, fk, other, K), JoinWith(o, links, pk, fk, other, K), soft, PARENT_KEY, key,
          K, hook);
    }
  }
}
