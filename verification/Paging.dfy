/** Pages of a listing (internal/handler/read.go, internal/handler/list.go,
    internal/query/builder.go): each page asks for one row more than it shows, and the
    cursor of its last row selects the next page. */
module Paging {
  import opened SqlLogic
  import opened Keyset
  import opened CursorCodec

  /** Everything a sequence of page requests keeps fixed. The remaining WHERE conditions
      (filters, search, soft delete, row access, tenant) are one function of the row;
      prior holds the arguments they appended. */
  datatype Listing = Listing(
    entity: Entity,
    sort: Sort,
    coll: Collation,
    nulls: NullPlacement,
    filter: Row -> Truth,
    prior: seq<Value>,
    lib: Library,
    secret: string)
  {
    predicate Before(a: Row, b: Row) {
      Keyset.Before(coll, entity, sort, PositionOf(entity, sort, a), PositionOf(entity, sort, b))
    }

    predicate Visible(row: Row) { filter(row) == Yes }
  }

  /** A table the listing can page through: stored rows, told apart by their primary key,
      whose cursors the database places where the rows are. */
  ghost predicate Pageable(l: Listing, rows: seq<Row>) {
    && (forall r <- rows :: PageableRow(l, r))
    && (forall i, j :: 0 <= i < j < |rows| ==> KeyRank(l, rows[i]) != KeyRank(l, rows[j]))
  }

  predicate PageableRow(l: Listing, r: Row) {
    && l.entity.Stored(r, l.sort.column)
    && SamePlace(l.coll, l.entity, l.sort, Brought(l, r), PositionOf(l.entity, l.sort, r))
  }

  function CursorOf(l: Listing, r: Row): Token {
    EncodeCursor(l.lib, NewCursor(l.lib, l.entity, l.sort, r), l.secret)
  }

  /** The place the next request reads out of a row's cursor. */
  function Brought(l: Listing, r: Row): Position {
    match DecodeCursor(l.lib, CursorOf(l, r), l.secret)
    case Ok(c) => Position(c.value, c.id)
    case Err(_) => Position(Null, Null)
  }

  /** A cursor always decodes; NULL comes back as NULL, and nothing else does. */
  lemma CursorDecodes(l: Listing, r: Row)
    ensures var d := DecodeCursor(l.lib, CursorOf(l, r), l.secret); var p := PositionOf(l.entity, l.sort, r);
            && d == Ok(Cursor(l.sort.column, l.sort.desc, Brought(l, r).value, Brought(l, r).id))
            && (d.value.value == Null <==> p.value == Null) && (d.value.id == Null <==> p.id == Null)
  {
  }

  /** The cursor of r selects exactly the stored rows after r. */
  ghost predicate CursorContinues(l: Listing, r: Row) {
    var c := Cursor(l.sort.column, l.sort.desc, Brought(l, r).value, Brought(l, r).id);
    forall row: Row :: l.entity.Stored(row, l.sort.column) ==>
      (AfterCursor(l, c, row) <==> l.Before(r, row))
  }

  predicate AfterCursor(l: Listing, c: Cursor, row: Row) {
    Eval(l.coll, KeysetCond(l.entity, l.sort, c, |l.prior|), row, l.prior + KeysetArgs(l.entity, l.sort, c)) == Yes
  }

  /** For every stored row: its cursor continues the listing exactly behind it if and only if the
      database places the decoded cursor where the row is. */
  lemma ContinuesExactlyFromItsPlace(l: Listing, r: Row)
    requires l.entity.Stored(r, l.sort.column)
    ensures CursorContinues(l, r) <==> PageableRow(l, r)
  {
    hide EncodeCursor, DecodeCursor, NewCursor, KeysetCond, KeysetArgs, Eval;
    CursorDecodes(l, r);
    var e, s, d := l.entity, l.sort, Brought(l, r);
    var p, c := PositionOf(e, s, r), Cursor(s.column, s.desc, d.value, d.id);
    var there := RowAt(e, s, d);
    forall row: Row | e.Stored(row, s.column)
      ensures AfterCursor(l, c, row) <==> Keyset.Before(l.coll, e, s, d, PositionOf(e, s, row))
    {
      KeysetIsAfter(l.coll, e, s, c, row, l.prior);
    }
    if CursorContinues(l, r) {
      assert !l.Before(r, r) && !Keyset.Before(l.coll, e, s, d, p);
      assert PositionOf(e, s, there).id == d.id && e.Stored(there, s.column);
      assert !Keyset.Before(l.coll, e, s, p, d);
    }
  }

  function RowAt(e: Entity, s: Sort, p: Position): Row {
    var row: Row := map[s.column := p.value];
    row[e.PrimaryColumn() := p.id]
  }

  /** Values that survive the cursor unchanged are placed there under every collation; others,
      like floats, where the database ranks their text with them. */
  lemma SurvivorsArePageable(l: Listing, r: Row)
    requires l.entity.Stored(r, l.sort.column)
    requires ValueSurvives(l.lib, PositionOf(l.entity, l.sort, r).value) &&
        IdSurvives(PositionOf(l.entity, l.sort, r).id)
    ensures PageableRow(l, r)
  {
    CursorCarriesPosition(l.lib, l.entity, l.sort, r, l.secret);
  }

  function KeyRank(l: Listing, r: Row): real {
    l.coll(l.entity.PrimaryColumn(), Get(r, l.entity.PrimaryColumn()))
  }

  // ---- SELECT … WHERE … ORDER BY … LIMIT ----

  /** The WHERE clause: the other conditions AND the keyset condition. */
  predicate Selected(l: Listing, cursor: Option<Cursor>, row: Row) {
    match cursor
    case None => l.filter(row) == Yes
    case Some(c) =>
      And3(l.filter(row), Eval(l.coll, KeysetCond(l.entity, l.sort, c, |l.prior|), row,
                               l.prior + KeysetArgs(l.entity, l.sort, c))) == Yes
  }

  function Matching(l: Listing, cursor: Option<Cursor>, rows: seq<Row>): seq<Row> {
    if rows == [] then []
    else if Selected(l, cursor, rows[0]) then [rows[0]] + Matching(l, cursor, rows[1..])
    else Matching(l, cursor, rows[1..])
  }

  predicate Sooner(l: Listing, a: Row, b: Row) {
    OrderedBefore(l.coll, l.nulls, OrderBy(l.entity, l.sort), a, b)
  }

  function Insert(l: Listing, r: Row, sorted: seq<Row>): seq<Row> {
    if sorted == [] then [r]
    else if Sooner(l, r, sorted[0]) then [r] + sorted
    else [sorted[0]] + Insert(l, r, sorted[1..])
  }

  function SortRows(l: Listing, rows: seq<Row>): seq<Row> {
    if rows == [] then [] else Insert(l, rows[0], SortRows(l, rows[1..]))
  }

  function FirstRows(rows: seq<Row>, limit: nat): seq<Row> {
    if |rows| <= limit then rows else rows[..limit]
  }

  /** Builder.List; a limit that is not positive falls back to 20. */
  function ListRows(l: Listing, cursor: Option<Cursor>, limit: int, rows: seq<Row>): Result<seq<Row>> {
    if cursor.Some? && (cursor.value.sort != l.sort.column || cursor.value.desc != l.sort.desc)
    then Err("cursor does not match the requested sort")
    else Ok(FirstRows(SortRows(l, Matching(l, cursor, rows)), if limit <= 0 then 20 else limit))
  }

  /** A cursor of another column or direction is refused, and no other. */
  lemma OtherSortIsRefused(l: Listing, c: Cursor, limit: int, rows: seq<Row>)
    ensures ListRows(l, Some(c), limit, rows).Ok? <==> c.sort == l.sort.column && c.desc == l.sort.desc
    ensures ListRows(l, None, limit, rows).Ok?
  {
  }

  datatype Page = Page(rows: seq<Row>, next: Option<Token>)

  function DecodeOptional(l: Listing, token: Option<Token>): Result<Option<Cursor>> {
    match token
    case None => Ok(None)
    case Some(t) =>
      match DecodeCursor(l.lib, t, l.secret)
      case Ok(c) => Ok(Some(c))
      case Err(m) => Err(m)
  }

  /** One page: fetch limit + 1 rows; the extra one means there is a next page. */
  function PageOf(l: Listing, token: Option<Token>, limit: nat, rows: seq<Row>): Result<Page>
    requires limit >= 1
  {
    match DecodeOptional(l, token)
    case Err(m) => Err(m)
    case Ok(cursor) =>
      match ListRows(l, cursor, limit + 1, rows)
      case Err(m) => Err(m)
      case Ok(found) =>
        if |found| > limit then
          var shown := found[..limit];
          Ok(Page(shown, Some(CursorOf(l, shown[limit - 1]))))
        else Ok(Page(found, None))
  }

  const MAX_READ_ROWS := 1000

  /** Read's page size: default and cap 1000. */
  function ReadLimit(limit: int): (n: nat)
    ensures 1 <= n <= 1000 && (1 <= limit <= 1000 ==> n == limit) && (n != limit ==> n == 1000)
  {
    if limit <= 0 || limit > MAX_READ_ROWS then MAX_READ_ROWS else limit
  }

  // ---- the specification: visible rows after a position, in order ----

  ghost predicate Ascending(l: Listing, rows: seq<Row>) {
    forall i, j :: 0 <= i < j < |rows| ==> l.Before(rows[i], rows[j])
  }

  /** Visible rows strictly after the given row (all visible rows when there is none). */
  predicate Follows(l: Listing, last: Option<Row>, r: Row) {
    l.Visible(r) && (last.Some? ==> l.Before(last.value, r))
  }

  /** token continues after last: it is the cursor of that row. */
  ghost predicate Continues(l: Listing, token: Option<Token>, last: Option<Row>) {
    match last
    case None => token == None
    case Some(r) =>
      PageableRow(l, r) && token == Some(CursorOf(l, r))
  }

  lemma DecodedPosition(l: Listing, token: Option<Token>, last: Option<Row>)
    requires Continues(l, token, last)
    ensures var d := DecodeOptional(l, token);
            && d.Ok? && (d.value.None? <==> last.None?)
            && (last.Some? ==>
                  var c := d.value.value;
                  && c.sort == l.sort.column && c.desc == l.sort.desc && c.id != Null
                  && SamePlace(l.coll, l.entity, l.sort, Position(c.value, c.id),
                      PositionOf(l.entity, l.sort, last.value)))
  {
    if last.Some? {
      CursorDecodes(l, last.value);
    }
  }

  lemma SelectedIsFollows(l: Listing, token: Option<Token>, last: Option<Row>, r: Row)
    requires Continues(l, token, last) && PageableRow(l, r)
    ensures DecodeOptional(l, token).Ok? && (Selected(l, DecodeOptional(l, token).value, r) <==> Follows(l, last, r))
  {
    DecodedPosition(l, token, last);
    if last.Some? {
      var c := DecodeOptional(l, token).value.value;
      KeysetIsAfter(l.coll, l.entity, l.sort, c, r, l.prior);
    }
  }

  // ---- sorting ----

  lemma {:induction false} MatchingContents(l: Listing, cursor: Option<Cursor>, rows: seq<Row>)
    requires Pageable(l, rows)
    ensures var m := Matching(l, cursor, rows);
            Pageable(l, m) && (forall r :: r in m <==> r in rows && Selected(l, cursor, r))
  {
    if rows != [] {
      MatchingContents(l, cursor, rows[1..]);
      var m := Matching(l, cursor, rows[1..]);
      forall r | r in m ensures KeyRank(l, rows[0]) != KeyRank(l, r) {
        var j :| 0 <= j < |rows[1..]| && rows[1..][j] == r;
        assert rows[j + 1] == r;
      }
    }
  }

  lemma {:induction false} InsertSorted(l: Listing, r: Row, sorted: seq<Row>)
    requires PageableRow(l, r) && (forall x <- sorted :: PageableRow(l, x) && KeyRank(l, x) != KeyRank(l, r))
    requires Ascending(l, sorted)
    ensures Ascending(l, Insert(l, r, sorted))
    ensures forall x :: x in Insert(l, r, sorted) <==> x == r || x in sorted
  {
    if sorted != [] {
      assert sorted[0] in sorted;
      OrderByIsBefore(l.coll, l.nulls, l.entity, l.sort, r, sorted[0]);
      if l.Before(r, sorted[0]) {
        assert Ascending(l, [r] + sorted);
      } else {
        InsertSorted(l, r, sorted[1..]);
        assert l.Before(sorted[0], r);
        var rest := Insert(l, r, sorted[1..]);
        forall x | x in rest ensures l.Before(sorted[0], x) {
          if x != r {
            var j :| 0 <= j < |sorted[1..]| && sorted[1..][j] == x;
            assert sorted[j + 1] == x;
          }
        }
      }
    }
  }

  lemma {:induction false} SortRowsSorted(l: Listing, rows: seq<Row>)
    requires Pageable(l, rows)
    ensures Ascending(l, SortRows(l, rows))
    ensures forall x :: x in SortRows(l, rows) <==> x in rows
  {
    if rows != [] {
      SortRowsSorted(l, rows[1..]);
      forall x | x in rows[1..] ensures KeyRank(l, x) != KeyRank(l, rows[0]) {
        var j :| 0 <= j < |rows[1..]| && rows[1..][j] == x;
        assert rows[j + 1] == x;
      }
      InsertSorted(l, rows[0], SortRows(l, rows[1..]));
    }
  }

  lemma FirstIsLeast(l: Listing, rows: seq<Row>, r: Row)
    requires Ascending(l, rows) && r in rows
    ensures r == rows[0] || l.Before(rows[0], r)
  {
    var i :| 0 <= i < |rows| && rows[i] == r;
  }

  /** A listing is determined by its rows: two ascending sequences with the same elements
      are equal. */
  lemma {:induction false} AscendingUnique(l: Listing, a: seq<Row>, b: seq<Row>)
    requires Ascending(l, a) && Ascending(l, b)
    requires forall r :: r in a <==> r in b
    ensures a == b
  {
    assert |a| > 0 ==> a[0] in a && a[0] in b;
    assert |b| > 0 ==> b[0] in b && b[0] in a;
    if |a| > 0 {
      FirstIsLeast(l, b, a[0]);
      FirstIsLeast(l, a, b[0]);
      forall r | r in a[1..] ensures r in b[1..] {
        var k :| 0 <= k < |a[1..]| && a[1..][k] == r;
        assert a[k + 1] == r && l.Before(a[0], r);
        assert r in b;
        var m :| 0 <= m < |b| && b[m] == r;
        assert m > 0 by { assert !l.Before(r, r); }
        assert b[1..][m - 1] == r;
      }
      forall r | r in b[1..] ensures r in a[1..] {
        var k :| 0 <= k < |b[1..]| && b[1..][k] == r;
        assert b[k + 1] == r && l.Before(b[0], r);
        assert r in a;
        var m :| 0 <= m < |a| && a[m] == r;
        assert m > 0 by { assert !l.Before(r, r); }
        assert a[1..][m - 1] == r;
      }
      AscendingUnique(l, a[1..], b[1..]);
    }
  }

  // ---- one page ----

  /** A page shows, in order, the first rows that follow its cursor: it leaves out nothing
      that comes before its last row, and is the last page exactly when nothing is left. */
  lemma PageShowsNextRows(l: Listing, token: Option<Token>, last: Option<Row>, limit: nat, rows: seq<Row>)
    requires limit >= 1 && Pageable(l, rows) && Continues(l, token, last)
    ensures PageOf(l, token, limit, rows).Ok?
    ensures var p := PageOf(l, token, limit, rows).value;
            && Ascending(l, p.rows) && |p.rows| <= limit
            && (forall r <- p.rows :: r in rows && Follows(l, last, r))
            && (p.next.None? ==> forall r <- rows :: Follows(l, last, r) ==> r in p.rows)
            && (p.next.Some? ==> |p.rows| == limit && Continues(l, p.next, Some(p.rows[limit - 1])))
            && (p.next.Some? ==> forall r <- rows :: Follows(l, last, r) ==>
                r in p.rows || l.Before(p.rows[limit - 1], r))
            && (p.next.Some? ==> exists r :: r in rows && Follows(l, last, r) && l.Before(p.rows[limit - 1], r))
  {
    hide PageableRow, Sooner, Listing.Before, Listing.Visible;
    DecodedPosition(l, token, last);
    var cursor := DecodeOptional(l, token).value;
    MatchingContents(l, cursor, rows);
    var m := Matching(l, cursor, rows);
    SortRowsSorted(l, m);
    var s := SortRows(l, m);
    forall r | r in rows ensures Follows(l, last, r) <==> r in s {
      SelectedIsFollows(l, token, last, r);
    }
    if |s| > limit {
      var found := FirstRows(s, limit + 1);
      assert found[..limit] == s[..limit];
      forall r | r in rows && Follows(l, last, r) ensures r in s[..limit] || l.Before(s[limit - 1], r) {
        var k :| 0 <= k < |s| && s[k] == r;
        if k < limit { assert s[..limit][k] == r; }
      }
      assert s[limit] in s && l.Before(s[limit - 1], s[limit]);
      assert PageableRow(l, s[limit - 1]);
    }
  }

  // ---- reading every page of a fixed table ----

  /** The whole listing. */
  function Listed(l: Listing, rows: seq<Row>): seq<Row> {
    SortRows(l, Matching(l, None, rows))
  }

  ghost function Remaining(l: Listing, last: Option<Row>, rows: seq<Row>): set<Row> {
    set r | r in rows && Follows(l, last, r)
  }

  /** ReadAll returns exactly the visible rows of the table, sorted, and ends. */
  method ReadAll(l: Listing, limit: int, rows: seq<Row>) returns (all: Result<seq<Row>>)
    requires Pageable(l, rows)
    ensures all == Ok(Listed(l, rows))
    ensures Ascending(l, all.value)
    ensures forall r :: r in all.value <==> r in rows && l.Visible(r)
  {
    hide PageOf, Pageable, Listing.Before;
    var acc: seq<Row> := [];
    var token: Option<Token> := None;
    ghost var last: Option<Row> := None;
    while true
      invariant Continues(l, token, last)
      invariant Ascending(l, acc)
      invariant last.Some? ==> acc != [] && acc[|acc| - 1] == last.value
      invariant last.None? ==> acc == []
      invariant forall r <- acc :: r in rows && l.Visible(r)
      invariant forall r <- rows :: l.Visible(r) ==> r in acc || Follows(l, last, r)
      decreases Remaining(l, last, rows)
    {
      PageShowsNextRows(l, token, last, ReadLimit(limit), rows);
      var page := PageOf(l, token, ReadLimit(limit), rows);
      AppendAscending(l, acc, last, page.value.rows);
      ghost var before := Remaining(l, last, rows);
      acc := acc + page.value.rows;
      if page.value.next.None? {
        MatchingContents(l, None, rows);
        SortRowsSorted(l, Matching(l, None, rows));
        AscendingUnique(l, acc, Listed(l, rows));
        return Ok(acc);
      }
      ghost var shown := page.value.rows[|page.value.rows| - 1];
      RemainingShrinks(l, last, shown, rows);
      token, last := page.value.next, Some(shown);
    }
  }

  lemma AppendAscending(l: Listing, acc: seq<Row>, last: Option<Row>, more: seq<Row>)
    requires Ascending(l, acc) && Ascending(l, more)
    requires forall r <- more :: Follows(l, last, r)
    requires if last.Some? then acc != [] && acc[|acc| - 1] == last.value else acc == []
    ensures Ascending(l, acc + more)
  {
    forall i, j | 0 <= i < j < |acc + more| ensures l.Before((acc + more)[i], (acc + more)[j]) {
      if i < |acc| <= j {
        var m := more[j - |acc|];
        assert m in more && l.Before(last.value, m);
        if i < |acc| - 1 {
          assert l.Before(acc[i], last.value);
        }
      }
    }
  }

  lemma RemainingShrinks(l: Listing, last: Option<Row>, shown: Row, rows: seq<Row>)
    requires shown in rows && Follows(l, last, shown)
    ensures Remaining(l, Some(shown), rows) < Remaining(l, last, rows)
  {
    assert shown in Remaining(l, last, rows) && shown !in Remaining(l, Some(shown), rows);
    forall r | r in Remaining(l, Some(shown), rows) ensures r in Remaining(l, last, rows) {
    }
  }

  // ---- following next_cursor while the table changes ----

  /** The rows a client collects when page k is served from tables[k], and whether it
      reached the last page. */
  function Collect(l: Listing, token: Option<Token>, limit: nat, tables: seq<seq<Row>>): (seq<Row>, bool)
    requires limit >= 1
    decreases |tables|
  {
    if tables == [] then ([], false)
    else match PageOf(l, token, limit, tables[0])
      case Err(_) => ([], false)
      case Ok(p) =>
        if p.next.None? then (p.rows, true)
        else
          var (rest, done) := Collect(l, p.next, limit, tables[1..]);
          (p.rows + rest, done)
  }

  ghost predicate StaysPresent(l: Listing, tables: seq<seq<Row>>, r: Row) {
    l.Visible(r) && forall t <- tables :: r in t
  }

  function Occurrences(rows: seq<Row>, r: Row): nat {
    multiset(rows)[r]
  }

  lemma FollowsOn(l: Listing, last: Option<Row>, shown: Row, r: Row)
    requires Follows(l, Some(shown), r) && Follows(l, last, shown)
    ensures Follows(l, last, r)
  {
  }

  lemma {:induction false} CollectFrom(l: Listing, token: Option<Token>, last: Option<Row>, limit: nat,
                                       tables: seq<seq<Row>>)
    requires limit >= 1 && (forall t <- tables :: Pageable(l, t)) && Continues(l, token, last)
    ensures var (out, done) := Collect(l, token, limit, tables);
            && Ascending(l, out)
            && (forall r <- out :: Follows(l, last, r) && exists t :: t in tables && r in t)
            && (done ==> forall r :: StaysPresent(l, tables, r) && Follows(l, last, r) ==> r in out)
    decreases |tables|
  {
    hide PageOf, Continues, Pageable, Listing.Visible, Listing.Before;
    if tables != [] {
      PageShowsNextRows(l, token, last, limit, tables[0]);
      var p := PageOf(l, token, limit, tables[0]).value;
      assert tables[0] in tables;
      if p.next.Some? {
        var shown := p.rows[limit - 1];
        CollectFrom(l, p.next, Some(shown), limit, tables[1..]);
        var (rest, done) := Collect(l, p.next, limit, tables[1..]);
        assert shown in p.rows;
        forall r | r in rest ensures Follows(l, last, r) {
          FollowsOn(l, last, shown, r);
        }
        AppendAscending(l, p.rows, Some(shown), rest);
        forall r | done && StaysPresent(l, tables, r) && Follows(l, last, r) ensures r in p.rows + rest {
          assert StaysPresent(l, tables[1..], r);
        }
      }
    }
  }

  lemma AscendingHasNoRepeats(l: Listing, rows: seq<Row>, r: Row)
    requires Ascending(l, rows) && r in rows
    ensures Occurrences(rows, r) == 1
  {
    var i :| 0 <= i < |rows| && rows[i] == r;
    assert rows == rows[..i] + [r] + rows[i + 1..];
    assert r !in rows[..i] && r !in rows[i + 1..];
  }

  /** Whatever is inserted and deleted between pages, the collected rows are strictly
      ascending, every one of them was visible when it was served, and once the last page
      is reached every row that stayed present and unchanged was collected exactly once. */
  lemma EveryStableRowOnce(l: Listing, limit: nat, tables: seq<seq<Row>>)
    requires limit >= 1 && forall t <- tables :: Pageable(l, t)
    ensures var (out, done) := Collect(l, None, limit, tables);
            && Ascending(l, out)
            && (forall r <- out :: l.Visible(r) && exists t :: t in tables && r in t)
            && (done ==> forall r :: StaysPresent(l, tables, r) ==> Occurrences(out, r) == 1)
  {
    CollectFrom(l, None, None, limit, tables);
    var (out, done) := Collect(l, None, limit, tables);
    if done {
      forall r | StaysPresent(l, tables, r) ensures Occurrences(out, r) == 1 {
        AscendingHasNoRepeats(l, out, r);
      }
    }
  }

  /** n requests served from one table. */
  function Same(rows: seq<Row>, n: nat): (tables: seq<seq<Row>>)
    ensures |tables| == n && forall t <- tables :: t == rows
  {
    seq(n, _ => rows)
  }

  lemma {:induction false} FixedTableEnds(l: Listing, token: Option<Token>, last: Option<Row>, limit: nat,
                                          rows: seq<Row>, n: nat)
    requires limit >= 1 && Pageable(l, rows) && Continues(l, token, last) && n > |Remaining(l, last, rows)|
    ensures Collect(l, token, limit, Same(rows, n)).1
    decreases n
  {
    hide PageOf, Continues, Pageable, Listing.Visible, Listing.Before;
    PageShowsNextRows(l, token, last, limit, rows);
    var p := PageOf(l, token, limit, rows).value;
    assert Same(rows, n)[1..] == Same(rows, n - 1);
    if p.next.Some? {
      var shown := p.rows[limit - 1];
      assert shown in p.rows;
      RemainingShrinks(l, last, shown, rows);
      Fewer(Remaining(l, Some(shown), rows), Remaining(l, last, rows));
      FixedTableEnds(l, p.next, Some(shown), limit, rows, n - 1);
    }
  }

  lemma Fewer(a: set<Row>, b: set<Row>)
    requires a < b
    ensures |a| < |b|
  {
    assert |b - a| + |a| == |b|;
    assert b - a != {};
  }

  lemma {:induction false} AtMostAsMany(s: set<Row>, rows: seq<Row>)
    requires forall r <- s :: r in rows
    ensures |s| <= |rows|
  {
    if rows != [] {
      AtMostAsMany(s - {rows[0]}, rows[1..]);
    } else {
      assert s == {};
    }
  }

  /** On a table that does not change, as many requests as it has rows, and one more, always reach the
      last page, and the client has collected the whole listing, in order. */
  lemma FixedTableIsListed(l: Listing, limit: nat, rows: seq<Row>)
    requires limit >= 1 && Pageable(l, rows)
    ensures Collect(l, None, limit, Same(rows, |rows| + 1)) == (Listed(l, rows), true)
  {
    hide PageOf, Pageable, Collect, Listing.Before;
    var tables := Same(rows, |rows| + 1);
    var (out, done) := Collect(l, None, limit, tables);
    AtMostAsMany(Remaining(l, None, rows), rows);
    FixedTableEnds(l, None, None, limit, rows, |rows| + 1);
    CollectFrom(l, None, None, limit, tables);
    MatchingContents(l, None, rows);
    SortRowsSorted(l, Matching(l, None, rows));
    forall r ensures r in out <==> r in Listed(l, rows) {
      if r in rows && l.Visible(r) { assert StaysPresent(l, tables, r) && Follows(l, None, r); }
      if r in out {
        var t :| t in tables && r in t;
        assert t == rows;
      }
    }
    AscendingUnique(l, out, Listed(l, rows));
  }

  // ---- a listing that loses rows ----

  /** SQLite compares a column of 0 and 1 with the text in the cursor: texts rank behind numbers. */
  function TextsBehind(col: string, v: Value): real {
    match v
    case Int(i) => i as real
    case Bool(b) => if b then 1.0 else 0.0
    case Text(s) => 4.0
    case _ => 0.0
  }

  /** Rows sorted by a boolean, two of them. */
  function Flagged(id: int, flag: bool): Row { map["id" := Int(id), "flag" := Bool(flag)] }

  function FlagListing(lib: Library, secret: string): Listing {
    var e := Entity([Field("id", "id", false, true), Field("flag", "flag", false, false)]);
    Listing(e, Sort("flag", false), TextsBehind, NullsFirst, _ => Yes, [], lib, secret)
  }

  lemma TwoRows(l: Listing, cursor: Option<Cursor>, a: Row, b: Row)
    requires Selected(l, cursor, a) == Selected(l, cursor, b)
    ensures Matching(l, cursor, [a, b]) == if Selected(l, cursor, a) then [a, b] else []
  {
    assert [a, b][1..] == [b] && [b][1..] == [];
    assert Matching(l, cursor, [b]) == if Selected(l, cursor, b) then [b] else [];
  }

  lemma SortedPair(l: Listing, a: Row, b: Row)
    requires Sooner(l, a, b)
    ensures SortRows(l, [a, b]) == [a, b] && SortRows(l, []) == []
  {
    assert [a, b][1..] == [b] && [b][1..] == [];
    assert SortRows(l, [b]) == [b];
  }

  /** A row outside the condition: with pages of one row the listing of two rows sorted by a
      boolean ends after the first, although the second is visible and follows it. */
  lemma BooleanSortLosesRows(lib: Library, secret: string)
    ensures var l := FlagListing(lib, secret); var first, second := Flagged(1, false), Flagged(2, true);
            && l.entity.Stored(first, "flag") && l.entity.Stored(second, "flag") && !PageableRow(l, first)
            && l.Visible(second) && l.Before(first, second)
            && PageOf(l, None, 1, [first, second]) == Ok(Page([first], Some(CursorOf(l, first))))
            && PageOf(l, Some(CursorOf(l, first)), 1, [first, second]) == Ok(Page([], None))
  {
    var l := FlagListing(lib, secret);
    var first, second := Flagged(1, false), Flagged(2, true);
    BooleanTurnsBehind(lib, secret);
    hide Eval, KeysetCond, KeysetArgs, EncodeCursor, NewCursor, DecodeCursor, Keyset.Before, PositionOf, Matching,
        SortRows;
    var c := Cursor("flag", false, Text("false"), Int(1));
    KeysetIsAfter(l.coll, l.entity, l.sort, c, first, []);
    KeysetIsAfter(l.coll, l.entity, l.sort, c, second, []);
    TwoRows(l, Some(c), first, second);
    OrderByIsBefore(l.coll, l.nulls, l.entity, l.sort, first, second);
    TwoRows(l, None, first, second);
    SortedPair(l, first, second);
    assert [first, second][..1] == [first];
    assert PageOf(l, None, 1, [first, second]) == Ok(Page([first], Some(CursorOf(l, first))));
    assert SortRows(l, []) == [];
    assert DecodeOptional(l, Some(CursorOf(l, first))) == Ok(Some(c));
    assert Matching(l, Some(c), [first, second]) == [];
    assert ListRows(l, Some(c), 2, [first, second]) == Ok([]);
  }

  lemma BooleanTurnsBehind(lib: Library, secret: string)
    ensures var l := FlagListing(lib, secret); var first, second := Flagged(1, false), Flagged(2, true);
            var d := Position(Text("false"), Int(1));
                var p, q := PositionOf(l.entity, l.sort, first), PositionOf(l.entity, l.sort, second);
            && l.entity.Stored(first, "flag") && l.entity.Stored(second, "flag") && !PageableRow(l, first) &&
                l.Before(first, second)
            && DecodeCursor(lib, CursorOf(l, first), secret) == Ok(Cursor("flag", false, d.value, d.id))
            && !Keyset.Before(l.coll, l.entity, l.sort, d, p) && !Keyset.Before(l.coll, l.entity, l.sort, d, q)
  {
    var e := FlagListing(lib, secret).entity;
    assert e.PrimaryColumn() == "id";
    assert e.FindField("flag", 1) == Some(e.fields[1]);
  }
}
