/** Upserts on one natural key with a stale guard (internal/handler/upsert.go and
    Builder.update in internal/query/builder.go). A message is a full record as a map from
    columns to values; field names equal their columns. */
module Upsert {
  import opened SqlLogic

  type Record = map<string, Value>

  datatype Field = Field(column: string, primaryKey: bool, immutable: bool, defaultFrom: bool, stamped: bool)

  datatype Entity = Entity(
    fields: seq<Field>,
    naturalKey: seq<string>,
    staleGuard: string,
    softDelete: bool,
    timestamps: bool)

  /** The stored row; columns nobody gave a value hold their default. */
  datatype Stored = Stored(cols: Record, deleted: bool)

  datatype Mode = Fail | Update | Ignore

  datatype Action = Created | Updated | Unchanged | Ignored | Hidden | Conflict

  // ---- which columns an upsert may change ----

  /** Dropped by stripServerManaged on an update. */
  predicate ServerManaged(e: Entity, f: Field) {
    || ((f.column == "created_at" || f.column == "updated_at") && e.timestamps)
    || (f.column == "deleted_at" && e.softDelete)
    || f.primaryKey || f.immutable || f.defaultFrom || f.stamped
  }

  /** Never assigned by Builder.update. */
  predicate Reserved(f: Field) {
    f.primaryKey || f.column == "updated_at" || f.column == "created_at" || f.column == "deleted_at"
  }

  predicate IsField(e: Entity, col: string) { exists f <- e.fields :: f.column == col }

  /** A column that an upsert overwrites when it is given a value. */
  predicate Mutable(e: Entity, col: string) {
    && IsField(e, col) && col !in e.naturalKey
    && forall f <- e.fields :: f.column == col ==> !ServerManaged(e, f) && !Reserved(f)
  }

  /** An upsert overwrites a field unless it is part of the natural key, a primary key, immutable,
      filled by the server, or one of the three managed timestamps. */
  lemma MutableExactly(e: Entity, col: string)
    ensures Mutable(e, col) <==>
      && (exists f <- e.fields :: f.column == col) && col !in e.naturalKey
      && col != "created_at" && col != "updated_at" && col != "deleted_at"
      && (forall f <- e.fields :: f.column == col ==>
            !f.primaryKey && !f.immutable && !f.defaultFrom && !f.stamped)
  {
  }

  // ---- one upsert ----

  /** Builder.Create: every field given, the rest by default. */
  function Inserted(e: Entity, data: Record): Stored {
    Stored(map c: string | c in data && IsField(e, c) :: data[c], false)
  }

  function Assigned(e: Entity, data: Record): Record {
    map c: string | c in data && Mutable(e, c) :: data[c]
  }

  /** The guard admits the message: there is none, or the stored value is NULL or older. */
  predicate Newer(coll: Collation, e: Entity, old_: Record, data: Record) {
    e.staleGuard == "" || Get(data, e.staleGuard) == Null || Get(old_, e.staleGuard) == Null
    || coll(e.staleGuard, Get(old_, e.staleGuard)) < coll(e.staleGuard, Get(data, e.staleGuard))
  }

  /** Overwrites the mutable columns given and clears deleted_at, or changes nothing. */
  function Overwritten(coll: Collation, e: Entity, row: Stored, data: Record): Stored {
    if !Newer(coll, e, row.cols, data) then row
    else if Assigned(e, data) == map[] && !(e.softDelete && row.deleted) then row
    else Stored(row.cols + Assigned(e, data), row.deleted && !e.softDelete)
  }

  function UpsertRow(coll: Collation, e: Entity, row: Option<Stored>, data: Record): Option<Stored> {
    match row
    case None => Some(Inserted(e, data))
    case Some(r) => Some(Overwritten(coll, e, r, data))
  }

  class Target {
    var row: Option<Stored>

    /** createOrUpsert inside its transaction; visible tells whether the caller's row filter
        admits the existing row. */
    method Write(coll: Collation, e: Entity, data: Record, mode: Mode, visible: bool) returns (action: Action)
      modifies this
      ensures mode == Fail ==> row == if old(row).None? then Some(Inserted(e, data)) else old(row)
      ensures mode == Fail ==> action == if old(row).None? then Created else Conflict
      ensures mode != Fail ==> (action == Created <==> old(row).None?)
      ensures mode != Fail ==> (action == Hidden <==> old(row).Some? && !visible)
      ensures mode == Ignore ==> (action == Ignored <==> old(row).Some? && visible)
      ensures action in {Hidden, Ignored, Conflict, Unchanged} ==> row == old(row)
      ensures action in {Created, Updated} ==> row == UpsertRow(coll, e, old(row), data)
      ensures action == Unchanged ==> row == UpsertRow(coll, e, old(row), data)
    {
      if mode == Fail {
        if row.Some? {
          return Conflict;
        }
        row := Some(Inserted(e, data));
        return Created;
      }
      if row.None? {
        row := Some(Inserted(e, data));
        return Created;
      }
      if !visible {
        return Hidden;
      }
      if mode == Ignore {
        return Ignored;
      }
      var upd := StripForUpdate(e, data);
      SettableIsMutable(e, data);
      assert (map c: string | c in upd && Settable(e, c) :: upd[c]) == Assigned(e, data);
      hide Settable, Mutable;
      var revive := e.softDelete && row.value.deleted;
      var guard := if e.staleGuard != "" then Get(data, e.staleGuard) else Null;
      action := UpdateGuarded(coll, e, upd, e.staleGuard, guard, revive);
    }

    /** Builder.update on the row, with guard and revival; an unmet guard or nothing to
        assign leaves it unchanged. */
    method UpdateGuarded(coll: Collation, e: Entity, upd: Record, column: string, guard: Value,
                         revive: bool) returns (action: Action)
      requires row.Some? && (revive <==> e.softDelete && row.value.deleted)
      modifies this
      ensures var admitted := column == "" || guard == Null || Get(old(row).value.cols, column) == Null
                              || coll(column, Get(old(row).value.cols, column)) < coll(column, guard);
              var sets := map c: string | c in upd && Settable(e, c) :: upd[c];
              if admitted && (sets != map[] || revive)
              then action == Updated &&
                  row == Some(Stored(old(row).value.cols + sets, old(row).value.deleted && !revive))
              else action == Unchanged && row == old(row)
    {
      var sets := SetColumns(e, upd);
      if sets == map[] && !revive {
        return Unchanged;
      }
      var stored := Get(row.value.cols, column);
      if column != "" && guard != Null && !(stored == Null || coll(column, stored) < coll(column, guard)) {
        return Unchanged;
      }
      row := Some(Stored(row.value.cols + sets, row.value.deleted && !revive));
      action := Updated;
    }
  }

  /** The assignments of Builder.update, field by field. */
  method SetColumns(e: Entity, upd: Record) returns (sets: Record)
    ensures sets == map c: string | c in upd && Settable(e, c) :: upd[c]
  {
    sets := map[];
    for i := 0 to |e.fields|
      invariant sets == map c: string | c in upd && SettableBefore(e, c, i) :: upd[c]
    {
      var f := e.fields[i];
      SettableStep(e, i);
      if Reserved(f) || f.column !in upd {
        continue;
      }
      sets := sets[f.column := upd[f.column]];
    }
    assert e.fields[..|e.fields|] == e.fields;
  }

  /** What stripping leaves and update assigns is exactly the mutable part. */
  lemma SettableIsMutable(e: Entity, data: Record)
    ensures forall c: string ::
      && Settable(e, c) && c !in e.naturalKey
      && (forall f <- e.fields :: f.column == c ==> !ServerManaged(e, f))
      <==> Mutable(e, c)
  {
  }

  predicate Settable(e: Entity, col: string) { exists f <- e.fields :: f.column == col && !Reserved(f) }

  predicate SettableBefore(e: Entity, col: string, i: nat)
    requires i <= |e.fields|
  {
    exists f <- e.fields[..i] :: f.column == col && !Reserved(f)
  }

  lemma SettableStep(e: Entity, i: nat)
    requires i < |e.fields|
    ensures forall c :: SettableBefore(e, c, i + 1) <==>
      SettableBefore(e, c, i) || (e.fields[i].column == c && !Reserved(e.fields[i]))
  {
    assert e.fields[..i + 1] == e.fields[..i] + [e.fields[i]];
  }

  /** The copy of the message that update receives: stripServerManaged, then the natural
      key removed. */
  method StripForUpdate(e: Entity, data: Record) returns (upd: Record)
    ensures upd == map c: string | c in data && c !in e.naturalKey
                                   && (forall f <- e.fields :: f.column == c ==> !ServerManaged(e, f)) :: data[c]
  {
    upd := data;
    for i := 0 to |e.fields|
      invariant upd == map c: string | c in data &&
          (forall f <- e.fields[..i] :: f.column == c ==> !ServerManaged(e, f)) :: data[c]
    {
      assert e.fields[..i + 1] == e.fields[..i] + [e.fields[i]];
      if ServerManaged(e, e.fields[i]) {
        upd := upd - {e.fields[i].column};
      }
    }
    assert e.fields[..|e.fields|] == e.fields;
    for i := 0 to |e.naturalKey|
      invariant upd == map c: string | c in data && c !in e.naturalKey[..i]
                                       && (forall f <- e.fields :: f.column == c ==> !ServerManaged(e, f)) :: data[c]
    {
      assert e.naturalKey[..i + 1] == e.naturalKey[..i] + [e.naturalKey[i]];
      upd := upd - {e.naturalKey[i]};
    }
    assert e.naturalKey[..|e.naturalKey|] == e.naturalKey;
  }

  // ---- deliveries in any order ----

  datatype Event = Deliver(data: Record) | SoftDelete

  function Happen(coll: Collation, e: Entity, row: Option<Stored>, ev: Event): Option<Stored> {
    match ev
    case Deliver(data) => UpsertRow(coll, e, row, data)
    case SoftDelete => if row.Some? && e.softDelete then Some(row.value.(deleted := true)) else row
  }

  function After(coll: Collation, e: Entity, events: seq<Event>): Option<Stored> {
    if events == [] then None
    else Happen(coll, e, After(coll, e, events[..|events| - 1]), events[|events| - 1])
  }

  function Delivered(events: seq<Event>): seq<Record> {
    if events == [] then []
    else
      Delivered(events[..|events| - 1])
      + match events[|events| - 1] case Deliver(data) => [data] case SoftDelete => []
  }

  function GuardRank(coll: Collation, e: Entity, data: Record): real {
    coll(e.staleGuard, Get(data, e.staleGuard))
  }

  /** The first message with the greatest guard. */
  function Best(coll: Collation, e: Entity, ms: seq<Record>): Record
    requires ms != []
  {
    var last := ms[|ms| - 1];
    if |ms| == 1 then last
    else
      var best := Best(coll, e, ms[..|ms| - 1]);
      if GuardRank(coll, e, last) > GuardRank(coll, e, best) then last else best
  }

  /** The messages of one feed: the same columns, a value in the guard column, which the
      entity lets an update change. */
  ghost predicate Feed(e: Entity, cols: set<string>, ms: seq<Record>) {
    && e.staleGuard != "" && e.staleGuard in cols && Mutable(e, e.staleGuard)
    && forall m <- ms :: m.Keys == cols && m[e.staleGuard] != Null
  }

  function MutablePart(e: Entity, cols: Record): Record {
    map c: string | c in cols && Mutable(e, c) :: cols[c]
  }

  lemma {:induction false} BestIsDelivered(coll: Collation, e: Entity, ms: seq<Record>)
    requires ms != []
    ensures Best(coll, e, ms) in ms
    ensures forall m <- ms :: GuardRank(coll, e, m) <= GuardRank(coll, e, Best(coll, e, ms))
    decreases |ms|
  {
    hide GuardRank, Best;
    BestStep(coll, e, ms);
    var n := |ms| - 1;
    if n > 0 {
      BestIsDelivered(coll, e, ms[..n]);
      forall m | m in ms ensures m == ms[n] || m in ms[..n] {
        var i :| 0 <= i < |ms| && ms[i] == m;
        if i < n { assert ms[..n][i] == m; }
      }
    }
  }

  lemma BestStep(coll: Collation, e: Entity, ms: seq<Record>)
    requires ms != []
    ensures var n := |ms| - 1;
      if n == 0 then Best(coll, e, ms) == ms[0]
      else
        var best := Best(coll, e, ms[..n]);
        Best(coll, e, ms) == if GuardRank(coll, e, ms[n]) > GuardRank(coll, e, best) then ms[n] else best
  {
    hide GuardRank;
  }

  /** Best is also the earliest among the messages with the greatest guard. */
  lemma {:induction false} BestIsFirst(coll: Collation, e: Entity, ms: seq<Record>) returns (i: nat)
    requires ms != []
    ensures i < |ms| && ms[i] == Best(coll, e, ms)
    ensures forall j :: 0 <= j < i ==> GuardRank(coll, e, ms[j]) < GuardRank(coll, e, ms[i])
    ensures forall j :: i <= j < |ms| ==> GuardRank(coll, e, ms[j]) <= GuardRank(coll, e, ms[i])
    decreases |ms|
  {
    var n := |ms| - 1;
    if n == 0 {
      i := 0;
    } else {
      var k := BestIsFirst(coll, e, ms[..n]);
      i := if GuardRank(coll, e, ms[n]) > GuardRank(coll, e, ms[k]) then n else k;
    }
  }

  /** For every sequence of deliveries and deletions, the stored mutable columns are those
      of the first delivered message with the greatest guard. */
  lemma {:induction false} StoredIsBest(coll: Collation, e: Entity, cols: set<string>, events: seq<Event>)
    requires Feed(e, cols, Delivered(events)) && Delivered(events) != []
    ensures After(coll, e, events).Some?
    ensures MutablePart(e, After(coll, e, events).value.cols) == MutablePart(e, Best(coll, e, Delivered(events)))
    ensures Get(After(coll, e, events).value.cols, e.staleGuard) == Get(Best(coll, e, Delivered(events)), e.staleGuard)
    decreases |events|
  {
    var n := |events| - 1;
    var before, ms := events[..n], Delivered(events[..n]);
    match events[n]
    case SoftDelete =>
      assert Delivered(events) == ms;
      StoredIsBest(coll, e, cols, before);
    case Deliver(data) =>
      assert Delivered(events) == ms + [data];
      assert data in Delivered(events);
      if ms == [] {
        NothingBefore(coll, e, before);
        assert Best(coll, e, [data]) == data;
        InsertedMutable(e, data);
      } else {
        assert forall m <- ms :: m in Delivered(events);
        StoredIsBest(coll, e, cols, before);
        BestIsDelivered(coll, e, ms);
        assert (ms + [data])[..|ms|] == ms;
        OverwriteMutable(coll, e, cols, After(coll, e, before).value, Best(coll, e, ms), data);
      }
  }

  lemma {:induction false} NothingBefore(coll: Collation, e: Entity, events: seq<Event>)
    requires Delivered(events) == []
    ensures After(coll, e, events) == None
    decreases |events|
  {
    if events != [] {
      NothingBefore(coll, e, events[..|events| - 1]);
    }
  }

  lemma InsertedMutable(e: Entity, data: Record)
    ensures MutablePart(e, Inserted(e, data).cols) == MutablePart(e, data)
    ensures Mutable(e, e.staleGuard) && e.staleGuard in data ==>
        Get(Inserted(e, data).cols, e.staleGuard) == data[e.staleGuard]
  {
  }

  lemma OverwriteMutable(coll: Collation, e: Entity, cols: set<string>, row: Stored, best: Record, data: Record)
    requires Feed(e, cols, [best, data])
    requires MutablePart(e, row.cols) == MutablePart(e, best) && Get(row.cols, e.staleGuard) == best[e.staleGuard]
    ensures var winner := if GuardRank(coll, e, data) > GuardRank(coll, e, best) then data else best;
            && MutablePart(e, Overwritten(coll, e, row, data).cols) == MutablePart(e, winner)
            && Get(Overwritten(coll, e, row, data).cols, e.staleGuard) == winner[e.staleGuard]
  {
    hide Mutable;
    assert best in [best, data] && data in [best, data];
    if GuardRank(coll, e, data) > GuardRank(coll, e, best) {
      assert e.staleGuard in Assigned(e, data);
      var new_ := row.cols + Assigned(e, data);
      assert MutablePart(e, new_) == MutablePart(e, data) by {
        forall c | c in row.cols && Mutable(e, c) ensures c in data {
          assert c in MutablePart(e, row.cols) && c in MutablePart(e, best);
        }
      }
    }
  }

  /** Distinct guards: two feeds that deliver the same messages, in whatever order and with
      whatever repetitions and deletions, leave the same mutable columns. */
  lemma DeliveriesConverge(coll: Collation, e: Entity, cols: set<string>, a: seq<Event>, b: seq<Event>)
    requires Feed(e, cols, Delivered(a)) && Feed(e, cols, Delivered(b)) && Delivered(a) != []
    requires forall m :: m in Delivered(a) <==> m in Delivered(b)
    requires forall m, n ::
      m in Delivered(a) && n in Delivered(a) && GuardRank(coll, e, m) == GuardRank(coll, e, n) ==> m == n
    ensures After(coll, e, a).Some? && After(coll, e, b).Some?
    ensures MutablePart(e, After(coll, e, a).value.cols) == MutablePart(e, After(coll, e, b).value.cols)
  {
    assert Delivered(a)[0] in Delivered(a);
    StoredIsBest(coll, e, cols, a);
    StoredIsBest(coll, e, cols, b);
    BestIsDelivered(coll, e, Delivered(a));
    BestIsDelivered(coll, e, Delivered(b));
  }

  /** A message that is not newer changes nothing at all: in particular it never revives a
      soft-deleted row. A newer one always does. */
  lemma RevivedExactlyByNewer(coll: Collation, e: Entity, cols: set<string>, row: Stored, data: Record)
    requires Feed(e, cols, [data]) && e.softDelete && row.deleted
    requires e.staleGuard in row.cols && row.cols[e.staleGuard] != Null
    ensures var newer := GuardRank(coll, e, data) > GuardRank(coll, e, row.cols);
            && (!newer ==> UpsertRow(coll, e, Some(row), data) == Some(row))
            && (UpsertRow(coll, e, Some(row), data).value.deleted <==> !newer)
  {
    assert data in [data];
  }

  /** A soft delete marks the row and keeps its columns; without soft delete, or a row, nothing is
      marked. */
  lemma SoftDeleteMarks(coll: Collation, e: Entity, events: seq<Event>)
    ensures var before, after := After(coll, e, events), After(coll, e, events + [SoftDelete]);
      after == if before.Some? && e.softDelete then Some(Stored(before.value.cols, true)) else before
  {
    assert (events + [SoftDelete])[..|events|] == events;
  }

  /** The guard column must be mutable: otherwise its stored value never advances, and a
      message older than one already applied overwrites it. */
  lemma ImmutableGuardLosesOrder(coll: Collation, e: Entity, a: Record, b: Record, c: Record, col: string)
    requires e.staleGuard != "" && IsField(e, e.staleGuard) && !Mutable(e, e.staleGuard) && Mutable(e, col)
    requires forall m <- [a, b, c] :: e.staleGuard in m && m[e.staleGuard] != Null && col in m
    requires GuardRank(coll, e, a) < GuardRank(coll, e, c) < GuardRank(coll, e, b)
    ensures After(coll, e, [Deliver(a), Deliver(b), Deliver(c)]).Some?
      && Get(After(coll, e, [Deliver(a), Deliver(b), Deliver(c)]).value.cols, col) == c[col]
    ensures Best(coll, e, [a, b, c]) == b
  {
    hide Mutable, IsField;
    var e1, e2, e3 := [Deliver(a)], [Deliver(a), Deliver(b)], [Deliver(a), Deliver(b), Deliver(c)];
    assert a in [a, b, c] && b in [a, b, c] && c in [a, b, c];
    assert e1[..0] == [] && e2[..1] == e1 && e3[..2] == e2;
    assert After(coll, e, []) == None;
    var r1 := Inserted(e, a);
    assert After(coll, e, e1) == Some(r1);
    assert Get(r1.cols, e.staleGuard) == a[e.staleGuard];
    var r2 := Overwritten(coll, e, r1, b);
    assert After(coll, e, e2) == Some(r2);
    assert Get(r2.cols, e.staleGuard) == a[e.staleGuard];
    assert col in Assigned(e, c);
    assert [a, b, c][..2] == [a, b] && [a, b][..1] == [a];
    assert Best(coll, e, [a]) == a && Best(coll, e, [a, b]) == b;
  }

  // ---- the columns no update may change ----

  /** A created row holds every field that was given, keys and immutable columns included, and
      nothing else. */
  lemma CreatedRowHolds(coll: Collation, e: Entity, data: Record, c: string)
    ensures var row := UpsertRow(coll, e, None, data);
      && row.Some? && !row.value.deleted
      && (c in row.value.cols <==> c in data && exists f <- e.fields :: f.column == c)
      && (c in row.value.cols ==> row.value.cols[c] == data[c])
  {
  }

  lemma OverwritingKeeps(coll: Collation, e: Entity, row: Stored, data: Record, c: string)
    requires !Mutable(e, c)
    ensures Get(Overwritten(coll, e, row, data).cols, c) == Get(row.cols, c)
  {
    hide Mutable, Newer;
  }

  /** Whatever is delivered and deleted afterwards: a column of the natural key, an immutable or
      otherwise fixed one keeps the value of the first message. */
  lemma {:induction false} FixedColumnsStay(coll: Collation, e: Entity, events: seq<Event>, c: string)
    requires IsField(e, c) && !Mutable(e, c)
    ensures After(coll, e, events).Some? <==> Delivered(events) != []
    ensures Delivered(events) != [] ==> Get(After(coll, e, events).value.cols, c) == Get(Delivered(events)[0], c)
    decreases |events|
  {
    hide Mutable, Newer, Overwritten, IsField;
    if events != [] {
      var init, ev := events[..|events| - 1], events[|events| - 1];
      FixedColumnsStay(coll, e, init, c);
      var row := After(coll, e, init);
      if ev.Deliver? {
        if row.Some? { OverwritingKeeps(coll, e, row.value, ev.data, c); } else { CreatedHolds(e, ev.data, c); }
      }
    }
  }

  lemma CreatedHolds(e: Entity, data: Record, c: string)
    requires IsField(e, c)
    ensures Get(Inserted(e, data).cols, c) == Get(data, c)
  {
  }
}
