/** How migrations are executed (internal/migration/runner.go): a generated file and a list of
    statements, against a database whose every answer may depend on what it has run so far. */
module MigrationRun {
  import opened MigrationFile
  import opened SqlScript
  import opened Strings

  /** A statement of the migration, or the bookkeeping INSERT. */
  datatype Op = Exec(sql: string) | Record(name: string, checksum: string)

  /** The database's answers: whether BEGIN, a statement, and COMMIT succeed, after the statements
      committed, and pending in the transaction, so far. */
  datatype Answers = Answers(begin: seq<Op> -> bool, exec: (seq<Op>, Op) -> bool, commit: (seq<Op>, seq<Op>) -> bool)

  /** A connection with transactional DDL. */
  class Database {
    const a: Answers
    var committed: seq<Op>
    var inTx: bool
    var pending: seq<Op>

    ghost predicate Idle()
      reads this
    {
      !inTx && pending == []
    }

    constructor (a: Answers, committed: seq<Op>)
      ensures this.a == a && this.committed == committed && Idle()
    {
      this.a := a;
      this.committed := committed;
      inTx, pending := false, [];
    }

    method Begin() returns (ok: bool)
      requires Idle()
      modifies this
      ensures ok == a.begin(committed) && committed == old(committed) && pending == [] && inTx == ok
    {
      ok := a.begin(committed);
      inTx := ok;
    }

    method ExecTx(op: Op) returns (ok: bool)
      requires inTx
      modifies this
      ensures inTx && committed == old(committed) && ok == a.exec(committed + old(pending), op)
      ensures pending == old(pending) + if ok then [op] else []
    {
      ok := a.exec(committed + pending, op);
      if ok {
        pending := pending + [op];
      }
    }

    method Rollback()
      modifies this
      ensures Idle() && committed == old(committed)
    {
      inTx, pending := false, [];
    }

    /** A failed COMMIT leaves nothing of the transaction. */
    method Commit() returns (ok: bool)
      requires inTx
      modifies this
      ensures Idle() && ok == a.commit(old(committed), old(pending))
      ensures committed == old(committed) + if ok then old(pending) else []
    {
      ok := a.commit(committed, pending);
      if ok {
        committed := committed + pending;
      }
      inTx, pending := false, [];
    }

    method ExecAlone(op: Op) returns (ok: bool)
      requires Idle()
      modifies this
      ensures Idle() && ok == a.exec(old(committed), op)
      ensures committed == old(committed) + if ok then [op] else []
    {
      ok := a.exec(committed, op);
      if ok {
        committed := committed + [op];
      }
    }
  }

  // ---- what a run leaves behind ----

  function Execs(stmts: seq<string>): (r: seq<Op>)
    ensures |r| == |stmts| && forall i :: 0 <= i < |stmts| ==> r[i] == Exec(stmts[i])
  {
    seq(|stmts|, i requires 0 <= i < |stmts| => Exec(stmts[i]))
  }

  /** All of the operations succeed, one after the other, after h. */
  predicate AllRun(h: seq<Op>, ops: seq<Op>, a: Answers) {
    ops == [] || (AllRun(h, ops[..|ops| - 1], a) && a.exec(h + ops[..|ops| - 1], ops[|ops| - 1]))
  }

  /** How many operations succeed before the first that fails. */
  function RunLength(h: seq<Op>, ops: seq<Op>, a: Answers): (n: nat)
    ensures n <= |ops|
    ensures n == |ops| <==> AllRun(h, ops, a)
  {
    if ops == [] then 0
    else
      var init := ops[..|ops| - 1];
      var n := RunLength(h, init, a);
      if n == |init| && a.exec(h + init, ops[|ops| - 1]) then n + 1 else n
  }

  /** The transaction commits: BEGIN, every operation and COMMIT succeed. */
  predicate Commits(h: seq<Op>, ops: seq<Op>, a: Answers) {
    a.begin(h) && AllRun(h, ops, a) && a.commit(h, ops)
  }

  /** What is committed after the transaction and the statements outside it. */
  function Left(h: seq<Op>, ops: seq<Op>, outside: seq<Op>, a: Answers): seq<Op> {
    if Commits(h, ops, a) then h + ops + outside[..RunLength(h + ops, outside, a)] else h
  }

  predicate Succeeds(h: seq<Op>, ops: seq<Op>, outside: seq<Op>, a: Answers) {
    Commits(h, ops, a) && AllRun(h + ops, outside, a)
  }

  lemma {:induction false} AllRunPrefix(h: seq<Op>, ops: seq<Op>, k: nat, a: Answers)
    requires k <= |ops| && AllRun(h, ops, a)
    ensures AllRun(h, ops[..k], a)
    decreases |ops|
  {
    if k < |ops| {
      var init := ops[..|ops| - 1];
      assert init[..k] == ops[..k];
      AllRunPrefix(h, init, k, a);
    } else {
      assert ops[..k] == ops;
    }
  }

  lemma AllRunSnoc(h: seq<Op>, ops: seq<Op>, op: Op, a: Answers)
    ensures AllRun(h, ops + [op], a) <==> AllRun(h, ops, a) && a.exec(h + ops, op)
  {
    assert (ops + [op])[..|ops|] == ops;
  }

  lemma {:induction false} StopsAt(h: seq<Op>, ops: seq<Op>, i: nat, a: Answers)
    requires i < |ops| && AllRun(h, ops[..i], a) && !a.exec(h + ops[..i], ops[i])
    ensures !AllRun(h, ops, a) && RunLength(h, ops, a) == i
    decreases |ops|
  {
    var init := ops[..|ops| - 1];
    if i < |init| {
      assert init[..i] == ops[..i];
      StopsAt(h, init, i, a);
    }
  }

  // ---- running the file ----

  /** The loop over the statements outside the transaction. */
  method RunOutside(db: Database, stmts: seq<string>) returns (ok: bool)
    requires db.Idle()
    modifies db
    ensures db.Idle()
    ensures db.committed == old(db.committed) + Execs(stmts)[..RunLength(old(db.committed), Execs(stmts), db.a)]
    ensures ok == AllRun(old(db.committed), Execs(stmts), db.a)
  {
    hide AllRun, RunLength;
    var h, ops := db.committed, Execs(stmts);
    NothingRuns(h, db.a);
    assert ops[..0] == [];
    for i := 0 to |stmts|
      invariant db.Idle() && db.committed == h + ops[..i] && AllRun(h, ops[..i], db.a)
    {
      ok := db.ExecAlone(Exec(stmts[i]));
      if !ok {
        StopsAt(h, ops, i, db.a);
        return;
      }
      AllRunSnoc(h, ops[..i], ops[i], db.a);
      assert ops[..i + 1] == ops[..i] + [ops[i]];
    }
    assert ops[..|ops|] == ops;
    ok := true;
  }

  lemma NothingRuns(h: seq<Op>, a: Answers)
    ensures AllRun(h, [], a)
  {
  }

  /** applyMigration, once the file is read: a failure before COMMIT leaves nothing, neither a
      statement nor the bookkeeping row. */
  method ApplyMigration(db: Database, content: string, name: string, checksum: string) returns (ok: bool)
    requires db.Idle()
    modifies db
    ensures db.Idle()
    ensures var file := ParseFile(content);
      var ops, outside := Execs(file.tx) + [Record(name, checksum)], Execs(file.outside);
      && db.committed == Left(old(db.committed), ops, outside, db.a)
      && ok == Succeeds(old(db.committed), ops, outside, db.a)
      && (old(db.committed) + ops <= db.committed <==> Commits(old(db.committed), ops, db.a))
      && (db.committed == old(db.committed) <==> !Commits(old(db.committed), ops, db.a))
  {
    hide AllRun, RunLength, Lines, TxLines, OutsideLines, Split;
    var txSql, outside := SplitConcurrent(content);
    var stmts := SplitStatements(txSql);
    ghost var h, ops := db.committed, Execs(stmts);
    ghost var record := Record(name, checksum);
    AllRunSnoc(h, ops, record, db.a);
    AllOrNothing(h, ops, record, Execs(outside), db.a);
    ok := db.Begin();
    if !ok {
      return;
    }
    NothingRuns(h, db.a);
    assert ops[..0] == [];
    for i := 0 to |stmts|
      invariant db.inTx && db.committed == h && db.pending == ops[..i] && AllRun(h, ops[..i], db.a)
    {
      ok := db.ExecTx(Exec(stmts[i]));
      if !ok {
        StopsAt(h, ops, i, db.a);
        db.Rollback();
        return;
      }
      AllRunSnoc(h, ops[..i], ops[i], db.a);
      assert ops[..i + 1] == ops[..i] + [ops[i]];
    }
    assert ops[..|ops|] == ops;
    ok := db.ExecTx(Record(name, checksum));
    if !ok {
      db.Rollback();
      return;
    }
    ok := db.Commit();
    if !ok {
      return;
    }
    ok := RunOutside(db, outside);
  }

  /** ApplyStatements; locked tells whether the migration lock was obtained. */
  method ApplyStatements(db: Database, stmts: seq<Ddl>, locked: bool) returns (ok: bool)
    requires db.Idle()
    modifies db
    ensures db.Idle()
    ensures !locked ==> !ok && db.committed == old(db.committed)
    ensures locked ==>
      var ops, outside := Execs(SqlOf(stmts, false)), Execs(SqlOf(stmts, true));
      && db.committed == Left(old(db.committed), ops, outside, db.a)
      && ok == Succeeds(old(db.committed), ops, outside, db.a)
  {
    hide AllRun, RunLength, SqlOf;
    if !locked {
      return false;
    }
    ghost var h, all := db.committed, SqlOf(stmts, false);
    ok := db.Begin();
    if !ok {
      return;
    }
    var concurrent: seq<string> := [];
    ghost var ran: seq<string> := [];
    NothingRuns(h, db.a);
    NoSql();
    for i := 0 to |stmts|
      invariant ran == SqlOf(stmts[..i], false) && concurrent == SqlOf(stmts[..i], true)
      invariant db.inTx && db.committed == h && db.pending == Execs(ran) && AllRun(h, Execs(ran), db.a)
    {
      SqlOfSnoc(stmts, i, false);
      SqlOfSnoc(stmts, i, true);
      if stmts[i].concurrent {
        concurrent := concurrent + [stmts[i].sql];
        continue;
      }
      ok := db.ExecTx(Exec(stmts[i].sql));
      ExecsSnoc(ran, stmts[i].sql);
      if !ok {
        SqlOfAppend(stmts[..i + 1], stmts[i + 1..], false);
        assert stmts[..i + 1] + stmts[i + 1..] == stmts;
        assert all == ran + [stmts[i].sql] + SqlOf(stmts[i + 1..], false);
        assert Execs(all)[..|ran|] == Execs(ran) && Execs(all)[|ran|] == Exec(stmts[i].sql);
        StopsAt(h, Execs(all), |ran|, db.a);
        db.Rollback();
        return;
      }
      AllRunSnoc(h, Execs(ran), Exec(stmts[i].sql), db.a);
      ran := ran + [stmts[i].sql];
    }
    assert stmts[..|stmts|] == stmts;
    ok := db.Commit();
    if !ok {
      return;
    }
    ok := RunOutside(db, concurrent);
  }

  lemma NoSql()
    ensures SqlOf([], false) == [] && SqlOf([], true) == [] && Execs([]) == []
  {
  }

  lemma ExecsSnoc(stmts: seq<string>, sql: string)
    ensures Execs(stmts + [sql]) == Execs(stmts) + [Exec(sql)]
  {
  }

  /** All or nothing: the transaction's statements and the bookkeeping row are in the database
      exactly when BEGIN, all of them and COMMIT succeed; otherwise it is as before. */
  lemma AllOrNothing(h: seq<Op>, tx: seq<Op>, record: Op, outside: seq<Op>, a: Answers)
    ensures var ops := tx + [record]; var after := Left(h, ops, outside, a);
      && (h + ops <= after <==> Commits(h, ops, a))
      && (after == h <==> !Commits(h, ops, a))
  {
    hide Commits, RunLength;
    var ops := tx + [record];
    assert |h + ops| > |h|;
  }

  /** The first operation that fails, wherever it is and whatever ran before it, undoes them all. */
  lemma FailureLeavesNothing(h: seq<Op>, ops: seq<Op>, i: nat, outside: seq<Op>, a: Answers)
    requires i < |ops| && AllRun(h, ops[..i], a) && !a.exec(h + ops[..i], ops[i])
    ensures Left(h, ops, outside, a) == h && !Succeeds(h, ops, outside, a)
  {
    StopsAt(h, ops, i, a);
  }

  // ---- a file against a list ----

  /** What a history means to a database that understands statements up to norm and that no
      statement of a migration concerns the bookkeeping table. */
  function Seen(h: seq<Op>, norm: string -> string): seq<string> {
    if h == [] then []
    else Seen(h[..|h| - 1], norm) + match h[|h| - 1] case Exec(sql) => [norm(sql)] case Record(_, _) => []
  }

  /** The answers depend on the meaning of statements and histories only. */
  ghost predicate Indifferent(a: Answers, norm: string -> string) {
    && (forall h, h' :: Seen(h, norm) == Seen(h', norm) ==> a.begin(h) == a.begin(h'))
    && (forall h, h', s, s' :: Seen(h, norm) == Seen(h', norm) && norm(s) == norm(s') ==>
        a.exec(h, Exec(s)) == a.exec(h', Exec(s')))
    && (forall h, h', p, p' :: Seen(h, norm) == Seen(h', norm) && Seen(p, norm) == Seen(p', norm) ==>
        a.commit(h, p) == a.commit(h', p'))
  }

  predicate Alike(x: seq<string>, y: seq<string>, norm: string -> string) {
    |x| == |y| && forall i :: 0 <= i < |x| ==> norm(x[i]) == norm(y[i])
  }

  lemma {:induction false} SeenAppends(h: seq<Op>, ops: seq<Op>, norm: string -> string)
    ensures Seen(h + ops, norm) == Seen(h, norm) + Seen(ops, norm)
    decreases |ops|
  {
    if ops == [] {
      assert h + ops == h;
    } else {
      assert (h + ops)[..|h + ops| - 1] == h + ops[..|ops| - 1];
      SeenAppends(h, ops[..|ops| - 1], norm);
    }
  }

  lemma {:induction false} SeenExecs(x: seq<string>, y: seq<string>, norm: string -> string)
    requires Alike(x, y, norm)
    ensures Seen(Execs(x), norm) == Seen(Execs(y), norm)
    decreases |x|
  {
    if x != [] {
      var n := |x| - 1;
      assert Execs(x)[..n] == Execs(x[..n]) && Execs(y)[..n] == Execs(y[..n]);
      SeenExecs(x[..n], y[..n], norm);
    }
  }

  /** Statements that mean the same run the same after histories that mean the same. */
  lemma {:induction false} RunAlike(h: seq<Op>, h': seq<Op>, x: seq<string>, y: seq<string>, a: Answers,
                                    norm: string -> string)
    requires Indifferent(a, norm) && Alike(x, y, norm) && Seen(h, norm) == Seen(h', norm)
    ensures AllRun(h, Execs(x), a) == AllRun(h', Execs(y), a) && RunLength(h, Execs(x), a) == RunLength(h', Execs(y), a)
    decreases |x|
  {
    hide Indifferent, Seen;
    if x != [] {
      var n := |x| - 1;
      var p, q := Execs(x[..n]), Execs(y[..n]);
      assert Execs(x)[..n] == p && Execs(y)[..n] == q;
      RunAlike(h, h', x[..n], y[..n], a, norm);
      SeenExecs(x[..n], y[..n], norm);
      SeenAppends(h, p, norm);
      SeenAppends(h', q, norm);
      ExecAlike(h + p, h' + q, x[n], y[n], a, norm);
    }
  }

  lemma ExecAlike(h: seq<Op>, h': seq<Op>, s: string, s': string, a: Answers, norm: string -> string)
    requires Indifferent(a, norm) && Seen(h, norm) == Seen(h', norm) && norm(s) == norm(s')
    ensures a.exec(h, Exec(s)) == a.exec(h', Exec(s'))
  {
    hide Seen;
  }

  lemma CommitAlike(h: seq<Op>, p: seq<Op>, p': seq<Op>, a: Answers, norm: string -> string)
    requires Indifferent(a, norm) && Seen(p, norm) == Seen(p', norm)
    ensures a.commit(h, p) == a.commit(h, p')
  {
    hide Seen;
  }

  /** norm does not see a trailing semicolon or white space around the statements. */
  predicate Overlooks(norm: string -> string, stmts: seq<Ddl>) {
    && (forall s <- SqlOf(stmts, false) :: norm(Trim(Body(s))) == norm(s))
    && (forall s <- SqlOf(stmts, true) :: norm(Trim(s)) == norm(s))
  }

  lemma {:induction false} BodiesAlike(tx: seq<string>, norm: string -> string)
    requires forall s <- tx :: norm(Trim(Body(s))) == norm(s)
    ensures Alike(TrimmedBodies(tx), tx, norm)
    decreases |tx|
  {
    hide Trim, Body;
    if tx != [] {
      assert tx[0] in tx;
      BodiesAlike(tx[1..], norm);
      assert TrimmedBodies(tx)[1..] == TrimmedBodies(tx[1..]);
      forall i | 0 <= i < |tx| ensures norm(TrimmedBodies(tx)[i]) == norm(tx[i]) {
        if i > 0 { assert TrimmedBodies(tx)[i] == TrimmedBodies(tx[1..])[i - 1] && tx[i] == tx[1..][i - 1]; }
      }
    }
  }

  lemma {:induction false} TrimmedAlike(stmts: seq<string>, norm: string -> string)
    requires forall s <- stmts :: norm(Trim(s)) == norm(s)
    ensures Alike(TrimmedAll(stmts), stmts, norm)
    decreases |stmts|
  {
    hide Trim;
    if stmts != [] {
      assert stmts[0] in stmts;
      TrimmedAlike(stmts[1..], norm);
      forall i | 0 <= i < |stmts| ensures norm(TrimmedAll(stmts)[i]) == norm(stmts[i]) {
        if i > 0 { assert TrimmedAll(stmts)[i] == TrimmedAll(stmts[1..])[i - 1] && stmts[i] == stmts[1..][i - 1]; }
      }
    }
  }

  /** Applying a generated file commits exactly when applying the list does and the bookkeeping
      row can be inserted; then both leave the same statements in the same order, succeed alike,
      and stop alike at a failing statement outside the transaction. */
  lemma FileAppliesLikeStatements(name: string, checksum: string, stmts: seq<Ddl>, record: Op, h: seq<Op>, a: Answers,
                                  norm: string -> string)
    requires stmts != [] && '\n' !in name && record.Record?
    requires checksum != "" && forall i :: 0 <= i < |checksum| ==> checksum[i] in "0123456789abcdef"
    requires forall s <- SqlOf(stmts, false) :: WellFormedTx(s)
    requires forall s <- SqlOf(stmts, true) :: WellFormedConcurrent(s)
    requires Indifferent(a, norm) && Overlooks(norm, stmts)
    ensures
      var file := ParseFile(UpContent(name, checksum, stmts));
      var fileTx, fileOut := Execs(file.tx), Execs(file.outside);
      var tx, out := Execs(SqlOf(stmts, false)), Execs(SqlOf(stmts, true));
      && (Commits(h, fileTx + [record], a) <==> Commits(h, tx, a) && a.exec(h + fileTx, record))
      && (Commits(h, fileTx + [record], a) ==>
            && Seen(Left(h, fileTx + [record], fileOut, a), norm) == Seen(Left(h, tx, out, a), norm)
            && (Succeeds(h, fileTx + [record], fileOut, a) <==> Succeeds(h, tx, out, a)))
  {
    hide ParseFile, UpContent, WellFormedTx, WellFormedConcurrent, HexDigest, TrimmedBodies, TrimmedAll, SqlOf, Trim,
        Body,
      Indifferent, Seen, AllRun, RunLength;
    FileRunsTheSameStatements(name, checksum, stmts);
    BodiesAlike(SqlOf(stmts, false), norm);
    TrimmedAlike(SqlOf(stmts, true), norm);
    BothRoutes(h, TrimmedBodies(SqlOf(stmts, false)), SqlOf(stmts, false), TrimmedAll(SqlOf(stmts, true)),
        SqlOf(stmts, true), record, a, norm);
  }

  lemma BothRoutes(h: seq<Op>, x: seq<string>, y: seq<string>, outX: seq<string>, outY: seq<string>, record: Op,
                   a: Answers, norm: string -> string)
    requires Indifferent(a, norm) && Alike(x, y, norm) && Alike(outX, outY, norm) && record.Record?
    ensures
      var fileTx, fileOut, tx, out := Execs(x), Execs(outX), Execs(y), Execs(outY);
      && (Commits(h, fileTx + [record], a) <==> Commits(h, tx, a) && a.exec(h + fileTx, record))
      && (Commits(h, fileTx + [record], a) ==>
            && Seen(Left(h, fileTx + [record], fileOut, a), norm) == Seen(Left(h, tx, out, a), norm)
            && (Succeeds(h, fileTx + [record], fileOut, a) <==> Succeeds(h, tx, out, a)))
  {
    hide Indifferent, Seen, AllRun, RunLength, Alike;
    var fileTx, fileOut, tx, out := Execs(x), Execs(outX), Execs(y), Execs(outY);
    RunAlike(h, h, x, y, a, norm);
    AllRunSnoc(h, fileTx, record, a);
    SeenExecs(x, y, norm);
    SeenRecord(fileTx, record, norm);
    CommitAlike(h, fileTx + [record], tx, a, norm);
    SeenAppends(h, fileTx + [record], norm);
    SeenAppends(h, tx, norm);
    RunAlike(h + (fileTx + [record]), h + tx, outX, outY, a, norm);
    var n := RunLength(h + tx, out, a);
    AlikePrefix(outX, outY, n, norm);
    assert fileOut[..n] == Execs(outX[..n]) && out[..n] == Execs(outY[..n]);
    SeenExecs(outX[..n], outY[..n], norm);
    SeenAppends(h + (fileTx + [record]), fileOut[..n], norm);
    SeenAppends(h + tx, out[..n], norm);
  }

  lemma SeenRecord(ops: seq<Op>, record: Op, norm: string -> string)
    requires record.Record?
    ensures Seen(ops + [record], norm) == Seen(ops, norm)
  {
    assert (ops + [record])[..|ops|] == ops;
  }

  lemma AlikePrefix(x: seq<string>, y: seq<string>, n: nat, norm: string -> string)
    requires Alike(x, y, norm) && n <= |x|
    ensures n <= |y| && Alike(x[..n], y[..n], norm)
  {
  }
}
