/** The generated migration file (internal/migration/generator.go) and how the runner reads
    it back (internal/migration/runner.go), against running the same statements directly. */
module MigrationFile {
  import opened Strings
  import opened SqlScript
  import opened SqlResplit

  datatype Ddl = Ddl(sql: string, concurrent: bool)

  const MARKER := "-- Run outside transaction:"

  function SqlOf(stmts: seq<Ddl>, concurrent: bool): seq<string> {
    if stmts == [] then []
    else (if stmts[0].concurrent == concurrent then [stmts[0].sql] else []) + SqlOf(stmts[1..], concurrent)
  }

  // ---- writing the file ----

  function UpParts(stmts: seq<Ddl>): seq<string> {
    var tx, outside := SqlOf(stmts, false), SqlOf(stmts, true);
    (if tx == [] then [] else ["BEGIN;"] + tx + ["COMMIT;"])
    + (if outside == [] then [] else [MARKER] + outside)
  }

  lemma SqlOfSnoc(stmts: seq<Ddl>, i: nat, concurrent: bool)
    requires i < |stmts|
    ensures SqlOf(stmts[..i + 1], concurrent)
         == SqlOf(stmts[..i], concurrent) + if stmts[i].concurrent == concurrent then [stmts[i].sql] else []
  {
    SqlOfAppend(stmts[..i], [stmts[i]], concurrent);
    assert stmts[..i + 1] == stmts[..i] + [stmts[i]];
    assert SqlOf([stmts[i]], concurrent)
        == (if stmts[i].concurrent == concurrent then [stmts[i].sql] else []) + SqlOf([], concurrent);
  }

  lemma {:induction false} SqlOfAppend(a: seq<Ddl>, b: seq<Ddl>, concurrent: bool)
    ensures SqlOf(a + b, concurrent) == SqlOf(a, concurrent) + SqlOf(b, concurrent)
  {
    if a == [] {
      assert a + b == b;
    } else {
      assert (a + b)[1..] == a[1..] + b;
      SqlOfAppend(a[1..], b, concurrent);
    }
  }

  /** buildUpSQL */
  method BuildUpSql(stmts: seq<Ddl>) returns (up: string)
    ensures up == Join(UpParts(stmts), "\n")
  {
    var txStmts: seq<string> := [];
    var concurrentStmts: seq<string> := [];
    for i := 0 to |stmts|
      invariant txStmts == SqlOf(stmts[..i], false) && concurrentStmts == SqlOf(stmts[..i], true)
    {
      SqlOfSnoc(stmts, i, false);
      SqlOfSnoc(stmts, i, true);
      if stmts[i].concurrent {
        concurrentStmts := concurrentStmts + [stmts[i].sql];
      } else {
        txStmts := txStmts + [stmts[i].sql];
      }
    }
    assert stmts[..|stmts|] == stmts;
    var parts: seq<string> := [];
    if |txStmts| > 0 {
      parts := parts + ["BEGIN;"];
      parts := parts + txStmts;
      parts := parts + ["COMMIT;"];
    }
    if |concurrentStmts| > 0 {
      parts := parts + [MARKER];
      parts := parts + concurrentStmts;
    }
    assert parts == UpParts(stmts);
    up := Join(parts, "\n");
  }

  /** The file around the statements; checksum is a hexadecimal digest. */
  function Header(name: string, checksum: string): string {
    "-- Migration: " + name + "\n-- Direction: up\n-- Checksum: " + checksum + "\n\n"
  }

  function UpContent(name: string, checksum: string, stmts: seq<Ddl>): string {
    Header(name, checksum) + Join(UpParts(stmts), "\n") + "\n"
  }

  // ---- reading it back ----

  datatype Parsed = Parsed(tx: seq<string>, outside: seq<string>)

  /** splitConcurrent over lines: those before the first marker, and the trimmed code lines
      after it. */
  function TxLines(lines: seq<string>): seq<string> {
    if lines == [] || Trim(lines[0]) == MARKER then [] else [lines[0]] + TxLines(lines[1..])
  }

  predicate IsCode(line: string) {
    Trim(line) != "" && !HasPrefix(Trim(line), "--")
  }

  function CodeOf(lines: seq<string>): seq<string> {
    if lines == [] then []
    else (if IsCode(lines[0]) then [Trim(lines[0])] else []) + CodeOf(lines[1..])
  }

  function OutsideLines(lines: seq<string>): seq<string> {
    if lines == [] then []
    else if Trim(lines[0]) == MARKER then CodeOf(lines[1..])
    else OutsideLines(lines[1..])
  }

  /** splitConcurrent */
  method SplitConcurrent(content: string) returns (tx: string, outside: seq<string>)
    ensures tx == Join(TxLines(Lines(content)), "\n")
    ensures outside == OutsideLines(Lines(content))
  {
    hide Trim, Lines;
    var lines := Lines(content);
    var txLines: seq<string> := [];
    outside := [];
    var inConcurrent := false;
    assert lines[0..] == lines;
    for i := 0 to |lines|
      invariant !inConcurrent ==> outside == [] && txLines + TxLines(lines[i..]) == TxLines(lines)
      invariant !inConcurrent ==> OutsideLines(lines[i..]) == OutsideLines(lines)
      invariant inConcurrent ==> txLines == TxLines(lines) && outside + CodeOf(lines[i..]) == OutsideLines(lines)
    {
      assert lines[i..][1..] == lines[i + 1..];
      var trimmed := Trim(lines[i]);
      MarkerIsNoCode(lines[i]);
      if trimmed == MARKER {
        inConcurrent := true;
        continue;
      }
      if inConcurrent {
        if trimmed != "" && !HasPrefix(trimmed, "--") {
          outside := outside + [trimmed];
        }
      } else {
        txLines := txLines + [lines[i]];
      }
    }
    assert lines[|lines|..] == [];
    assert txLines + TxLines([]) == txLines && outside + CodeOf([]) == outside;
    tx := Join(txLines, "\n");
  }

  lemma MarkerIsNoCode(line: string)
    ensures Trim(line) == MARKER ==> !IsCode(line)
  {
    assert "--" <= MARKER;
  }

  /** What applyMigration executes: the split statements of the transactional part inside
      the transaction, then the concurrent lines outside it. */
  function ParseFile(content: string): Parsed {
    Parsed(Split(Join(TxLines(Lines(content)), "\n")), OutsideLines(Lines(content)))
  }

  // ---- the round trip ----

  /** A transactional statement that survives: one top-level semicolon, at its very end,
      no line equal to the marker, and something to run. */
  predicate WellFormedTx(sql: string) {
    && sql != "" && Pieces(sql) == [Body(sql), ""]
    && (forall l <- Lines(sql) :: Trim(l) != MARKER)
    && Keeps(Trim(Body(sql)))
  }

  /** That is what a statement is that has no top-level semicolon but its last character, splits into
      itself, and does not contain the marker line. */
  lemma OneStatementIsWellFormed(t: string)
    requires Pieces(t + ";") == [t, ""] && Split(t + ";") != []
    requires forall l <- Lines(t + ";") :: Trim(l) != MARKER
    ensures WellFormedTx(t + ";")
  {
    hide Pieces, Trim, Keeps, Lines;
    assert Body(t + ";") == t;
    assert [t, ""][1..] == [""] && [""][1..] == [];
    assert Statements([t, ""]) == Flushed(t) + (Flushed("") + []);
    EmptyIsDropped();
  }

  lemma EmptyIsDropped()
    ensures Flushed("") == []
  {
    assert Trim("") == "";
  }

  /** A concurrent statement that survives: a single line of code. */
  predicate WellFormedConcurrent(sql: string) {
    '\n' !in sql && IsCode(sql)
  }

  /** The statement without its final semicolon. */
  function Body(sql: string): string {
    if sql == "" then "" else sql[..|sql| - 1]
  }

  function TrimmedBodies(stmts: seq<string>): seq<string> {
    if stmts == [] then [] else [Trim(Body(stmts[0]))] + TrimmedBodies(stmts[1..])
  }

  function TrimmedAll(stmts: seq<string>): seq<string> {
    if stmts == [] then [] else [Trim(stmts[0])] + TrimmedAll(stmts[1..])
  }

  // lines of the file

  lemma {:induction false} TxLinesOfConcat(a: seq<string>, b: seq<string>)
    requires forall l <- a :: Trim(l) != MARKER
    ensures TxLines(a + b) == a + TxLines(b) && OutsideLines(a + b) == OutsideLines(b)
  {
    hide Trim;
    if a == [] {
      assert a + b == b;
    } else {
      assert a[0] in a;
      assert (a + b)[1..] == a[1..] + b;
      TxLinesOfConcat(a[1..], b);
    }
  }

  lemma {:induction false} CodeOfConcurrent(stmts: seq<string>)
    requires stmts != [] && forall s <- stmts :: WellFormedConcurrent(s)
    ensures CodeOf(Lines(Join(stmts, "\n") + "\n")) == TrimmedAll(stmts)
  {
    hide Trim, IsCode, HasPrefix;
    var s := stmts[0];
    assert s in stmts;
    LinesOfOneLine(s);
    if |stmts| == 1 {
      LinesOfConcat(s, "");
      LinesOfOneLine("");
      assert s + "\n" + "" == s + "\n";
      assert [s] + [""] == [s, ""] && [s, ""][1..] == [""] && [""][1..] == [];
      BlankIsNoCode();
      assert CodeOf([""]) == CodeOf([]);
      assert TrimmedAll(stmts[1..]) == [];
    } else {
      var rest := Join(stmts[1..], "\n") + "\n";
      assert Join(stmts, "\n") + "\n" == s + "\n" + rest;
      LinesOfConcat(s, rest);
      assert ([s] + Lines(rest))[1..] == Lines(rest);
      CodeOfConcurrent(stmts[1..]);
    }
  }

  lemma BlankIsNoCode()
    ensures !IsCode("")
  {
  }

  /** A text none of whose lines is the marker. */
  predicate NoMarker(s: string) { forall l <- Lines(s) :: Trim(l) != MARKER }

  lemma NoMarkerConcat(a: string, b: string)
    requires NoMarker(a) && NoMarker(b)
    ensures NoMarker(a + "\n" + b)
  {
    LinesOfConcat(a, b);
  }

  lemma {:induction false} NoMarkerJoin(parts: seq<string>)
    requires parts != [] && forall p <- parts :: NoMarker(p)
    ensures NoMarker(Join(parts, "\n"))
  {
    assert parts[0] in parts;
    if |parts| > 1 {
      NoMarkerJoin(parts[1..]);
      NoMarkerConcat(parts[0], Join(parts[1..], "\n"));
    }
  }

  /** A line of code or comment, written without white space around it. */
  lemma ShortLine(s: string)
    requires '\n' !in s && Trimmed(s) && s != MARKER
    ensures NoMarker(s)
  {
    LinesOfOneLine(s);
    TrimOfTrimmed(s);
  }

  /** A comment line that differs from the marker in its fourth character. */
  lemma OtherCommentIsNotMarker(p: string, rest: string)
    requires |p| >= 4 && p[0] == '-' && p[3] != 'R' && '\n' !in p + rest
    ensures NoMarker(p + rest)
  {
    var s := p + rest;
    LinesOfOneLine(s);
    assert TrimLeft(s) == s;
    TrimRightSplits(s);
    assert s[3] == p[3] && MARKER[3] == 'R';
  }

  // the statements of the transactional part

  predicate Comment(c: string) { HasPrefix(c, "--") && '\n' !in c }

  lemma CommentTrims(c: string)
    requires Comment(c)
    ensures HasPrefix(Trim(c), "--") && Trim(c) != ""
  {
    assert c[0] == '-' && c[1] == '-';
    assert TrimLeft(c) == c;
    TrimRightSplits(c);
    var n := |TrimRight(c)|;
    assert n >= 2 by {
      forall i | n <= i < |c| ensures IsSpace(c[i]) {
        assert c[i] == c[n..][i - n];
        assert c[i] in c[n..];
      }
    }
  }

  /** A comment line is read over. */
  lemma CommentIsQuiet(c: string, rest: string, n: nat)
    requires Comment(c) && Quiet(rest, n)
    ensures Quiet(c + "\n" + rest, |c| + 1 + n)
  {
    hide Quiet, IsSpace;
    CommentElement(c, rest);
    NewlineBreaks();
    SkipSpace("\n", rest, n);
    QuietStep(c + "\n" + rest, 1 + n);
  }

  lemma QuietStep(s: string, n: nat)
    requires s != [] && s[0] != ';' && Quiet(s[ElementLen(s)..], n)
    ensures Quiet(s, ElementLen(s) + n)
  {
    hide ElementLen;
  }

  lemma CommentElement(c: string, rest: string)
    requires Comment(c)
    ensures ElementLen(c + "\n" + rest) == |c| && (c + "\n" + rest)[|c|..] == "\n" + rest
    ensures (c + "\n" + rest)[0] == '-'
  {
    var s := c + "\n" + rest;
    assert s == c + ("\n" + rest);
    IndexInPrefix(c, "\n" + rest, '\n');
    assert c[..2] == "--" && s[0] == c[0] && s[1] == c[1];
  }

  predicate Capitals(word: string) {
    forall i :: 0 <= i < |word| ==> 'A' <= word[i] <= 'Z'
  }

  lemma {:induction false} WordIsQuiet(word: string, rest: string)
    requires Capitals(word)
    ensures Quiet(word + rest, |word|)
  {
    hide IsSpace;
    if word != [] {
      CutConcat(word, rest, 1);
      WordIsQuiet(word[1..], rest);
    }
  }

  /** BEGIN and COMMIT, with the comment lines before them, are dropped. */
  lemma {:induction false} CodeLinesOf(comments: seq<string>, code: string)
    requires forall c <- comments :: c == "" || Comment(c)
    requires Trim(code) == code && code != "" && !HasPrefix(code, "--")
    ensures CodeLines(comments + [code]) == [code]
  {
    hide Trim, HasPrefix, Comment;
    if comments == [] {
      assert [code][1..] == [] && comments + [code] == [code];
      assert CodeLines([code]) == [code] + CodeLines([]);
    } else {
      var c := comments[0];
      assert c in comments;
      assert (comments + [code])[1..] == comments[1..] + [code];
      assert c == "" ==> Trim(c) == "" by { EmptyTrims(); }
      if c != "" { CommentTrims(c); }
      CodeLinesOf(comments[1..], code);
    }
  }

  lemma EmptyTrims()
    ensures Trim("") == ""
  {
  }

  function NameLine(name: string): string { "-- Migration: " + name }

  function DirectionLine(): string { "-- Direction: up" }

  function ChecksumLine(checksum: string): string { "-- Checksum: " + checksum }

  function HeaderLines(name: string, checksum: string): string {
    NameLine(name) + "\n" + DirectionLine() + "\n" + ChecksumLine(checksum)
  }

  predicate HexDigest(checksum: string) {
    checksum != "" && forall i :: 0 <= i < |checksum| ==> '0' <= checksum[i] <= '9' || 'a' <= checksum[i] <= 'f'
  }

  lemma IsHexDigest(checksum: string)
    requires checksum != "" && forall i :: 0 <= i < |checksum| ==> checksum[i] in "0123456789abcdef"
    ensures HexDigest(checksum)
  {
  }

  lemma HeaderComments(name: string, checksum: string)
    requires '\n' !in name && HexDigest(checksum)
    ensures Comment(NameLine(name)) && Comment(DirectionLine()) && Comment(ChecksumLine(checksum))
    ensures NoMarker(NameLine(name)) && NoMarker(DirectionLine()) && NoMarker(ChecksumLine(checksum))
  {
    hide NoMarker;
    assert NameLine(name)[..2] == "--" && ChecksumLine(checksum)[..2] == "--";
    OtherCommentIsNotMarker("-- Migration: ", name);
    OtherCommentIsNotMarker("-- Direction: up", "");
    assert DirectionLine() + "" == DirectionLine();
    OtherCommentIsNotMarker("-- Checksum: ", checksum);
  }

  lemma LinesOfHeader(name: string, checksum: string)
    requires '\n' !in name && HexDigest(checksum)
    ensures Lines(HeaderLines(name, checksum)) == [NameLine(name), DirectionLine(), ChecksumLine(checksum)]
  {
    hide NameLine, DirectionLine, ChecksumLine, HexDigest, Lines, NoMarker;
    HeaderComments(name, checksum);
    var a, b, c := NameLine(name), DirectionLine(), ChecksumLine(checksum);
    LinesOfOneLine(a);
    LinesOfOneLine(b);
    LinesOfOneLine(c);
    LinesOfConcat(a, b);
    LinesOfConcat(a + "\n" + b, c);
  }

  lemma HeaderIsQuiet(name: string, checksum: string, rest: string, n: nat)
    requires '\n' !in name && HexDigest(checksum) && Quiet(rest, n)
    ensures Quiet(HeaderLines(name, checksum) + "\n" + rest, |HeaderLines(name, checksum)| + 1 + n)
  {
    hide Quiet, NameLine, DirectionLine, ChecksumLine, HexDigest, NoMarker, Comment;
    HeaderComments(name, checksum);
    var a, b, c := NameLine(name), DirectionLine(), ChecksumLine(checksum);
    CommentIsQuiet(c, rest, n);
    CommentIsQuiet(b, c + "\n" + rest, |c| + 1 + n);
    CommentIsQuiet(a, b + "\n" + (c + "\n" + rest), |b| + 1 + (|c| + 1 + n));
    assert a + "\n" + (b + "\n" + (c + "\n" + rest)) == HeaderLines(name, checksum) + "\n" + rest;
  }

  lemma {:induction false} ToUpperOfUpper(s: string)
    requires Capitals(s)
    ensures ToUpper(s) == s
  {
    if s != [] {
      ToUpperOfUpper(s[1..]);
    }
  }

  lemma HeaderTrims(name: string, checksum: string)
    requires HexDigest(checksum)
    ensures HeaderLines(name, checksum) != "" && Trimmed(HeaderLines(name, checksum))
  {
    var h := HeaderLines(name, checksum);
    assert h[0] == NameLine(name)[0] == '-';
    assert h[|h| - 1] == ChecksumLine(checksum)[|ChecksumLine(checksum)| - 1] == checksum[|checksum| - 1];
  }

  /** The first piece: the header and BEGIN. */
  lemma BeginIsDropped(name: string, checksum: string, rest: string)
    requires '\n' !in name && HexDigest(checksum)
    ensures Split(HeaderLines(name, checksum) + "\n\nBEGIN;" + rest) == Split(rest)
  {
    hide Split, Quiet, HeaderLines, NameLine, DirectionLine, ChecksumLine, HexDigest, NoMarker, Comment, Trim,
        CodeLines, Lines, ToUpper;
    NewlineBreaks();
    var h := HeaderLines(name, checksum);
    var s := h + "\n\nBEGIN;" + rest;
    var tail := "\n" + ("BEGIN" + (";" + rest));
    assert s == h + "\n" + tail;
    WordIsQuiet("BEGIN", ";" + rest);
    SkipSpace("\n", "BEGIN" + (";" + rest), 5);
    HeaderIsQuiet(name, checksum, tail, 6);
    var n := |h| + 7;
    SplitAt(s, n);
    assert s[..n] == h + "\n" + ("" + "\n" + "BEGIN") && s[n + 1..] == rest;
    HeaderTrims(name, checksum);
    assert s[..n][0] == h[0] && s[..n][n - 1] == 'N';
    TrimOfTrimmed(s[..n]);
    LinesOfHeader(name, checksum);
    HeaderComments(name, checksum);
    LinesOfOneLine("");
    LinesOfOneLine("BEGIN");
    LinesOfConcat("", "BEGIN");
    LinesOfConcat(h, "" + "\n" + "BEGIN");
    var comments := Lines(h) + [""];
    assert Lines(s[..n]) == comments + ["BEGIN"];
    TrimOfTrimmed("BEGIN");
    CodeLinesOf(comments, "BEGIN");
    ToUpperOfUpper("BEGIN");
    assert Join(["BEGIN"], " ") == "BEGIN";
  }

  lemma CommitIsDropped(tail: string)
    requires AllSpace(tail)
    ensures Split("\nCOMMIT;" + tail) == []
  {
    hide Quiet, Trim, CodeLines, Lines, ToUpper, Pieces;
    var s := "\nCOMMIT;" + tail;
    WordIsQuiet("COMMIT", ";" + tail);
    assert s == "\n" + ("COMMIT" + (";" + tail));
    SkipSpace("\n", "COMMIT" + (";" + tail), 6);
    SplitAt(s, 7);
    assert s[..7] == "\n" + "COMMIT" + "" && s[8..] == tail;
    TrimIgnores("\n", "COMMIT", "");
    TrimOfTrimmed("COMMIT");
    LinesOfOneLine("COMMIT");
    CodeLinesOf([], "COMMIT");
    assert [] + ["COMMIT"] == ["COMMIT"];
    ToUpperOfUpper("COMMIT");
    assert Join(["COMMIT"], " ") == "COMMIT";
    SpaceIsDropped(tail);
  }

  lemma SpaceIsDropped(tail: string)
    requires AllSpace(tail)
    ensures Split(tail) == []
  {
    hide Pieces;
    SkipSpace(tail, "", 0);
    assert tail + "" == tail;
    PiecesAfterQuiet(tail, |tail|);
    assert tail[..|tail|] == tail && tail[|tail|..] == [];
    FlushLast(tail);
    TrimIgnores(tail, "", "");
    assert tail + "" + "" == tail;
    EmptyTrims();
  }

  /** One statement of the transactional part. */
  lemma StatementSplits(sql: string, rest: string)
    requires WellFormedTx(sql)
    ensures Split("\n" + sql + rest) == [Trim(Body(sql))] + Split(rest)
  {
    hide Split, Quiet, Trim, Keeps, Pieces, Lines;
    var u := Body(sql);
    FirstPiece(sql);
    assert sql == u + ";" by { assert sql == u + [sql[|sql| - 1]]; }
    QuietBeforeSemicolon(u, rest);
    var s := "\n" + sql + rest;
    assert s == "\n" + (u + ";" + rest);
    SkipSpace("\n", u + ";" + rest, |u|);
    SplitAt(s, |u| + 1);
    assert s[..|u| + 1] == "\n" + u + "" && s[|u| + 2..] == rest;
    TrimIgnores("\n", u, "");
  }

  lemma {:induction false} StatementsSplit(tx: seq<string>, tail: string)
    requires tx != [] && (forall s <- tx :: WellFormedTx(s)) && AllSpace(tail)
    ensures Split("\n" + Join(tx, "\n") + "\nCOMMIT;" + tail) == TrimmedBodies(tx)
  {
    hide Split, Trim, WellFormedTx;
    assert tx[0] in tx;
    if |tx| == 1 {
      var rest := "\nCOMMIT;" + tail;
      StatementSplits(tx[0], rest);
      CommitIsDropped(tail);
      assert "\n" + tx[0] + rest == "\n" + Join(tx, "\n") + "\nCOMMIT;" + tail;
      assert tx[1..] == [];
    } else {
      var rest := "\n" + Join(tx[1..], "\n") + "\nCOMMIT;" + tail;
      StatementSplits(tx[0], rest);
      StatementsSplit(tx[1..], tail);
      assert "\n" + tx[0] + rest == "\n" + Join(tx, "\n") + "\nCOMMIT;" + tail;
    }
  }

  lemma NothingIsQuiet()
    ensures Quiet("", 0)
  {
  }

  /** A file without transactional statements: the header alone runs nothing. */
  lemma HeaderRunsNothing(name: string, checksum: string)
    requires '\n' !in name && HexDigest(checksum)
    ensures Split(HeaderLines(name, checksum) + "\n") == []
  {
    hide Quiet, HeaderLines, NameLine, DirectionLine, ChecksumLine, HexDigest, NoMarker, Comment, Trim, CodeLines,
        Lines, ToUpper, Pieces, HasPrefix;
    NewlineBreaks();
    var h := HeaderLines(name, checksum);
    var s := h + "\n";
    NothingIsQuiet();
    HeaderIsQuiet(name, checksum, "", 0);
    assert s + "" == s;
    PiecesAfterQuiet(s, |s|);
    assert s[..|s|] == s && s[|s|..] == [];
    FlushLast(s);
    TrimIgnores("", h, "\n");
    assert "" + h + "\n" == s;
    HeaderTrims(name, checksum);
    TrimOfTrimmed(h);
    LinesOfHeader(name, checksum);
    HeaderComments(name, checksum);
    forall line | line in Lines(h) ensures HasPrefix(Trim(line), "--") {
      CommentTrims(line);
    }
  }

  // the whole file

  lemma HeaderHasNoMarker(name: string, checksum: string)
    requires '\n' !in name && HexDigest(checksum)
    ensures NoMarker(HeaderLines(name, checksum) + "\n")
  {
    hide NoMarker, NameLine, DirectionLine, ChecksumLine, HexDigest, Comment;
    HeaderComments(name, checksum);
    var a, b, c := NameLine(name), DirectionLine(), ChecksumLine(checksum);
    ShortLine("");
    NoMarkerConcat(a, b);
    NoMarkerConcat(a + "\n" + b, c);
    NoMarkerConcat(HeaderLines(name, checksum), "");
    assert HeaderLines(name, checksum) + "\n" + "" == HeaderLines(name, checksum) + "\n";
  }

  lemma TxPartHasNoMarker(tx: seq<string>)
    requires forall s <- tx :: WellFormedTx(s)
    ensures NoMarker(Join(["BEGIN;"] + tx + ["COMMIT;"], "\n"))
  {
    hide NoMarker;
    var parts := ["BEGIN;"] + tx + ["COMMIT;"];
    ShortLine("BEGIN;");
    ShortLine("COMMIT;");
    forall p | p in parts ensures NoMarker(p) {
      if p in tx {
        WellFormedHasNoMarker(p);
      }
    }
    NoMarkerJoin(parts);
  }

  lemma WellFormedHasNoMarker(sql: string)
    requires WellFormedTx(sql)
    ensures NoMarker(sql)
  {
  }

  /** splitConcurrent on a text before the marker and concurrent statements after it. */
  lemma SplitsAtMarker(before: string, outside: seq<string>)
    requires NoMarker(before) && outside != [] && forall s <- outside :: WellFormedConcurrent(s)
    ensures var lines := Lines(before + "\n" + MARKER + "\n" + Join(outside, "\n") + "\n");
            Join(TxLines(lines), "\n") == before && OutsideLines(lines) == TrimmedAll(outside)
  {
    hide Trim, Lines, WellFormedConcurrent;
    var rest := Join(outside, "\n") + "\n";
    var content := before + "\n" + MARKER + "\n" + Join(outside, "\n") + "\n";
    assert content == before + "\n" + (MARKER + "\n" + rest);
    LinesOfConcat(before, MARKER + "\n" + rest);
    LinesOfConcat(MARKER, rest);
    LinesOfOneLine(MARKER);
    TrimOfTrimmed(MARKER);
    var tail := [MARKER] + Lines(rest);
    assert tail[1..] == Lines(rest);
    TxLinesOfConcat(Lines(before), tail);
    assert Lines(before) + TxLines(tail) == Lines(before);
    JoinOfLines(before);
    CodeOfConcurrent(outside);
  }

  lemma NothingAfterMarker(content: string)
    requires NoMarker(content)
    ensures Join(TxLines(Lines(content)), "\n") == content && OutsideLines(Lines(content)) == []
  {
    hide Trim, Lines;
    TxLinesOfConcat(Lines(content), []);
    assert Lines(content) + [] == Lines(content);
    JoinOfLines(content);
  }

  lemma FramedText(tx: seq<string>)
    requires tx != []
    ensures Join(["BEGIN;"] + tx + ["COMMIT;"], "\n") == "BEGIN;" + "\n" + Join(tx, "\n") + "\nCOMMIT;"
  {
    JoinOfConcat(["BEGIN;"], tx, "\n");
    JoinOfConcat(["BEGIN;"] + tx, ["COMMIT;"], "\n");
  }

  lemma TxPartSplits(name: string, checksum: string, tx: seq<string>, tail: string)
    requires '\n' !in name && HexDigest(checksum) && AllSpace(tail)
    requires tx != [] && forall s <- tx :: WellFormedTx(s)
    ensures Split(HeaderLines(name, checksum) + "\n\n" + Join(["BEGIN;"] + tx + ["COMMIT;"], "\n") + tail)
        == TrimmedBodies(tx)
  {
    hide Split, HeaderLines, WellFormedTx, TrimmedBodies;
    hide Join;
    var h := HeaderLines(name, checksum);
    var rest := "\n" + Join(tx, "\n") + "\nCOMMIT;" + tail;
    FramedText(tx);
    BeginIsDropped(name, checksum, rest);
    StatementsSplit(tx, tail);
    assert h + "\n\n" + Join(["BEGIN;"] + tx + ["COMMIT;"], "\n") + tail == h + "\n\nBEGIN;" + rest;
  }

  lemma OnlyConcurrent(name: string, checksum: string, outside: seq<string>)
    requires '\n' !in name && HexDigest(checksum)
    requires outside != [] && forall s <- outside :: WellFormedConcurrent(s)
    ensures ParseFile(HeaderLines(name, checksum) + "\n\n" + Join([MARKER] + outside, "\n") + "\n")
         == Parsed([], TrimmedAll(outside))
  {
    hide Split, Lines, HeaderLines, HexDigest, WellFormedConcurrent, NoMarker, Join, TrimmedAll, TxLines, OutsideLines;
    var h := HeaderLines(name, checksum);
    HeaderHasNoMarker(name, checksum);
    JoinMarker(outside);
    SplitsAtMarker(h + "\n", outside);
    assert h + "\n\n" + Join([MARKER] + outside, "\n") + "\n"
        == h + "\n" + "\n" + MARKER + "\n" + Join(outside, "\n") + "\n";
    HeaderRunsNothing(name, checksum);
  }

  lemma OnlyTransactional(name: string, checksum: string, tx: seq<string>)
    requires '\n' !in name && HexDigest(checksum)
    requires tx != [] && forall s <- tx :: WellFormedTx(s)
    ensures ParseFile(HeaderLines(name, checksum) + "\n\n" + Join(["BEGIN;"] + tx + ["COMMIT;"], "\n") + "\n")
         == Parsed(TrimmedBodies(tx), [])
  {
    hide Split, Lines, HeaderLines, HexDigest, WellFormedTx, NoMarker, Join, TrimmedBodies, TxLines, OutsideLines;
    var before := TxText(name, checksum, tx);
    BeforeMarker(name, checksum, tx);
    ShortLine("");
    NoMarkerConcat(before, "");
    assert before + "\n" + "" == before + "\n";
    NothingAfterMarker(before + "\n");
    NewlineBreaks();
    TxPartSplits(name, checksum, tx, "\n");
  }

  function TxText(name: string, checksum: string, tx: seq<string>): string {
    HeaderLines(name, checksum) + "\n\n" + Join(["BEGIN;"] + tx + ["COMMIT;"], "\n")
  }

  lemma BeforeMarker(name: string, checksum: string, tx: seq<string>)
    requires '\n' !in name && HexDigest(checksum) && forall s <- tx :: WellFormedTx(s)
    ensures NoMarker(TxText(name, checksum, tx))
  {
    hide HeaderLines, HexDigest, WellFormedTx, NoMarker, Join;
    var h, txText := HeaderLines(name, checksum), Join(["BEGIN;"] + tx + ["COMMIT;"], "\n");
    HeaderHasNoMarker(name, checksum);
    TxPartHasNoMarker(tx);
    NoMarkerConcat(h + "\n", txText);
    assert h + "\n" + "\n" + txText == TxText(name, checksum, tx);
  }

  lemma BothParts(name: string, checksum: string, tx: seq<string>, outside: seq<string>)
    requires '\n' !in name && HexDigest(checksum)
    requires tx != [] && forall s <- tx :: WellFormedTx(s)
    requires outside != [] && forall s <- outside :: WellFormedConcurrent(s)
    ensures ParseFile(HeaderLines(name, checksum) + "\n\n" +
        Join(["BEGIN;"] + tx + ["COMMIT;"] + ([MARKER] + outside), "\n") + "\n")
         == Parsed(TrimmedBodies(tx), TrimmedAll(outside))
  {
    hide Split, Lines, HeaderLines, HexDigest, WellFormedTx, WellFormedConcurrent, NoMarker, Join, TrimmedBodies,
        TrimmedAll, TxLines, OutsideLines;
    var before := TxText(name, checksum, tx);
    BeforeMarker(name, checksum, tx);
    JoinMarker(outside);
    JoinOfConcat(["BEGIN;"] + tx + ["COMMIT;"], [MARKER] + outside, "\n");
    assert HeaderLines(name, checksum) + "\n\n" + Join(["BEGIN;"] + tx + ["COMMIT;"] + ([MARKER] + outside), "\n") +
        "\n"
        == before + "\n" + MARKER + "\n" + Join(outside, "\n") + "\n";
    SplitsAtMarker(before, outside);
    TxPartSplits(name, checksum, tx, "");
    assert before + "" == before;
  }

  /** Running a generated file executes the statements ApplyStatements executes on the
      original list, in the same order inside and outside the transaction: the
      transactional ones without their final semicolon, all of them trimmed. */
  lemma FileRunsTheSameStatements(name: string, checksum: string, stmts: seq<Ddl>)
    requires stmts != [] && '\n' !in name
    requires checksum != "" && forall i :: 0 <= i < |checksum| ==> checksum[i] in "0123456789abcdef"
    requires forall s <- SqlOf(stmts, false) :: WellFormedTx(s)
    requires forall s <- SqlOf(stmts, true) :: WellFormedConcurrent(s)
    ensures ParseFile(UpContent(name, checksum, stmts))
         == Parsed(TrimmedBodies(SqlOf(stmts, false)), TrimmedAll(SqlOf(stmts, true)))
  {
    IsHexDigest(checksum);
    hide ParseFile, Header, HeaderLines, HexDigest, WellFormedTx, WellFormedConcurrent, Join;
    var tx, outside := SqlOf(stmts, false), SqlOf(stmts, true);
    HeaderText(name, checksum);
    EmptyBodies();
    if tx == [] {
      NoStatementsLeft(stmts);
      assert UpParts(stmts) == [MARKER] + outside;
      OnlyConcurrent(name, checksum, outside);
    } else if outside == [] {
      assert UpParts(stmts) == ["BEGIN;"] + tx + ["COMMIT;"];
      OnlyTransactional(name, checksum, tx);
    } else {
      BothParts(name, checksum, tx, outside);
    }
  }

  lemma HeaderText(name: string, checksum: string)
    ensures Header(name, checksum) == HeaderLines(name, checksum) + "\n\n"
  {
  }

  lemma JoinMarker(outside: seq<string>)
    requires outside != []
    ensures Join([MARKER] + outside, "\n") == MARKER + "\n" + Join(outside, "\n")
  {
    assert ([MARKER] + outside)[1..] == outside;
  }

  lemma EmptyBodies()
    ensures TrimmedBodies([]) == [] && TrimmedAll([]) == []
  {
  }

  lemma NoStatementsLeft(stmts: seq<Ddl>)
    requires stmts != [] && SqlOf(stmts, false) == []
    ensures SqlOf(stmts, true) != []
  {
  }
}
