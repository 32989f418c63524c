/** Splitting a SQL script into statements (internal/migration/split.go). Lexing is
    defined on the text still to be read: ElementLen is the length of the comment, quoted
    string, dollar-quoted body or single character at its start. */
module SqlScript {
  import Basics
  import opened Strings

  // ---- lexical elements ----

  /** "-- …" up to, not including, the end of the line. */
  function LineCommentLen(s: string): (n: nat)
    ensures n <= |s|
  {
    IndexOfChar(s, '\n')
  }

  /** Block comment through the first closing mark, or the rest of the text. */
  function BlockCommentLen(s: string): (n: nat)
    requires |s| >= 2
    ensures 2 <= n <= |s|
  {
    var k := Find(s[2..], "*/");
    if k < 0 then |s| else k + 4
  }

  /** Characters of a quoted string after its opening quote q, closing quote included: a
      doubled quote and, except in double quotes, a backslash escape are skipped. */
  function QuotedLen(s: string, q: char): (n: nat)
    ensures n <= |s|
  {
    if s == [] then 0
    else if s[0] == q then
      if |s| > 1 && s[1] == q then 2 + QuotedLen(s[2..], q) else 1
    else if s[0] == '\\' && q != '"' then
      if |s| == 1 then 1 else 2 + QuotedLen(s[2..], q)
    else 1 + QuotedLen(s[1..], q)
  }

  predicate TagChar(c: char, first: bool) {
    c == '_' || 'a' <= c <= 'z' || 'A' <= c <= 'Z' || (!first && '0' <= c <= '9')
  }

  function TagLen(s: string, first: bool): (n: nat)
    ensures n <= |s|
    ensures forall i :: 0 <= i < n ==> TagChar(s[i], first && i == 0)
    ensures n < |s| ==> !TagChar(s[n], first && n == 0)
  {
    if s == [] || !TagChar(s[0], first) then 0 else 1 + TagLen(s[1..], false)
  }

  /** $tag$ … $tag$, or just the dollar sign when no tag follows (a $1 placeholder). */
  function DollarLen(s: string): (n: nat)
    requires s != []
    ensures 1 <= n <= |s|
  {
    var j := 1 + TagLen(s[1..], true);
    if j < |s| && s[j] == '$' then
      var tag := s[..j + 1];
      var k := Find(s[j + 1..], tag);
      if k < 0 then |s| else j + 1 + k + |tag|
    else 1
  }

  predicate IsQuote(c: char) { c == '\'' || c == '"' || c == '`' }

  predicate IsLineComment(s: string) { |s| >= 2 && s[0] == '-' && s[1] == '-' }

  predicate IsBlockComment(s: string) { |s| >= 2 && s[0] == '/' && s[1] == '*' }

  function ElementLen(s: string): (n: nat)
    requires s != []
    ensures 1 <= n <= |s|
  {
    if IsLineComment(s) then LineCommentLen(s)
    else if IsBlockComment(s) then BlockCommentLen(s)
    else if IsQuote(s[0]) then 1 + QuotedLen(s[1..], s[0])
    else if s[0] == '$' then DollarLen(s)
    else 1
  }

  // ---- pieces between top-level semicolons ----

  function Prepend(head: string, pieces: seq<string>): (r: seq<string>)
    requires pieces != []
    ensures |r| == |pieces|
  {
    [head + pieces[0]] + pieces[1..]
  }

  function Pieces(s: string): (r: seq<string>)
    ensures r != []
    decreases |s|
  {
    if s == [] then [""]
    else if s[0] == ';' then [""] + Pieces(s[1..])
    else
      var n := ElementLen(s);
      Prepend(s[..n], Pieces(s[n..]))
  }

  predicate OnlyComments(stmt: string) {
    forall line <- Lines(stmt) :: var l := Trim(line); l == "" || HasPrefix(l, "--")
  }

  /** strings.ToUpper on the characters whose upper case is an ASCII letter. */
  function Upper(c: char): char {
    if 'a' <= c <= 'z' then (c as int - 32) as char
    else if c as int == 0x131 then 'I'
    else if c as int == 0x17F then 'S'
    else c
  }

  function ToUpper(s: string): (r: string)
    ensures |r| == |s|
  {
    if s == [] then [] else [Upper(s[0])] + ToUpper(s[1..])
  }

  /** The lines that hold something besides a comment, trimmed. */
  function CodeLines(lines: seq<string>): seq<string> {
    if lines == [] then []
    else
      var l := Trim(lines[0]);
      (if l != "" && !HasPrefix(l, "--") then [l] else []) + CodeLines(lines[1..])
  }

  predicate IsTxControl(stmt: string) {
    ToUpper(Join(CodeLines(Lines(stmt)), " ")) in
      ["BEGIN", "BEGIN TRANSACTION", "START TRANSACTION", "COMMIT", "END", "ROLLBACK"]
  }

  /** What flush keeps of one piece. */
  predicate Keeps(stmt: string) {
    stmt != "" && !OnlyComments(stmt) && !IsTxControl(stmt)
  }

  function Flushed(piece: string): seq<string> {
    if Keeps(Trim(piece)) then [Trim(piece)] else []
  }

  function Statements(pieces: seq<string>): seq<string> {
    if pieces == [] then [] else Flushed(pieces[0]) + Statements(pieces[1..])
  }

  function Split(script: string): seq<string> { Statements(Pieces(script)) }

  // ---- the source's scan ----

  method ScanQuoted(script: string, i: nat) returns (end: nat)
    requires i < |script| && IsQuote(script[i])
    ensures end == i + 1 + QuotedLen(script[i + 1..], script[i])
  {
    var n, c := |script|, script[i];
    var j := i + 1;
    while j < n
      invariant i + 1 <= j <= n + 1
      invariant i + 1 + QuotedLen(script[i + 1..], c) == if j > n then n else j + QuotedLen(script[j..], c)
      decreases n - j
    {
      assert |script[j..]| > 1 ==> script[j..][1] == script[j + 1];
      assert script[j..][1..] == script[j + 1..];
      if script[j] == c {
        if j + 1 < n && script[j + 1] == c {
          assert script[j..][2..] == script[j + 2..];
          j := j + 2;
          continue;
        }
        break;
      }
      if script[j] == '\\' && c != '"' {
        assert j + 2 <= n ==> script[j..][2..] == script[j + 2..];
        j := j + 1;
      }
      j := j + 1;
    }
    end := Basics.Min(j + 1, n);
  }

  method ScanDollar(script: string, i: nat) returns (end: nat)
    requires i < |script| && script[i] == '$'
    ensures end == i + DollarLen(script[i..])
  {
    hide TagChar, OccursAt;
    var n := |script|;
    var j := i + 1;
    assert script[i..][1..] == script[i + 1..];
    while j < n && TagChar(script[j], j == i + 1)
      invariant i + 1 <= j <= n
      invariant 1 + TagLen(script[i + 1..], true) == j - i + TagLen(script[j..], j == i + 1)
    {
      assert script[j..][1..] == script[j + 1..];
      j := j + 1;
    }
    if j < n && script[j] == '$' {
      var tag := script[i..j + 1];
      assert tag == script[i..][..j - i + 1] && script[i..][j - i + 1..] == script[j + 1..];
      var k := Find(script[j + 1..], tag);
      end := if k >= 0 then j + 1 + k + |tag| else n;
    } else {
      end := i + 1;
    }
  }

  /** The end of the element at i; the scan copies script[i..end] to the current piece. */
  method ScanElement(script: string, i: nat) returns (end: nat)
    requires i < |script|
    ensures end == i + ElementLen(script[i..])
  {
    var n := |script|;
    if script[i] == '-' && i + 1 < n && script[i + 1] == '-' {
      end := i + IndexOfChar(script[i..], '\n');
    } else if script[i] == '/' && i + 1 < n && script[i + 1] == '*' {
      assert script[i..][2..] == script[i + 2..];
      var k := Find(script[i + 2..], "*/");
      end := if k >= 0 then i + 2 + k + 2 else n;
    } else if IsQuote(script[i]) {
      end := ScanQuoted(script, i);
      assert script[i..][1..] == script[i + 1..];
    } else if script[i] == '$' {
      end := ScanDollar(script, i);
    } else {
      end := i + 1;
    }
  }

  /** onlyComments */
  method HasOnlyComments(stmt: string) returns (only: bool)
    ensures only <==> OnlyComments(stmt)
  {
    hide Trim;
    var lines := Lines(stmt);
    for i := 0 to |lines|
      invariant forall k :: 0 <= k < i ==> Trim(lines[k]) == "" || HasPrefix(Trim(lines[k]), "--")
    {
      var l := Trim(lines[i]);
      if l != "" && !HasPrefix(l, "--") {
        assert lines[i] in lines;
        return false;
      }
    }
    only := true;
  }

  /** isTxControl */
  method ControlsTx(stmt: string) returns (control: bool)
    ensures control <==> IsTxControl(stmt)
  {
    hide Trim, Lines, Join, ToUpper, HasPrefix;
    var lines := Lines(stmt);
    var code: seq<string> := [];
    assert lines[0..] == lines && [] + CodeLines(lines) == CodeLines(lines);
    for i := 0 to |lines|
      invariant code + CodeLines(lines[i..]) == CodeLines(lines)
    {
      var l := Trim(lines[i]);
      assert lines[i..][0] == lines[i] && lines[i..][1..] == lines[i + 1..];
      if l != "" && !HasPrefix(l, "--") {
        assert code + ([l] + CodeLines(lines[i + 1..])) == (code + [l]) + CodeLines(lines[i + 1..]);
        code := code + [l];
      } else {
        assert code + ([] + CodeLines(lines[i + 1..])) == code + CodeLines(lines[i + 1..]);
      }
    }
    assert lines[|lines|..] == [] && code + [] == code;
    match ToUpper(Join(code, " "))
    case "BEGIN" => return true;
    case "BEGIN TRANSACTION" => return true;
    case "START TRANSACTION" => return true;
    case "COMMIT" => return true;
    case "END" => return true;
    case "ROLLBACK" => return true;
    case _ => return false;
  }

  /** flush: what the piece read so far adds to the statements. */
  method Flush(cur: string) returns (stmts: seq<string>)
    ensures stmts == Flushed(cur)
  {
    hide Trim, OnlyComments, IsTxControl;
    var stmt := Trim(cur);
    if stmt == "" {
      return [];
    }
    var only := HasOnlyComments(stmt);
    var control := ControlsTx(stmt);
    if only || control {
      return [];
    }
    stmts := [stmt];
  }

  /** SplitStatements: the scan keeps in cur the piece read so far. */
  method SplitStatements(script: string) returns (out: seq<string>)
    ensures out == Split(script)
  {
    hide Split, Pending, ElementLen, Flushed, Pieces;
    out := [];
    var cur: string := "";
    var n := |script|;
    var i := 0;
    assert script[0..] == script;
    SplitIsPending(script);
    assert out + Pending(cur, script) == Pending(cur, script);
    while i < n
      invariant 0 <= i <= n
      invariant Split(script) == out + Pending(cur, script[i..])
    {
      if script[i] == ';' {
        FlushStep(cur, script[i..]);
        assert script[i..][1..] == script[i + 1..];
        var stmts := Flush(cur);
        out := out + stmts;
        cur := "";
        i := i + 1;
      } else {
        var end := ScanElement(script, i);
        ElementStep(cur, script[i..]);
        Slices(script, i, end);
        cur := cur + script[i..end];
        i := end;
      }
    }
    FlushLast(cur);
    assert script[i..] == [];
    var stmts := Flush(cur);
    out := out + stmts;
  }

  /** What the scan still has to output: cur is the piece read so far, s the rest. */
  ghost function Pending(cur: string, s: string): seq<string> {
    Statements(Prepend(cur, Pieces(s)))
  }

  lemma SplitIsPending(s: string)
    ensures Split(s) == Pending("", s)
  {
    PrependNothing(Pieces(s));
  }

  lemma FlushStep(cur: string, s: string)
    requires s != [] && s[0] == ';'
    ensures Pending(cur, s) == Flushed(cur) + Pending("", s[1..])
  {
    PrependNothing(Pieces(s[1..]));
    assert cur + "" == cur;
    assert Prepend(cur, Pieces(s)) == [cur] + Pieces(s[1..]);
  }

  lemma ElementStep(cur: string, s: string)
    requires s != [] && s[0] != ';'
    ensures Pending(cur, s) == Pending(cur + s[..ElementLen(s)], s[ElementLen(s)..])
  {
    PrependTwice(cur, s[..ElementLen(s)], Pieces(s[ElementLen(s)..]));
  }

  lemma FlushLast(cur: string)
    ensures Pending(cur, []) == Flushed(cur)
  {
    assert cur + "" == cur;
    assert Prepend(cur, [""]) == [cur];
    assert Statements([cur]) == Flushed(cur) + Statements([]);
  }

  lemma PrependNothing(pieces: seq<string>)
    requires pieces != []
    ensures Prepend("", pieces) == pieces
  {
    assert "" + pieces[0] == pieces[0];
  }

  lemma PrependTwice(a: string, b: string, pieces: seq<string>)
    requires pieces != []
    ensures Prepend(a, Prepend(b, pieces)) == Prepend(a + b, pieces)
  {
    assert a + (b + pieces[0]) == (a + b) + pieces[0];
  }

  // ---- nothing is lost ----

  lemma JoinOfPrepend(head: string, pieces: seq<string>)
    requires pieces != []
    ensures Join(Prepend(head, pieces), ";") == head + Join(pieces, ";")
  {
    assert Prepend(head, pieces)[1..] == pieces[1..];
    if |pieces| > 1 {
      assert head + (pieces[0] + ";" + Join(pieces[1..], ";")) == (head + pieces[0]) + ";" + Join(pieces[1..], ";");
    }
  }

  /** The raw pieces joined by semicolons are the script, character for character. */
  lemma {:induction false} PiecesRebuildScript(s: string)
    ensures Join(Pieces(s), ";") == s
    decreases |s|
  {
    hide ElementLen, Prepend;
    if s != [] {
      if s[0] == ';' {
        PiecesRebuildScript(s[1..]);
        assert ([""] + Pieces(s[1..]))[1..] == Pieces(s[1..]);
        assert s == ";" + s[1..];
      } else {
        var n := ElementLen(s);
        var rest := Pieces(s[n..]);
        PiecesRebuildScript(s[n..]);
        JoinOfPrepend(s[..n], rest);
        assert s == s[..n] + s[n..];
      }
    }
  }

  /** Walking whole elements from the start of s reaches n without meeting a semicolon. */
  predicate Quiet(s: string, n: nat)
    decreases n
  {
    n == 0 || (s != [] && s[0] != ';' && ElementLen(s) <= n && Quiet(s[ElementLen(s)..], n - ElementLen(s)))
  }

  lemma {:induction false} QuietBound(s: string, n: nat)
    requires Quiet(s, n)
    ensures n <= |s|
    decreases n
  {
    hide ElementLen;
    if n > 0 { QuietBound(s[ElementLen(s)..], n - ElementLen(s)); }
  }

  lemma {:induction false} QuietTrans(s: string, m: nat, n: nat)
    requires Quiet(s, m) && m <= |s| && Quiet(s[m..], n)
    ensures Quiet(s, m + n)
    decreases m
  {
    hide ElementLen;
    if m > 0 {
      var k := ElementLen(s);
      QuietBound(s, m);
      QuietBound(s[k..], m - k);
      assert s[k..][m - k..] == s[m..];
      QuietTrans(s[k..], m - k, n);
    } else {
      assert s[m..] == s;
    }
  }

  /** A quiet stretch belongs to the first piece. */
  lemma {:induction false} PiecesAfterQuiet(s: string, n: nat)
    requires Quiet(s, n) && n <= |s|
    ensures Pieces(s) == Prepend(s[..n], Pieces(s[n..]))
    decreases n
  {
    hide ElementLen;
    if n > 0 {
      var k := ElementLen(s);
      PiecesAfterQuiet(s[k..], n - k);
      Slices(s, k, n);
      PrependTwice(s[..k], s[k..n], Pieces(s[n..]));
    } else {
      assert s[n..] == s && s[..n] == [];
      PrependNothing(Pieces(s));
    }
  }

  /** The first piece is a quiet stretch; what follows it is a top-level semicolon and the
      remaining pieces, or the end of the script. */
  ghost predicate SplitsFirst(s: string, pieces: seq<string>) {
    && pieces != [] && pieces[0] <= s && Quiet(s, |pieces[0]|)
    && var n := |pieces[0]|;
       if n == |s| then pieces == [s] else s[n] == ';' && pieces[1..] == Pieces(s[n + 1..])
  }

  lemma {:induction false} FirstPiece(s: string)
    ensures SplitsFirst(s, Pieces(s))
    decreases |s|
  {
    hide ElementLen;
    if s != [] && s[0] != ';' {
      var k := ElementLen(s);
      FirstPiece(s[k..]);
      PrependFirst(s, k, Pieces(s[k..]));
    }
  }

  lemma PrependFirst(s: string, k: nat, rest: seq<string>)
    requires s != [] && s[0] != ';' && k == ElementLen(s) && SplitsFirst(s[k..], rest)
    ensures SplitsFirst(s, Prepend(s[..k], rest))
  {
    hide ElementLen, Pieces;
    var m := |rest[0]|;
    Slices(s, k, k + m);
    assert Prepend(s[..k], rest)[0] == s[..k + m];
    if m < |s[k..]| {
      Slices(s, k, k + m + 1);
    } else {
      assert s[..k + m] == s;
    }
  }

  /** Position k starts a lexical element when the script is read from its beginning. */
  predicate ElementStart(s: string, k: nat)
    decreases k
  {
    k == 0 || (s != [] && ElementLen(s) <= k && ElementStart(s[ElementLen(s)..], k - ElementLen(s)))
  }

  lemma SemicolonElement(s: string)
    requires s != [] && s[0] == ';'
    ensures ElementLen(s) == 1
  {
  }

  /** Position k of the script lies between two pieces. */
  predicate IsCut(pieces: seq<string>, k: nat) {
    |pieces| > 1 &&
    (k == |pieces[0]| || (k > |pieces[0]| && IsCut(pieces[1..], k - |pieces[0]| - 1)))
  }

  /** The script is cut exactly at the semicolons that are elements of their own: never
      inside a quoted string, a comment or a dollar-quoted body. */
  lemma {:induction false} CutsOnlyTopLevel(s: string, k: nat)
    ensures IsCut(Pieces(s), k) <==> k < |s| && s[k] == ';' && ElementStart(s, k)
    decreases |s|
  {
    hide ElementLen, Prepend;
    if s != [] {
      var n := ElementLen(s);
      if k >= n {
        CutsOnlyTopLevel(s[n..], k - n);
      }
      if s[0] == ';' {
        SemicolonElement(s);
        assert Pieces(s)[1..] == Pieces(s[1..]);
      } else {
        CutAfterPrepend(s[..n], Pieces(s[n..]), k);
      }
    }
  }

  lemma CutAfterPrepend(head: string, pieces: seq<string>, k: nat)
    requires pieces != []
    ensures IsCut(Prepend(head, pieces), k) <==> k >= |head| && IsCut(pieces, k - |head|)
  {
    assert Prepend(head, pieces)[1..] == pieces[1..];
  }

  /** A position strictly inside an element never starts one. */
  lemma {:induction false} InsideIsNotTopLevel(s: string, i: nat, k: nat)
    requires i < |s| && ElementStart(s, i) && i < k < i + ElementLen(s[i..])
    ensures !ElementStart(s, k)
    decreases i
  {
    hide ElementLen;
    if i == 0 {
      assert s[i..] == s;
    } else {
      var n := ElementLen(s);
      assert s[n..][i - n..] == s[i..];
      InsideIsNotTopLevel(s[n..], i - n, k - n);
    }
  }
}
