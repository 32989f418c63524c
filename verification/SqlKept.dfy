/** Which pieces of a script are statements, said line by line (internal/migration/split.go):
    a piece is kept unless it is blank, nothing but comments, or one of the words that the
    runner's own transaction replaces. */
module SqlKept {
  import opened Strings
  import opened SqlScript
  import opened SqlResplit

  /** The line holds something besides a comment. */
  predicate HoldsCode(line: string) {
    var l := Trim(line);
    l != "" && !(|l| >= 2 && l[0] == '-' && l[1] == '-')
  }

  /** ks are the numbers of the lines that hold code, in order. */
  ghost predicate Picks(lines: seq<string>, ks: seq<nat>) {
    && (forall i, j :: 0 <= i < j < |ks| ==> ks[i] < ks[j])
    && (forall i :: 0 <= i < |ks| ==> ks[i] < |lines| && HoldsCode(lines[ks[i]]))
    && (forall k: nat :: k < |lines| && HoldsCode(lines[k]) ==> k in ks)
  }

  function Picked(lines: seq<string>, ks: seq<nat>): seq<string>
    requires forall i :: 0 <= i < |ks| ==> ks[i] < |lines|
  {
    seq(|ks|, i requires 0 <= i < |ks| => Trim(lines[ks[i]]))
  }

  /** s is the word in capitals, in whatever case it is written. Unicode has two more letters
      whose upper case is in ASCII. */
  ghost predicate Spells(s: string, word: string) {
    |s| == |word| && forall i :: 0 <= i < |s| ==>
      || s[i] == word[i]
      || ('A' <= word[i] <= 'Z' && s[i] as int == word[i] as int + 32)
      || (word[i] == 'I' && s[i] as int == 0x131)
      || (word[i] == 'S' && s[i] as int == 0x17F)
  }

  /** The code lines of the text, joined, spell a word of transaction control. */
  ghost predicate ControlsTransaction(p: string) {
    exists ks :: Picks(Lines(p), ks) &&
      var code := Join(Picked(Lines(p), ks), " ");
      || Spells(code, "BEGIN") || Spells(code, "BEGIN TRANSACTION") || Spells(code, "START TRANSACTION")
      || Spells(code, "COMMIT") || Spells(code, "END") || Spells(code, "ROLLBACK")
  }

  ghost predicate SomeCode(p: string) {
    exists k :: 0 <= k < |Lines(p)| && HoldsCode(Lines(p)[k])
  }

  /** A piece of the script, trimmed, is one of the statements if and only if some line of it holds
      code and its code is not a word of transaction control. */
  lemma KeptExactly(script: string, i: nat)
    requires i < |Pieces(script)|
    ensures var p := Trim(Pieces(script)[i]);
      p in Split(script) <==> SomeCode(p) && !ControlsTransaction(p)
  {
    hide Pieces, Trim, Keeps;
    var p := Trim(Pieces(script)[i]);
    KeepsByLines(p);
    InStatements(Pieces(script), p);
  }

  lemma {:induction false} InStatements(pieces: seq<string>, p: string)
    ensures p in Statements(pieces) <==> Keeps(p) && exists i :: 0 <= i < |pieces| && Trim(pieces[i]) == p
  {
    hide Trim, Keeps;
    if pieces != [] {
      InStatements(pieces[1..], p);
      if exists i :: 0 <= i < |pieces| && Trim(pieces[i]) == p {
        var i :| 0 <= i < |pieces| && Trim(pieces[i]) == p;
        assert i > 0 ==> pieces[1..][i - 1] == pieces[i];
      }
      if exists i :: 0 <= i < |pieces[1..]| && Trim(pieces[1..][i]) == p {
        var i :| 0 <= i < |pieces[1..]| && Trim(pieces[1..][i]) == p;
        assert pieces[i + 1] == pieces[1..][i];
      }
    }
  }

  lemma KeepsByLines(p: string)
    ensures Keeps(p) <==> SomeCode(p) && !ControlsTransaction(p)
  {
    hide Trim, Lines, ToUpper, CodeLines, Spells, HoldsCode, OnlyComments, SomeCode;
    EmptyHasNoCode();
    CommentsByLines(p);
    var ks := CodePicked(Lines(p));
    var code := Join(CodeLines(Lines(p)), " ");
    forall js | Picks(Lines(p), js) ensures Picked(Lines(p), js) == CodeLines(Lines(p)) {
      PickedIsCode(Lines(p), js);
    }
    SpellsIsUpper(code, "BEGIN");
    SpellsIsUpper(code, "BEGIN TRANSACTION");
    SpellsIsUpper(code, "START TRANSACTION");
    SpellsIsUpper(code, "COMMIT");
    SpellsIsUpper(code, "END");
    SpellsIsUpper(code, "ROLLBACK");
  }

  lemma EmptyHasNoCode()
    ensures !SomeCode("")
  {
    LinesOfOneLine("");
    assert Trim("") == "";
  }

  lemma CommentsByLines(p: string)
    ensures OnlyComments(p) <==> !SomeCode(p)
  {
    hide Trim, Lines;
    forall line ensures HoldsCode(line) <==> !(Trim(line) == "" || HasPrefix(Trim(line), "--")) {
      StartsWithDashes(Trim(line));
    }
    if OnlyComments(p) {
      forall k | 0 <= k < |Lines(p)| ensures !HoldsCode(Lines(p)[k]) {
        assert Lines(p)[k] in Lines(p);
      }
    }
  }

  lemma StartsWithDashes(l: string)
    ensures HasPrefix(l, "--") <==> |l| >= 2 && l[0] == '-' && l[1] == '-'
  {
    assert |l| >= 2 ==> l[..2] == [l[0], l[1]];
  }

  lemma {:induction false} SpellsIsUpper(s: string, word: string)
    requires forall i :: 0 <= i < |word| ==> 'A' <= word[i] <= 'Z' || word[i] == ' '
    ensures Spells(s, word) <==> ToUpper(s) == word
  {
    if s != [] && word != [] {
      SpellsIsUpper(s[1..], word[1..]);
      assert ToUpper(s)[0] == Upper(s[0]) && ToUpper(s)[1..] == ToUpper(s[1..]);
      SpellsFirst(s, word);
    }
  }

  lemma SpellsFirst(s: string, word: string)
    requires s != [] && word != [] && ('A' <= word[0] <= 'Z' || word[0] == ' ')
    ensures Spells(s, word) <==> Upper(s[0]) == word[0] && Spells(s[1..], word[1..])
  {
    if Upper(s[0]) == word[0] && Spells(s[1..], word[1..]) {
      forall i | 1 <= i < |s|
        ensures s[i] == s[1..][i - 1] && word[i] == word[1..][i - 1]
      {
      }
    }
  }

  lemma {:induction false} CodePicked(lines: seq<string>) returns (ks: seq<nat>)
    ensures Picks(lines, ks)
    decreases |lines|
  {
    hide HoldsCode, Picks;
    ks := [];
    if lines == [] {
      NothingPicked();
    } else {
      var n := |lines| - 1;
      var js := CodePicked(lines[..n]);
      ks := if HoldsCode(lines[n]) then js + [n] else js;
      PicksOneMore(lines, js);
    }
  }

  lemma NothingPicked()
    ensures Picks([], [])
  {
  }

  lemma PicksOneMore(lines: seq<string>, js: seq<nat>)
    requires lines != [] && Picks(lines[..|lines| - 1], js)
    ensures Picks(lines, if HoldsCode(lines[|lines| - 1]) then js + [|lines| - 1] else js)
  {
    hide HoldsCode;
    var n := |lines| - 1;
    var ks := if HoldsCode(lines[n]) then js + [n] else js;
    forall i | 0 <= i < |ks| ensures ks[i] < |lines| && HoldsCode(lines[ks[i]]) {
      if i < |js| { assert ks[i] == js[i] && lines[..n][js[i]] == lines[js[i]]; }
    }
    forall k: nat | k < |lines| && HoldsCode(lines[k]) ensures k in ks {
      if k < n {
        assert lines[..n][k] == lines[k] && k in js;
      } else {
        assert ks[|js|] == n;
      }
    }
  }

  lemma {:induction false} PickedIsCode(lines: seq<string>, ks: seq<nat>)
    requires Picks(lines, ks)
    ensures Picked(lines, ks) == CodeLines(lines)
    decreases |lines|
  {
    hide Trim, HoldsCode;
    if lines == [] {
      PicksFit(lines, ks);
    } else {
      var n := |lines| - 1;
      var init, line := lines[..n], lines[n];
      CodeLinesSnoc(init, line);
      assert lines == init + [line];
      if HoldsCode(line) {
        LastPicked(lines, ks);
        var js := ks[..|ks| - 1];
        PickedIsCode(init, js);
        assert Picked(lines, ks) == Picked(init, js) + [Trim(line)];
      } else {
        PicksInit(lines, ks);
        PickedIsCode(init, ks);
        assert Picked(lines, ks) == Picked(init, ks);
      }
    }
  }

  lemma PicksFit(lines: seq<string>, ks: seq<nat>)
    requires Picks(lines, ks)
    ensures |ks| <= |lines|
  {
    hide HoldsCode;
    if |ks| > 0 { AtLeastItsPlace(lines, ks, |ks| - 1); }
  }

  lemma {:induction false} AtLeastItsPlace(lines: seq<string>, ks: seq<nat>, i: nat)
    requires Picks(lines, ks) && i < |ks|
    ensures ks[i] >= i
  {
    hide HoldsCode;
    if i > 0 { AtLeastItsPlace(lines, ks, i - 1); }
  }

  lemma PicksInit(lines: seq<string>, ks: seq<nat>)
    requires lines != [] && Picks(lines, ks) && !HoldsCode(lines[|lines| - 1])
    ensures Picks(lines[..|lines| - 1], ks)
  {
    hide HoldsCode;
  }

  lemma LastPicked(lines: seq<string>, ks: seq<nat>)
    requires lines != [] && Picks(lines, ks) && HoldsCode(lines[|lines| - 1])
    ensures ks != [] && ks[|ks| - 1] == |lines| - 1 && Picks(lines[..|lines| - 1], ks[..|ks| - 1])
  {
    hide HoldsCode;
    var n := |lines| - 1;
    assert n in ks;
    var i :| 0 <= i < |ks| && ks[i] == n;
    assert ks[|ks| - 1] < |lines|;
    var js := ks[..|ks| - 1];
    forall k: nat | k < n && HoldsCode(lines[k]) ensures k in js {
      assert k in ks;
      var j :| 0 <= j < |ks| && ks[j] == k;
      assert js[j] == k;
    }
  }

  lemma {:induction false} CodeLinesSnoc(lines: seq<string>, line: string)
    ensures CodeLines(lines + [line]) == CodeLines(lines) + if HoldsCode(line) then [Trim(line)] else []
  {
    hide Trim;
    StartsWithDashes(Trim(line));
    if lines == [] {
      assert ([] + [line])[1..] == [] && ([] + [line])[0] == line;
    } else {
      assert (lines + [line])[1..] == lines[1..] + [line];
      CodeLinesSnoc(lines[1..], line);
    }
  }

  // ---- a comment line before a statement ----

  /** A comment line before a single piece of text changes nothing about whether it is kept. */
  lemma CommentedStatement(c: string, t: string)
    requires |c| >= 2 && c[0] == '-' && c[1] == '-' && '\n' !in c
    requires t != "" && Trim(t) == t && Pieces(t) == [t]
    ensures Split(c + "\n" + t) == if Split(t) == [] then [] else [c + "\n" + t]
    ensures Split(t) == [] || Split(t) == [t]
  {
    hide Pieces, Trim, Keeps;
    var s := c + "\n" + t;
    CommentedPiece(c, t);
    CommentedTrims(c, t);
    CommentedKeeps(c, t);
    OnePiece(s);
    OnePiece(t);
  }

  lemma CommentedPiece(c: string, t: string)
    requires |c| >= 2 && c[0] == '-' && c[1] == '-' && '\n' !in c && Pieces(t) == [t]
    ensures Pieces(c + "\n" + t) == [c + "\n" + t]
  {
    hide Pieces;
    var s := c + "\n" + t;
    assert s == c + ("\n" + t);
    IndexInPrefix(c, "\n" + t, '\n');
    assert ElementLen(s) == |c| && s[|c|..] == "\n" + t;
    NewlinePiece(t);
    PiecesStep(s);
    assert s[..|c|] + ("\n" + t) == s;
  }

  lemma PiecesStep(s: string)
    requires s != [] && s[0] != ';'
    ensures Pieces(s) == Prepend(s[..ElementLen(s)], Pieces(s[ElementLen(s)..]))
  {
    hide ElementLen;
  }

  lemma NewlinePiece(t: string)
    requires Pieces(t) == [t]
    ensures Pieces("\n" + t) == ["\n" + t]
  {
    hide Pieces;
    var s := "\n" + t;
    assert ElementLen(s) == 1 && s[1..] == t && s[..1] == "\n";
    PiecesStep(s);
  }

  lemma CommentedTrims(c: string, t: string)
    requires c != [] && c[0] == '-' && t != "" && Trim(t) == t
    ensures Trim(c + "\n" + t) == c + "\n" + t
  {
    hide IsSpace;
    var s := c + "\n" + t;
    var left, right := TrimSplits(t);
    assert !IsSpace('-') by { DashIsNoSpace(); }
    assert Trimmed(s) by { assert s[0] == '-' && s[|s| - 1] == t[|t| - 1]; }
    TrimOfTrimmed(s);
  }

  lemma DashIsNoSpace()
    ensures !IsSpace('-')
  {
  }

  lemma CommentedKeeps(c: string, t: string)
    requires |c| >= 2 && c[0] == '-' && c[1] == '-' && '\n' !in c && t != ""
    ensures Keeps(c + "\n" + t) <==> Keeps(t)
  {
    hide Lines, Trim, ToUpper;
    LinesOfConcat(c, t);
    LinesOfOneLine(c);
    CommentTrims(c);
    var l := Trim(c);
    StartsWithDashes(l);
    assert Lines(c + "\n" + t) == [c] + Lines(t);
    assert ([c] + Lines(t))[1..] == Lines(t);
    assert CodeLines([c] + Lines(t)) == CodeLines(Lines(t));
    assert OnlyComments(c + "\n" + t) <==> OnlyComments(t);
  }

  lemma CommentTrims(c: string)
    requires |c| >= 2 && c[0] == '-' && c[1] == '-'
    ensures |Trim(c)| >= 2 && Trim(c)[0] == '-' && Trim(c)[1] == '-'
  {
    hide IsSpace;
    DashIsNoSpace();
    assert TrimLeft(c) == c;
    TrimRightKeeps(c, 2);
  }

  lemma {:induction false} TrimRightKeeps(s: string, n: nat)
    requires 0 < n <= |s| && !IsSpace(s[n - 1])
    ensures |TrimRight(s)| >= n && TrimRight(s)[..n] == s[..n]
    decreases |s|
  {
    hide IsSpace;
    if IsSpace(s[|s| - 1]) {
      TrimRightKeeps(s[..|s| - 1], n);
      assert s[..|s| - 1][..n] == s[..n];
    }
  }

  lemma OnePiece(s: string)
    ensures Statements([s]) == Flushed(s)
  {
    assert [s][1..] == [] && Statements([]) == [];
  }
}
