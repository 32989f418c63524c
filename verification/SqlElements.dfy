/** The lexical elements of a script, spelled out (internal/migration/split.go): what hides a
    semicolon, and that nothing else does. */
module SqlElements {
  import opened Strings
  import opened SqlScript

  /** A quoted string, in any of the three quotes. */
  lemma {:induction false} QuotedReads(body: string, q: char, rest: string)
    requires q !in body && (q != '"' ==> '\\' !in body) && (rest == "" || rest[0] != q)
    ensures QuotedLen(body + [q] + rest, q) == |body| + 1
    decreases |body|
  {
    var s := body + [q] + rest;
    if body == [] {
      assert s == [q] + rest && (|s| > 1 ==> s[1] == rest[0]);
    } else {
      assert body[0] in body;
      assert s[0] == body[0] && s[1..] == body[1..] + [q] + rest;
      QuotedReads(body[1..], q, rest);
    }
  }

  lemma QuotedIsOneElement(q: char, body: string, rest: string)
    requires q == '\'' || q == '"' || q == '`'
    requires q !in body && (q != '"' ==> '\\' !in body) && (rest == "" || rest[0] != q)
    ensures ElementLen([q] + body + [q] + rest) == 1 + |body| + 1
  {
    var s := [q] + body + [q] + rest;
    assert s[1..] == body + [q] + rest;
    QuotedReads(body, q, rest);
  }

  /** Letters, underscores and, not at the start, digits. */
  predicate Identifier(tag: string) {
    forall i :: 0 <= i < |tag| ==>
      tag[i] == '_' || 'a' <= tag[i] <= 'z' || 'A' <= tag[i] <= 'Z' || (i > 0 && '0' <= tag[i] <= '9')
  }

  lemma {:induction false} TagReads(tag: string, first: bool, rest: string)
    requires forall i :: 0 <= i < |tag| ==>
      tag[i] == '_' || 'a' <= tag[i] <= 'z' || 'A' <= tag[i] <= 'Z' || ((i > 0 || !first) && '0' <= tag[i] <= '9')
    requires rest == "" || !(rest[0] == '_' || 'a' <= rest[0] <= 'z' || 'A' <= rest[0] <= 'Z' ||
                             (!(first && tag == "") && '0' <= rest[0] <= '9'))
    ensures TagLen(tag + rest, first) == |tag|
    decreases |tag|
  {
    var s := tag + rest;
    if tag == [] {
      assert s == rest;
    } else {
      assert s[0] == tag[0] && s[1..] == tag[1..] + rest;
      TagReads(tag[1..], false, rest);
    }
  }

  /** A dollar-quoted body runs to the next occurrence of its own tag, or to the end. */
  lemma DollarQuotedIsOneElement(tag: string, body: string)
    requires Identifier(tag)
    ensures var mark := "$" + tag + "$"; var k := Find(body, mark);
      ElementLen(mark + body) == |mark| + if k >= 0 then k + |mark| else |body|
  {
    hide Find, TagLen, DollarLen, ElementLen;
    var s := "$" + tag + "$" + body;
    MarkParts(tag, body);
    IdentifierReads(tag, "$" + body);
    DollarStart(s);
    DollarClosed(s);
  }

  lemma IdentifierReads(tag: string, rest: string)
    requires Identifier(tag) && rest != "" && rest[0] == '$'
    ensures TagLen(tag + rest, true) == |tag|
  {
    hide TagLen;
    TagReads(tag, true, rest);
  }

  lemma DollarStart(s: string)
    requires s != "" && s[0] == '$'
    ensures ElementLen(s) == DollarLen(s)
  {
    hide Find, TagLen, DollarLen, QuotedLen, LineCommentLen, BlockCommentLen;
  }

  lemma DollarClosed(s: string)
    requires s != "" && 1 + TagLen(s[1..], true) < |s| && s[1 + TagLen(s[1..], true)] == '$'
    ensures var j := 1 + TagLen(s[1..], true); var k := Find(s[j + 1..], s[..j + 1]);
      DollarLen(s) == if k < 0 then |s| else j + 1 + k + (j + 1)
  {
    hide Find, TagLen;
  }

  lemma MarkParts(tag: string, body: string)
    ensures var mark := "$" + tag + "$"; var s, j := mark + body, 1 + |tag|;
      && j < |s| && s[0] == '$' && s[j] == '$' && s[..j + 1] == mark && s[j + 1..] == body
      && s[1..] == tag + ("$" + body)
  {
  }

  /** A dollar sign that no tag follows, like that of $1, is a character like any other. */
  lemma OtherDollarIsOneCharacter(tag: string, rest: string)
    requires Identifier(tag)
    requires rest == "" || !(rest[0] == '$' || rest[0] == '_' || 'a' <= rest[0] <= 'z' || 'A' <= rest[0] <= 'Z' ||
                             (tag != "" && '0' <= rest[0] <= '9'))
    ensures ElementLen("$" + tag + rest) == 1
  {
    var s := "$" + tag + rest;
    assert s[1..] == tag + rest;
    TagReads(tag, true, rest);
    assert rest != "" ==> s[1 + |tag|] == rest[0];
  }

  /** A comment runs to the end of its line, or to its closing mark. */
  lemma CommentsAreOneElement(body: string, rest: string)
    ensures '\n' !in body ==>
        ElementLen("--" + body + "\n" + rest) == 2 + |body| && ElementLen("--" + body) == 2 + |body|
    ensures var k := Find(body, "*/"); ElementLen("/*" + body) == 2 + if k >= 0 then k + 2 else |body|
  {
    hide ElementLen, Find, IndexOfChar;
    assert ("/*" + body)[2..] == body;
    BlockStart("/*" + body);
    if '\n' !in body {
      var line := "--" + body;
      assert "--" + body + "\n" + rest == line + ("\n" + rest);
      LineStart(line);
      LineStart(line + ("\n" + rest));
      NoNewline(line);
      IndexInPrefix(line, "\n" + rest, '\n');
      NewlineFirst(rest);
    }
  }

  lemma BlockStart(s: string)
    requires |s| >= 2 && s[0] == '/' && s[1] == '*'
    ensures ElementLen(s) == var k := Find(s[2..], "*/"); if k < 0 then |s| else k + 4
  {
    hide Find, QuotedLen, DollarLen;
  }

  lemma LineStart(s: string)
    requires |s| >= 2 && s[0] == '-' && s[1] == '-'
    ensures ElementLen(s) == IndexOfChar(s, '\n')
  {
    hide IndexOfChar, QuotedLen, DollarLen, Find;
  }

  lemma NoNewline(s: string)
    requires '\n' !in s
    ensures IndexOfChar(s, '\n') == |s|
  {
  }

  lemma NewlineFirst(rest: string)
    ensures IndexOfChar("\n" + rest, '\n') == 0
  {
  }

  /** Every other character is an element of its own. */
  lemma OtherCharacters(s: string)
    requires s != "" && s[0] !in {'\'', '"', '`', '$'}
    requires !(|s| > 1 && s[0] == '-' && s[1] == '-') && !(|s| > 1 && s[0] == '/' && s[1] == '*')
    ensures ElementLen(s) == 1
  {
  }
}
