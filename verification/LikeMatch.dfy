/** LIKE with the escape character '!' against the patterns the filters build
    (internal/query/filter.go): user input matches literally. */
module LikeMatch {
  import opened Strings
  import opened QueryText

  /** text LIKE pattern ESCAPE '!' */
  predicate Like(pattern: string, text: string)
    decreases |pattern| + |text|
  {
    if pattern == [] then text == []
    else if pattern[0] == '!' && |pattern| > 1 then
      text != [] && text[0] == pattern[1] && Like(pattern[2..], text[1..])
    else if pattern[0] == '%' then
      Like(pattern[1..], text) || (text != [] && Like(pattern, text[1..]))
    else if pattern[0] == '_' then text != [] && Like(pattern[1..], text[1..])
    else text != [] && text[0] == pattern[0] && Like(pattern[1..], text[1..])
  }

  lemma PrefixStep(s: string, text: string)
    requires s != [] && text != []
    ensures s <= text <==> s[0] == text[0] && s[1..] <= text[1..]
  {
    assert s == [s[0]] + s[1..] && text == [text[0]] + text[1..];
  }

  /** An escaped string matches itself and nothing else. */
  lemma {:induction false} EscapedIsLiteral(s: string, rest: string, text: string)
    ensures Like(EscapeLike(s) + rest, text) <==> s <= text && Like(rest, text[|s|..])
    decreases |s|
  {
    if s == [] {
      assert EscapeLike(s) + rest == rest && text[0..] == text;
    } else {
      var e, tail := EscapeChar(s[0]), EscapeLike(s[1..]) + rest;
      var p := EscapeLike(s) + rest;
      assert p == e + tail && p[|e|..] == tail;
      if text != [] {
        EscapedIsLiteral(s[1..], rest, text[1..]);
        PrefixStep(s, text);
        if s <= text {
          assert text[1..][|s| - 1..] == text[|s|..];
        }
      }
    }
  }

  lemma {:induction false} PercentMatchesAll(text: string)
    ensures Like("%", text)
    decreases |text|
  {
    if text == [] {
      assert "%"[1..] == [];
    } else {
      PercentMatchesAll(text[1..]);
    }
  }

  /** starts_with: the pattern matches exactly the texts that start with the input. */
  lemma StartsWithMatches(s: string, text: string)
    ensures Like(EscapeLike(s) + "%", text) <==> s <= text
  {
    EscapedIsLiteral(s, "%", text);
    if s <= text {
      PercentMatchesAll(text[|s|..]);
    }
  }

  /** contains: the pattern matches exactly the texts in which the input occurs. */
  lemma {:induction false} ContainsMatches(s: string, text: string)
    ensures Like("%" + EscapeLike(s) + "%", text) <==> exists i :: OccursAt(text, s, i)
    decreases |text|
  {
    var p := "%" + EscapeLike(s) + "%";
    assert p == "%" + (EscapeLike(s) + "%") && p[1..] == EscapeLike(s) + "%";
    StartsWithMatches(s, text);
    if s <= text {
      assert text[0..0 + |s|] == s;
      assert OccursAt(text, s, 0);
    }
    if text != [] {
      ContainsMatches(s, text[1..]);
      if i :| OccursAt(text[1..], s, i) {
        assert text[1..][i..i + |s|] == text[i + 1..i + 1 + |s|];
        assert OccursAt(text, s, i + 1);
      }
      if i :| OccursAt(text, s, i) {
        if i == 0 {
          assert s == text[..|s|];
        } else {
          assert text[1..][i - 1..i - 1 + |s|] == text[i..i + |s|];
          assert OccursAt(text[1..], s, i - 1);
        }
      }
    } else if i :| OccursAt(text, s, i) {
      assert s == [];
    }
  }
}
