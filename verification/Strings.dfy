/** The standard-library string operations the source relies on, with the facts about
    them that several components need. */
module Strings {

  /** unicode.IsSpace, the characters strings.TrimSpace removes. */
  predicate IsSpace(c: char) {
    c == ' ' || '\t' <= c <= '\r' || (c > '~' && IsWideSpace(c as int))
  }

  predicate IsWideSpace(code: int) {
    || code == 0x85 || code == 0xA0 || code == 0x1680 || 0x2000 <= code <= 0x200A
    || code == 0x2028 || code == 0x2029 || code == 0x202F || code == 0x205F || code == 0x3000
  }

  /** White space as Unicode defines it. */
  lemma SpacesExactly(c: char)
    ensures IsSpace(c) <==> c as int in {
      0x09, 0x0A, 0x0B, 0x0C, 0x0D, 0x20, 0x85, 0xA0, 0x1680, 0x2000, 0x2001, 0x2002, 0x2003, 0x2004, 0x2005, 0x2006,
      0x2007, 0x2008, 0x2009, 0x200A, 0x2028, 0x2029, 0x202F, 0x205F, 0x3000}
  {
  }

  predicate AllSpace(s: string) { forall c <- s :: IsSpace(c) }

  function TrimLeft(s: string): string {
    if s != [] && IsSpace(s[0]) then TrimLeft(s[1..]) else s
  }

  function TrimRight(s: string): string {
    if s != [] && IsSpace(s[|s| - 1]) then TrimRight(s[..|s| - 1]) else s
  }

  /** strings.TrimSpace */
  function Trim(s: string): string { TrimRight(TrimLeft(s)) }

  predicate Trimmed(s: string) {
    s == [] || (!IsSpace(s[0]) && !IsSpace(s[|s| - 1]))
  }

  predicate HasPrefix(s: string, p: string) { p <= s }

  predicate OccursAt(s: string, pat: string, i: int) {
    0 <= i && i + |pat| <= |s| && s[i..i + |pat|] == pat
  }

  /** strings.Index: the first occurrence of pat, or -1. */
  function Find(s: string, pat: string): (k: int)
    ensures -1 <= k && (k >= 0 ==> OccursAt(s, pat, k))
    ensures forall i :: OccursAt(s, pat, i) ==> 0 <= k <= i
  {
    if |s| < |pat| then -1
    else if s[..|pat|] == pat then 0
    else if s == [] then -1
    else
      var k := Find(s[1..], pat);
      assert forall i :: OccursAt(s, pat, i) ==>
          i > 0 && s[1..][i - 1..i - 1 + |pat|] == pat && OccursAt(s[1..], pat, i - 1);
      if k < 0 then -1 else k + 1
  }

  /** strings.IndexByte, with the length of s standing for "not found". */
  function IndexOfChar(s: string, c: char): (k: nat)
    ensures k <= |s| && c !in s[..k] && (k < |s| ==> s[k] == c)
  {
    if s == [] || s[0] == c then 0 else 1 + IndexOfChar(s[1..], c)
  }

  function Join(parts: seq<string>, sep: string): string {
    if parts == [] then [] else if |parts| == 1 then parts[0] else parts[0] + sep + Join(parts[1..], sep)
  }

  /** strings.Split(s, "\n") */
  function Lines(s: string): (r: seq<string>)
    ensures r != []
    decreases |s|
  {
    var k := IndexOfChar(s, '\n');
    if k == |s| then [s] else [s[..k]] + Lines(s[k + 1..])
  }

  /** Cutting a string at k and then at n. */
  lemma Slices(s: string, k: nat, n: nat)
    requires k <= n <= |s|
    ensures s[k..][..n - k] == s[k..n] && s[k..][n - k..] == s[n..] && s[..k] + s[k..n] == s[..n]
  {
  }

  /** Cutting a concatenation within its first part. */
  lemma CutConcat(u: string, v: string, n: nat)
    requires n <= |u|
    ensures (u + v)[..n] == u[..n] && (u + v)[n..] == u[n..] + v
  {
  }

  // ---- trimming ----

  lemma {:induction false} TrimLeftSplits(s: string)
    ensures |TrimLeft(s)| <= |s|
    ensures var k := |s| - |TrimLeft(s)|; s[k..] == TrimLeft(s) && AllSpace(s[..k])
    ensures TrimLeft(s) == [] || !IsSpace(TrimLeft(s)[0])
  {
    if s != [] && IsSpace(s[0]) {
      TrimLeftSplits(s[1..]);
    }
  }

  lemma {:induction false} TrimRightSplits(s: string)
    ensures TrimRight(s) <= s && AllSpace(s[|TrimRight(s)|..])
    ensures TrimRight(s) == [] || !IsSpace(TrimRight(s)[|TrimRight(s)| - 1])
  {
    if s != [] && IsSpace(s[|s| - 1]) {
      TrimRightSplits(s[..|s| - 1]);
      var n := |TrimRight(s)|;
      assert s[n..] == s[..|s| - 1][n..] + [s[|s| - 1]];
    }
  }

  /** Trim removes exactly the white space around its result. */
  lemma TrimSplits(s: string) returns (left: string, right: string)
    ensures s == left + Trim(s) + right && AllSpace(left) && AllSpace(right) && Trimmed(Trim(s))
  {
    TrimLeftSplits(s);
    var t := TrimLeft(s);
    TrimRightSplits(t);
    left, right := s[..|s| - |t|], t[|Trim(s)|..];
    assert s == left + t;
  }

  lemma {:induction false} TrimLeftSkips(left: string, s: string)
    requires AllSpace(left)
    ensures TrimLeft(left + s) == TrimLeft(s)
  {
    if left == [] {
      assert left + s == s;
    } else {
      assert (left + s)[1..] == left[1..] + s;
      TrimLeftSkips(left[1..], s);
    }
  }

  lemma {:induction false} TrimRightSkips(s: string, right: string)
    requires AllSpace(right)
    ensures TrimRight(s + right) == TrimRight(s)
  {
    if right == [] {
      assert s + right == s;
    } else {
      var n := |right| - 1;
      assert (s + right)[..|s + right| - 1] == s + right[..n];
      assert (s + right)[|s + right| - 1] == right[n];
      TrimRightSkips(s, right[..n]);
    }
  }

  /** White space put around a string does not change what Trim returns. */
  lemma TrimIgnores(left: string, s: string, right: string)
    requires AllSpace(left) && AllSpace(right)
    ensures Trim(left + s + right) == Trim(s)
  {
    assert left + s + right == left + (s + right);
    TrimLeftSkips(left, s + right);
    var t, u := TrimLeft(s), TrimLeft(s + right);
    if AllSpace(s) {
      TrimLeftSkips(s, right);
      TrimLeftSkips(s, []);
      TrimLeftSkips(right, []);
      assert s + [] == s && right + [] == right;
    } else {
      TrimLeftOfAppend(s, right);
      TrimRightSkips(t, right);
    }
  }

  lemma {:induction false} TrimLeftOfAppend(s: string, right: string)
    requires !AllSpace(s)
    ensures TrimLeft(s + right) == TrimLeft(s) + right
  {
    if IsSpace(s[0]) {
      assert (s + right)[1..] == s[1..] + right;
      TrimLeftOfAppend(s[1..], right);
    }
  }

  lemma TrimOfTrimmed(s: string)
    requires Trimmed(s)
    ensures Trim(s) == s
  {
  }

  // ---- searching a longer string ----

  /** Appending text keeps the first occurrence; cutting text off keeps it when it fits. */
  lemma {:induction false} FindInPrefix(u: string, v: string, pat: string)
    requires pat != []
    ensures Find(u, pat) >= 0 ==> Find(u + v, pat) == Find(u, pat)
    ensures var k := Find(u + v, pat); Find(u, pat) == if 0 <= k && k + |pat| <= |u| then k else -1
  {
    var k, m := Find(u + v, pat), Find(u, pat);
    if m >= 0 {
      assert (u + v)[m..m + |pat|] == u[m..m + |pat|];
      assert OccursAt(u + v, pat, m);
    }
    if 0 <= k && k + |pat| <= |u| {
      assert u[k..k + |pat|] == (u + v)[k..k + |pat|];
      assert OccursAt(u, pat, k);
    }
  }

  lemma {:induction false} IndexInPrefix(u: string, v: string, c: char)
    ensures IndexOfChar(u + v, c) == if IndexOfChar(u, c) < |u| then IndexOfChar(u, c) else |u| + IndexOfChar(v, c)
  {
    if u == [] {
      assert u + v == v;
    } else if u[0] != c {
      assert (u + v)[1..] == u[1..] + v;
      IndexInPrefix(u[1..], v, c);
    }
  }

  // ---- lines ----

  lemma LinesStep(s: string)
    ensures var k := IndexOfChar(s, '\n');
      Lines(s) == if k == |s| then [s] else [s[..k]] + Lines(s[k + 1..])
  {
    hide IndexOfChar;
  }

  lemma {:induction false} LinesOfConcat(a: string, b: string)
    ensures Lines(a + "\n" + b) == Lines(a) + Lines(b)
    decreases |a|
  {
    hide Lines;
    LinesStep(a);
    LinesStep(a + "\n" + b);
    var k := IndexOfChar(a, '\n');
    var s := a + "\n" + b;
    assert s == a + ("\n" + b);
    IndexInPrefix(a, "\n" + b, '\n');
    assert IndexOfChar(s, '\n') == k;
    if k == |a| {
      assert s[..k] == a && s[k + 1..] == b;
    } else {
      var rest := a[k + 1..] + "\n" + b;
      assert s[..k] == a[..k];
      assert s[k + 1..] == rest;
      LinesOfConcat(a[k + 1..], b);
    }
  }

  lemma {:induction false} JoinOfLines(s: string)
    ensures Join(Lines(s), "\n") == s
    decreases |s|
  {
    hide Lines, IndexOfChar;
    LinesStep(s);
    var k := IndexOfChar(s, '\n');
    if k < |s| {
      JoinOfLines(s[k + 1..]);
      var rest := Lines(s[k + 1..]);
      assert ([s[..k]] + rest)[1..] == rest;
      assert s == s[..k] + "\n" + s[k + 1..];
    }
  }

  lemma LinesOfOneLine(s: string)
    requires '\n' !in s
    ensures Lines(s) == [s]
  {
  }

  lemma {:induction false} JoinOfConcat(a: seq<string>, b: seq<string>, sep: string)
    requires a != [] && b != []
    ensures Join(a + b, sep) == Join(a, sep) + sep + Join(b, sep)
  {
    if |a| == 1 {
      assert (a + b)[1..] == b;
    } else {
      assert (a + b)[1..] == a[1..] + b;
      JoinOfConcat(a[1..], b, sep);
    }
  }
}
