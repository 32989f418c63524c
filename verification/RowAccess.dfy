/** Row-access fragments (internal/policy/rowfilter.go) and the tenant condition
    (internal/handler/common.go): they are numbered on their own and renumbered into the
    query, so they must come out as $1 … $n in order. */
module RowAccess {
  import opened SqlLogic
  import opened Strings
  import opened Numerals
  import opened Placeholders
  import opened Rendering
  import opened QueryText

  datatype Subject = Subject(id: string, role: string, tenant: string, email: string)

  const BINDINGS := 4

  function Name(k: nat): string
    requires k < BINDINGS
  {
    if k == 0 then ":subject.id" else if k == 1 then ":subject.role"
    else if k == 2 then ":subject.tenant" else ":subject.email"
  }

  /** The value of the k-th binding; a request without a subject binds empty strings. */
  function BindingValue(sub: Option<Subject>, k: nat): string {
    match sub
    case None => ""
    case Some(s) => if k == 0 then s.id else if k == 1 then s.role else if k == 2 then s.tenant else s.email
  }

  // ---- reference: one scan from left to right ----

  /** The binding written at the start of s, if any. */
  function BindingAt(s: string): (b: Option<nat>)
    ensures b.Some? ==> b.value < BINDINGS && Name(b.value) <= s && Name(b.value) != ""
  {
    if Name(0) <= s then Some(0)
    else if Name(1) <= s then Some(1)
    else if Name(2) <= s then Some(2)
    else if Name(3) <= s then Some(3)
    else None
  }

  /** The filter with every binding replaced by the subject's value. */
  function Substituted(s: string, sub: Option<Subject>): seq<Bound>
    decreases |s|
  {
    if s == [] then []
    else match BindingAt(s)
      case Some(k) => [Arg(Text(BindingValue(sub, k)))] + Substituted(s[|Name(k)|..], sub)
      case None => [Char(s[0])] + Substituted(s[1..], sub)
  }

  /** The values in the order their bindings appear. */
  function BoundValues(s: string, sub: Option<Subject>): seq<Value>
    decreases |s|
  {
    if s == [] then []
    else match BindingAt(s)
      case Some(k) => [Text(BindingValue(sub, k))] + BoundValues(s[|Name(k)|..], sub)
      case None => BoundValues(s[1..], sub)
  }

  /** The text with bindings replaced by $idx, $idx+1, … */
  function Numbered(s: string, idx: nat): string
    decreases |s|
  {
    if s == [] then []
    else match BindingAt(s)
      case Some(k) => PlaceholderText(idx) + Numbered(s[|Name(k)|..], idx + 1)
      case None => [s[0]] + Numbered(s[1..], idx)
  }

  /** No binding is directly followed by a digit. */
  predicate DigitFree(s: string)
    decreases |s|
  {
    s == [] ||
    match BindingAt(s)
    case Some(k) =>
      var rest := s[|Name(k)|..];
      (rest == [] || !IsDigit(rest[0])) && DigitFree(rest)
    case None => DigitFree(s[1..])
  }

  /** What each binding stands for; without a subject they all stand for the empty text. */
  lemma BindingsStandFor(s: Subject)
    ensures Substituted(":subject.id", Some(s)) == [Arg(Text(s.id))]
    ensures Substituted(":subject.role", Some(s)) == [Arg(Text(s.role))]
    ensures Substituted(":subject.tenant", Some(s)) == [Arg(Text(s.tenant))]
    ensures Substituted(":subject.email", Some(s)) == [Arg(Text(s.email))]
    ensures forall b <- [":subject.id", ":subject.role", ":subject.tenant", ":subject.email"] ::
      Substituted(b, None) == [Arg(Text(""))]
  {
    OneBinding(0, Some(s));
    OneBinding(1, Some(s));
    OneBinding(2, Some(s));
    OneBinding(3, Some(s));
    OneBinding(0, None);
    OneBinding(1, None);
    OneBinding(2, None);
    OneBinding(3, None);
  }

  lemma OneBinding(k: nat, sub: Option<Subject>)
    requires k < BINDINGS
    ensures Substituted(Name(k), sub) == [Arg(Text(BindingValue(sub, k)))]
  {
    hide BindingValue, BindingAt, Name;
    OnlyBinding(Name(k), k);
    NameLetters();
    assert Name(k)[|Name(k)|..] == [];
  }

  // ---- the source's loop ----

  /** The earliest occurrence of any binding, or None. */
  method EarliestBinding(s: string) returns (pos: int, best: nat)
    ensures -1 <= pos && best < BINDINGS
    ensures pos >= 0 ==> OccursAt(s, Name(best), pos)
    ensures forall k: nat, i :: k < BINDINGS && OccursAt(s, Name(k), i) ==> 0 <= pos <= i
  {
    hide Name, OccursAt;
    pos, best := -1, 0;
    for k := 0 to BINDINGS
      invariant -1 <= pos && best < BINDINGS
      invariant pos >= 0 ==> OccursAt(s, Name(best), pos)
      invariant forall j: nat, i :: j < k && OccursAt(s, Name(j), i) ==> 0 <= pos <= i
    {
      var p := Find(s, Name(k));
      if p >= 0 && (pos < 0 || p < pos) {
        pos, best := p, k;
      }
    }
  }

  /** bindSubjectParams: repeatedly replaces the earliest binding by the next placeholder. */
  method BindSubjectParams(filter: string, sub: Option<Subject>) returns (sql: string, args: seq<Value>)
    ensures sql == Numbered(filter, 1) && args == BoundValues(filter, sub)
  {
    hide Name, PlaceholderText, OccursAt, BindingAt, Numbered, BoundValues, BindingValue;
    NothingLeft(sub);
    sql, args := "", [];
    var remaining := filter;
    var idx: nat := 1;
    assert sql + Numbered(filter, 1) == Numbered(filter, 1) &&
        args + BoundValues(filter, sub) == BoundValues(filter, sub);
    while |remaining| > 0
      invariant sql + Numbered(remaining, idx) == Numbered(filter, 1)
      invariant args + BoundValues(remaining, sub) == BoundValues(filter, sub)
      decreases |remaining|
    {
      var pos, best := EarliestBinding(remaining);
      if pos < 0 {
        SkipPlain(remaining, |remaining|, idx, sub);
        assert remaining[..|remaining|] == remaining && remaining[|remaining|..] == [];
        assert remaining + [] == remaining;
        sql := sql + remaining;
        return;
      }
      OccursWithin(remaining, Name(best), pos);
      SkipPlain(remaining, pos, idx, sub);
      BindingStep(remaining, pos, best, idx, sub);
      var rest := remaining[pos + |Name(best)|..];
      var head, tail := remaining[..pos] + PlaceholderText(idx), Numbered(rest, idx + 1);
      assert sql + (head + tail) == (sql + head) + tail;
      assert args + ([Text(BindingValue(sub, best))] + BoundValues(rest, sub))
          == (args + [Text(BindingValue(sub, best))]) + BoundValues(rest, sub);
      sql := sql + head;
      args := args + [Text(BindingValue(sub, best))];
      idx := idx + 1;
      remaining := rest;
    }
  }

  lemma NothingLeft(sub: Option<Subject>)
    ensures forall idx: nat :: Numbered("", idx) == ""
    ensures BoundValues("", sub) == []
  {
  }

  /** One turn of the loop: the text before the earliest binding, then its placeholder. */
  lemma BindingStep(s: string, pos: nat, k: nat, idx: nat, sub: Option<Subject>)
    requires k < BINDINGS && OccursAt(s, Name(k), pos)
    requires Numbered(s, idx) == s[..pos] + Numbered(s[pos..], idx)
    requires BoundValues(s, sub) == BoundValues(s[pos..], sub)
    ensures pos + |Name(k)| <= |s| && Name(k) != ""
    ensures var rest := s[pos + |Name(k)|..];
            && Numbered(s, idx) == (s[..pos] + PlaceholderText(idx)) + Numbered(rest, idx + 1)
            && BoundValues(s, sub) == [Text(BindingValue(sub, k))] + BoundValues(rest, sub)
  {
    hide PlaceholderText, Name, BindingAt;
    var n := |Name(k)|;
    NameLetters();
    assert s[pos..][..n] == s[pos..pos + n];
    OnlyBinding(s[pos..], k);
    assert s[pos..][n..] == s[pos + n..];
    assert s[..pos] + (PlaceholderText(idx) + Numbered(s[pos + n..], idx + 1))
        == (s[..pos] + PlaceholderText(idx)) + Numbered(s[pos + n..], idx + 1);
  }

  lemma OccursWithin(s: string, pat: string, i: int)
    requires OccursAt(s, pat, i)
    ensures 0 <= i && i + |pat| <= |s|
  {
  }

  lemma OccursLater(s: string, pat: string, i: int)
    requires s != [] && OccursAt(s[1..], pat, i)
    ensures OccursAt(s, pat, i + 1)
  {
    assert s[1..][i..i + |pat|] == s[i + 1..i + 1 + |pat|];
  }

  /** Text before the earliest binding is copied. */
  lemma {:induction false} SkipPlain(s: string, n: nat, idx: nat, sub: Option<Subject>)
    requires n <= |s| && forall k: nat, i :: k < BINDINGS && OccursAt(s, Name(k), i) ==> n <= i
    ensures Numbered(s, idx) == s[..n] + Numbered(s[n..], idx)
    ensures BoundValues(s, sub) == BoundValues(s[n..], sub)
    decreases n
  {
    hide PlaceholderText, Name, BindingAt;
    if n == 0 {
      assert s[0..] == s && s[..0] == [];
      assert [] + Numbered(s, idx) == Numbered(s, idx);
    } else {
      var b := BindingAt(s);
      assert b.Some? ==> OccursAt(s, Name(b.value), 0);
      forall k: nat, i | k < BINDINGS && OccursAt(s[1..], Name(k), i) ensures n - 1 <= i {
        OccursLater(s, Name(k), i);
      }
      SkipPlain(s[1..], n - 1, idx, sub);
      assert s[1..][n - 1..] == s[n..] && s[..n] == [s[0]] + s[1..][..n - 1];
      assert [s[0]] + (s[1..][..n - 1] + Numbered(s[n..], idx)) == s[..n] + Numbered(s[n..], idx);
    }
  }

  /** No two bindings can start at the same place. */
  lemma OnlyBinding(s: string, k: nat)
    requires k < BINDINGS && Name(k) <= s
    ensures BindingAt(s) == Some(k)
  {
    hide Name;
    NameLetters();
    forall j: nat | j < BINDINGS && Name(j) <= s ensures j == k {
      assert s[9] == Name(j)[9] && s[9] == Name(k)[9];
    }
  }

  lemma NameLetters()
    ensures forall k: nat {:trigger Name(k)} :: k < BINDINGS ==> |Name(k)| > 9
    ensures forall j: nat, k: nat {:trigger Name(j), Name(k)} ::
      j < BINDINGS && k < BINDINGS && Name(j)[9] == Name(k)[9] ==> j == k
  {
    assert Name(0)[9] == 'i' && Name(1)[9] == 'r' && Name(2)[9] == 't' && Name(3)[9] == 'e';
  }

  // ---- what the fragment means ----

  lemma NumberedStart(s: string, idx: nat)
    requires s == [] || !IsDigit(s[0])
    ensures Numbered(s, idx) == [] || !IsDigit(Numbered(s, idx)[0])
  {
  }

  /** A filter without placeholders of its own and without a digit right after a binding
      comes out numbered in order, and reads as the filter with the values put in. */
  lemma {:induction false} NumberedMeans(s: string, sub: Option<Subject>, prior: seq<Value>)
    requires SafeText(s) && DigitFree(s)
    ensures var vals := prior + BoundValues(s, sub);
            Rendered(Numbered(s, |prior| + 1), |prior|, |vals|, vals, Substituted(s, sub))
    ensures Indexed(Numbered(s, |prior| + 1))
    decreases |s|
  {
    hide Rendered, Indexed, PlaceholderText, Name, BindingAt, SafeText;
    if s == [] {
      NothingNumbered(prior);
      assert prior + [] == prior;
    } else {
      var b := BindingAt(s);
      if b.Some? {
        var rest := s[|Name(b.value)|..];
        SafeTail(s, |Name(b.value)|);
        NumberedMeans(rest, sub, prior + [Text(BindingValue(sub, b.value))]);
        BindingMeans(s, b.value, sub, prior);
      } else {
        SafeTail(s, 1);
        NumberedMeans(s[1..], sub, prior);
        CharMeans(s, sub, prior);
      }
    }
  }

  lemma BindingMeans(s: string, k: nat, sub: Option<Subject>, prior: seq<Value>)
    requires s != [] && BindingAt(s) == Some(k) && DigitFree(s)
    requires var rest, before := s[|Name(k)|..], prior + [Text(BindingValue(sub, k))];
             var vals := before + BoundValues(rest, sub);
             Rendered(Numbered(rest, |before| + 1), |before|, |vals|, vals, Substituted(rest, sub))
             && Indexed(Numbered(rest, |before| + 1))
    ensures var vals := prior + BoundValues(s, sub);
            Rendered(Numbered(s, |prior| + 1), |prior|, |vals|, vals, Substituted(s, sub))
    ensures Indexed(Numbered(s, |prior| + 1))
  {
    hide Rendered, Indexed, PlaceholderText, Name, BindingAt, BindingValue;
    var rest, v := s[|Name(k)|..], Text(BindingValue(sub, k));
    BindingParts(s, k, sub, |prior| + 1);
    hide Numbered, BoundValues, Substituted, DigitFree;
    var vals := prior + BoundValues(s, sub);
    assert prior + [v] + BoundValues(rest, sub) == vals;
    var tail := Numbered(rest, |prior| + 2);
    NumberedStart(rest, |prior| + 2);
    RArgument(|prior| + 1, vals);
    RConcat(PlaceholderText(|prior| + 1), tail, |prior|, |prior| + 1, |vals|, vals, [Arg(v)], Substituted(rest, sub));
    IndexedPlaceholder(|prior| + 1, tail);
  }

  lemma BindingParts(s: string, k: nat, sub: Option<Subject>, idx: nat)
    requires s != [] && BindingAt(s) == Some(k) && DigitFree(s)
    ensures var rest := s[|Name(k)|..];
            && Numbered(s, idx) == PlaceholderText(idx) + Numbered(rest, idx + 1)
            && BoundValues(s, sub) == [Text(BindingValue(sub, k))] + BoundValues(rest, sub)
            && Substituted(s, sub) == [Arg(Text(BindingValue(sub, k)))] + Substituted(rest, sub)
            && (rest == [] || !IsDigit(rest[0]))
  {
    hide PlaceholderText, Name, BindingAt, BindingValue;
  }

  lemma CharMeans(s: string, sub: Option<Subject>, prior: seq<Value>)
    requires s != [] && BindingAt(s).None? && SafeText(s)
    requires var vals := prior + BoundValues(s[1..], sub);
             Rendered(Numbered(s[1..], |prior| + 1), |prior|, |vals|, vals, Substituted(s[1..], sub))
             && Indexed(Numbered(s[1..], |prior| + 1))
    ensures var vals := prior + BoundValues(s, sub);
            Rendered(Numbered(s, |prior| + 1), |prior|, |vals|, vals, Substituted(s, sub))
    ensures Indexed(Numbered(s, |prior| + 1))
  {
    hide Rendered, Indexed, PlaceholderText, Name, BindingAt, SafeText;
    var vals, tail := prior + BoundValues(s, sub), Numbered(s[1..], |prior| + 1);
    CharThen(s, |prior| + 1);
    SafeHead(s);
    RLiteral([s[0]], |prior|, vals);
    LiteralChar(s[0]);
    RConcat([s[0]], tail, |prior|, |prior|, |vals|, vals, [Char(s[0])], Substituted(s[1..], sub));
    IndexedCons(s[0], tail);
  }

  lemma LiteralChar(c: char)
    ensures Literal([c]) == [Char(c)]
  {
    assert [c][1..] == [];
  }

  lemma NothingNumbered(prior: seq<Value>)
    ensures Rendered("", |prior|, |prior|, prior, []) && Indexed("")
  {
    EmptyText(prior);
  }

  lemma SafeTail(s: string, k: nat)
    requires SafeText(s) && k <= |s|
    ensures SafeText(s[k..])
  {
    forall i | 0 <= i < |s[k..]| - 1 && s[k..][i] == '$' ensures !IsDigit(s[k..][i + 1]) {
      assert s[k + i] == '$';
    }
  }

  lemma SafeHead(s: string)
    requires SafeText(s) && s != []
    ensures SafeText([s[0]])
  {
    assert s[0] in s;
  }

  /** The first character of the rest is the source's own or a dollar sign. */
  lemma CharThen(s: string, idx: nat)
    requires SafeText(s) && s != []
    ensures Joins([s[0]], Numbered(s[1..], idx))
    ensures s[0] == '$' ==> Numbered(s[1..], idx) == [] || !IsDigit(Numbered(s[1..], idx)[0])
  {
    if s[0] == '$' && |s| > 1 {
      NumberedStart(s[1..], idx);
    }
  }

  lemma OnlyOneDollar(n: nat, i: nat)
    ensures 1 <= i < 1 + |Itoa(n)| ==> PlaceholderText(n)[i] != '$'
  {
    if 1 <= i < 1 + |Itoa(n)| {
      assert PlaceholderText(n)[i] == Itoa(n)[i - 1];
      assert IsDigit(Itoa(n)[i - 1]);
    }
  }

  lemma IndexedPlaceholder(n: nat, tail: string)
    requires n > 0 && Indexed(tail)
    ensures Indexed(PlaceholderText(n) + tail)
  {
    var s := PlaceholderText(n) + tail;
    forall i | 0 <= i < |s| - 1 && s[i] == '$' ensures s[i + 1] != '0' {
      if i == 0 {
        assert s[1] == Itoa(n)[0];
      } else {
        assert i >= 1 + |Itoa(n)| by { OnlyOneDollar(n, i); }
        assert s[i] == tail[i - 1 - |Itoa(n)|];
      }
    }
  }

  lemma IndexedCons(c: char, tail: string)
    requires Indexed(tail) && (c == '$' ==> tail == [] || !IsDigit(tail[0]))
    ensures Indexed([c] + tail)
  {
    var s := [c] + tail;
    forall i | 0 <= i < |s| - 1 && s[i] == '$' ensures s[i + 1] != '0' {
      if i > 0 { assert s[i] == tail[i - 1]; }
    }
  }

  /** The first placeholder that is out of order. */
  lemma NumberedStep(s: string, idx: nat)
    ensures s != [] ==> Numbered(s, idx) == match BindingAt(s)
      case Some(k) => PlaceholderText(idx) + Numbered(s[|Name(k)|..], idx + 1)
      case None => [s[0]] + Numbered(s[1..], idx)
  {
    hide Name, PlaceholderText, BindingAt;
  }

  lemma {:induction false} OutOfOrder(s: string, idx: nat) returns (j: nat)
    requires SafeText(s) && !DigitFree(s) && idx > 0
    ensures j < |Params(Numbered(s, idx))| && Params(Numbered(s, idx))[j] != idx + j
    decreases |s|
  {
    hide Name, BindingAt, PlaceholderText, SafeText, Scan, ParamsOf, Meaning, DigitRun, Numbered, Params;
    NumberedStep(s, idx);
    var b := BindingAt(s);
    if b.None? {
      SafeTail(s, 1);
      j := OutOfOrder(s[1..], idx);
      CharThen(s, idx);
      SafeHead(s);
      PlainChar(s);
      ConcatText([s[0]], Numbered(s[1..], idx), []);
    } else {
      var rest := s[|Name(b.value)|..];
      var tail := Numbered(rest, idx + 1);
      SafeTail(s, |Name(b.value)|);
      if rest != [] && IsDigit(rest[0]) {
        DigitStart(rest, idx + 1);
        LongerNumber(idx, tail);
        j := 0;
      } else {
        var i := OutOfOrder(rest, idx + 1);
        NumberedStart(rest, idx + 1);
        OneParam(idx);
        ConcatText(PlaceholderText(idx), tail, []);
        j := i + 1;
      }
    }
  }

  lemma PlainChar(s: string)
    requires s != [] && SafeText([s[0]])
    ensures Params([s[0]]) == []
  {
    PlainText([s[0]], []);
  }

  lemma OneParam(n: nat)
    ensures Params(PlaceholderText(n)) == [n]
  {
    ScanOfPlaceholder(n);
    assert [Param(n)][1..] == [];
    assert ParamsOf([Param(n)]) == [n] + ParamsOf([]);
  }

  lemma DigitStart(rest: string, idx: nat)
    requires rest != [] && IsDigit(rest[0])
    ensures Numbered(rest, idx) != [] && Numbered(rest, idx)[0] == rest[0]
  {
    hide Name;
    NameColon();
  }

  lemma NameColon()
    ensures forall k: nat {:trigger Name(k)} :: k < BINDINGS ==> Name(k) != "" && Name(k)[0] == ':'
  {
    assert Name(0)[0] == ':' && Name(1)[0] == ':' && Name(2)[0] == ':' && Name(3)[0] == ':';
  }

  /** A digit after a placeholder makes its number larger. */
  lemma LongerNumber(n: nat, tail: string)
    requires n > 0 && tail != [] && IsDigit(tail[0])
    ensures var ps := Params(PlaceholderText(n) + tail); ps != [] && ps[0] > n
  {
    hide Itoa, Number, DigitRun, Scan;
    var s := PlaceholderText(n) + tail;
    var k := DigitRun(tail);
    RunStarts(['$'] + tail);
    assert (['$'] + tail)[1..] == tail;
    assert s[1..] == Itoa(n) + tail;
    assert s[1] == Itoa(n)[0];
    RunOfDigitsThen(Itoa(n), tail);
    assert s[1..1 + |Itoa(n)| + k] == Itoa(n) + tail[..k];
    NumberOfItoa(n);
    NumberOfLonger(Itoa(n), tail[..k]);
    ScanStep(s);
  }

  lemma {:induction false} RunOfDigitsThen(a: string, b: string)
    requires Digits(a)
    ensures DigitRun(a + b) == |a| + DigitRun(b)
  {
    if a == [] {
      assert a + b == b;
    } else {
      assert (a + b)[1..] == a[1..] + b;
      RunOfDigitsThen(a[1..], b);
    }
  }

  // ---- placeholders the filter brings along ----

  /** Numbering keeps the filter's own placeholders and adds one for each binding. */
  lemma {:induction false} NumberedStarts(s: string, idx: nat, sub: Option<Subject>)
    ensures Starts(Numbered(s, idx)) == Starts(s) + |BoundValues(s, sub)|
    decreases |s|
  {
    hide Name, BindingAt, PlaceholderText, BindingValue;
    NumberedStep(s, idx);
    if s != [] {
      var b := BindingAt(s);
      if b.Some? {
        var name, rest := Name(b.value), s[|Name(b.value)|..];
        NumberedStarts(rest, idx + 1, sub);
        NamesArePlain();
        assert s == name + rest;
        StartsPastDigits(name, rest);
        PlaceholderStarts(idx, Numbered(rest, idx + 1));
      } else {
        var tail := Numbered(s[1..], idx);
        NumberedStarts(s[1..], idx, sub);
        assert ([s[0]] + tail)[1..] == tail;
        if |s| > 1 && IsDigit(s[1]) { DigitStart(s[1..], idx); } else { NumberedStart(s[1..], idx); }
        if |s| == 1 { NothingLeft(sub); }
      }
    }
  }

  lemma NamesArePlain()
    ensures forall k: nat {:trigger Name(k)} :: k < BINDINGS ==> Name(k) != "" && '$' !in Name(k)
  {
  }

  lemma PlaceholderStarts(n: nat, tail: string)
    ensures Starts(PlaceholderText(n) + tail) == 1 + Starts(tail)
  {
    var s := PlaceholderText(n) + tail;
    assert s[1..] == Itoa(n) + tail && s[1] == Itoa(n)[0];
    forall i | 0 <= i < |Itoa(n)| ensures Itoa(n)[i] != '$' {
      assert IsDigit(Itoa(n)[i]);
    }
    StartsPastDigits(Itoa(n), tail);
  }

  lemma {:induction false} RangeLength(lo: nat, hi: nat)
    requires lo <= hi
    ensures |Range(lo, hi)| == hi - lo
    decreases hi - lo
  {
    if lo < hi { RangeLength(lo + 1, hi); }
  }

  /** For every filter: its placeholders are $1 … $n for its n arguments if and only if it has no
      placeholder of its own and no binding is directly followed by a digit; then it reads as the
      filter with the subject's values put in. Like the scan itself, this reads a binding in an
      SQL string literal as any other, although the database takes no argument there. */
  lemma BindingsInOrder(filter: string, sub: Option<Subject>)
    ensures Params(Numbered(filter, 1)) == Range(0, |BoundValues(filter, sub)|)
        <==> SafeText(filter) && DigitFree(filter)
    ensures SafeText(filter) && DigitFree(filter) ==>
      && WellNumbered(RowFilter(Numbered(filter, 1), BoundValues(filter, sub)))
      && Meaning(Numbered(filter, 1), BoundValues(filter, sub)) == Substituted(filter, sub)
  {
    hide Numbered, BoundValues, Substituted, DigitFree, Starts, NoParam, Params;
    var vals := BoundValues(filter, sub);
    NumberedStarts(filter, 1, sub);
    StartsAreParams(Numbered(filter, 1));
    PlainHasNoStarts(filter);
    RangeLength(0, |vals|);
    if SafeText(filter) {
      if DigitFree(filter) {
        NumberedMeans(filter, sub, []);
        assert [] + vals == vals;
      } else {
        var j := OutOfOrder(filter, 1);
        if Params(Numbered(filter, 1)) == Range(0, |vals|) {
          RangeAt(0, |vals|, j);
        }
      }
    }
  }

  lemma {:induction false} RangeAt(lo: nat, hi: nat, j: nat)
    requires lo <= hi && j < |Range(lo, hi)|
    ensures Range(lo, hi)[j] == lo + 1 + j
    decreases hi - lo
  {
    if j > 0 {
      RangeAt(lo + 1, hi, j - 1);
    }
  }

  // ---- rules and tenant ----

  /** A rule with the outcome of its condition for this subject. */
  datatype Rule = Rule(matched: Result<bool>, filter: string)

  datatype Access = Open | Filtered(row: RowFilter) | Denied | Failed

  /** The first rule whose condition fails to evaluate or matches decides. */
  predicate Decides(rules: seq<Rule>, k: nat) {
    && k < |rules| && (rules[k].matched.Err? || rules[k].matched.value)
    && forall i :: 0 <= i < k ==> rules[i].matched.Ok? && !rules[i].matched.value
  }

  /** ResolveRowFilter: no rules allow everything; otherwise the first deciding rule
      applies, and without one access is denied. */
  method ResolveRowFilter(rules: seq<Rule>, sub: Option<Subject>) returns (r: Access)
    ensures r == Open <==>
      rules == [] || exists k: nat :: Decides(rules, k) && rules[k].matched.Ok? && rules[k].filter == ""
    ensures r == Failed <==> exists k: nat :: Decides(rules, k) && rules[k].matched.Err?
    ensures r == Denied <==> rules != [] && forall k: nat :: !Decides(rules, k)
    ensures r.Filtered? ==> exists k: nat ::
      && Decides(rules, k) && rules[k].matched.Ok? && rules[k].filter != ""
      && r.row == RowFilter(Numbered(rules[k].filter, 1), BoundValues(rules[k].filter, sub))
  {
    hide Numbered, BoundValues;
    if |rules| == 0 {
      return Open;
    }
    for i := 0 to |rules|
      invariant forall j :: 0 <= j < i ==> rules[j].matched.Ok? && !rules[j].matched.value
    {
      if rules[i].matched.Err? {
        assert Decides(rules, i);
        return Failed;
      }
      if !rules[i].matched.value {
        continue;
      }
      assert Decides(rules, i);
      if rules[i].filter == "" {
        return Open;
      }
      var sql, args := BindSubjectParams(rules[i].filter, sub);
      return Filtered(RowFilter(sql, args));
    }
    r := Denied;
  }

  lemma IndexedConcat(a: string, b: string)
    requires Indexed(a) && Indexed(b) && (b == [] || b[0] != '0')
    ensures Indexed(a + b)
  {
    forall i | 0 <= i < |a + b| - 1 && (a + b)[i] == '$' ensures (a + b)[i + 1] != '0' {
      if i >= |a| { assert b[i - |a|] == '$'; }
    }
  }

  lemma IndexedSafe(s: string)
    requires SafeText(s)
    ensures Indexed(s)
  {
  }

  function TenantMeaning(t: Table, col: string, tenant: string): seq<Bound> {
    Literal(t.Quoted(col) + " = ") + [Arg(Text(tenant))]
  }

  lemma TenantClause(t: Table, col: string, args: seq<Value>, tenant: string)
    requires t.Safe() && SafeText(col)
    ensures var s := t.Quoted(col) + " = " + PlaceholderText(|args| + 1);
            && Rendered(s, |args|, |args| + 1, args + [Text(tenant)], TenantMeaning(t, col, tenant))
            && Indexed(s) && !IsDigit(s[0])
  {
    hide Rendered, SafeText, QuoteIdent, PlaceholderText, Literal, Indexed;
    TenantWords();
    SafeColumn(t, col);
    SafeConcat(t.Quoted(col), " = ");
    var head := t.Quoted(col) + " = ";
    var vals := args + [Text(tenant)];
    RLiteral(head, |args|, vals);
    RArgument(|args| + 1, vals);
    RConcat(head, PlaceholderText(|args| + 1), |args|, |args|, |args| + 1, vals, Literal(head), [Arg(Text(tenant))]);
    IndexedSafe(head);
    IndexedSafe("");
    IndexedPlaceholder(|args| + 1, "");
    assert PlaceholderText(|args| + 1) + "" == PlaceholderText(|args| + 1);
    IndexedConcat(head, PlaceholderText(|args| + 1));
  }

  lemma TenantWords()
    ensures SafeText("") && SafeText(" = ") && SafeText("(") && SafeText(") AND ")
  {
  }

  lemma WellNumberedRenders(row: RowFilter)
    requires WellNumbered(row)
    ensures Rendered(row.sql, 0, |row.args|, row.args, Meaning(row.sql, row.args)) && Indexed(row.sql)
  {
  }

  lemma RenderedWellNumbered(row: RowFilter, m: seq<Bound>)
    requires Rendered(row.sql, 0, |row.args|, row.args, m) && Indexed(row.sql)
    ensures WellNumbered(row) && Meaning(row.sql, row.args) == m
  {
  }

  lemma NoFragment(row: RowFilter)
    requires WellNumbered(row) && row.sql == ""
    ensures row.args == []
  {
    EmptyText(row.args);
    RangeElements(0, |row.args|, 0);
  }

  lemma TenantBehind(t: Table, col: string, row: RowFilter, tenant: string)
    requires t.Safe() && SafeText(col) && WellNumbered(row)
    ensures var args := row.args + [Text(tenant)];
            var s := "(" + row.sql + ") AND " + (t.Quoted(col) + " = " + PlaceholderText(|row.args| + 1));
            && WellNumbered(RowFilter(s, args))
            && Meaning(s, args) == Literal("(") + Meaning(row.sql, row.args) + Literal(") AND ") +
                TenantMeaning(t, col, tenant)
  {
    hide Rendered, SafeText, QuoteIdent, PlaceholderText, Literal, Indexed, TenantMeaning, WellNumbered, Meaning,
        Params;
    var args, n := row.args + [Text(tenant)], |row.args|;
    var clause := t.Quoted(col) + " = " + PlaceholderText(n + 1);
    var m := Meaning(row.sql, row.args);
    TenantWords();
    TenantClause(t, col, row.args, tenant);
    WellNumberedRenders(row);
    RGrow(row.sql, 0, n, row.args, m, [Text(tenant)]);
    RAfterLiteral("(", row.sql, 0, n, args, m);
    RThenLiteral("(" + row.sql, 0, n, args, Literal("(") + m, ") AND ");
    var head := "(" + row.sql + ") AND ";
    RConcat(head, clause, 0, n, n + 1, args, Literal("(") + m + Literal(") AND "), TenantMeaning(t, col, tenant));
    IndexedSafe("(");
    IndexedSafe(") AND ");
    IndexedCons('(', row.sql);
    assert ['('] + row.sql == "(" + row.sql;
    IndexedConcat("(" + row.sql, ") AND ");
    IndexedConcat(head, clause);
    RenderedWellNumbered(RowFilter(head + clause, args),
        Literal("(") + m + Literal(") AND ") + TenantMeaning(t, col, tenant));
  }

  /** scopeTenant: the tenant condition behind the row filter. */
  method ScopeTenant(t: Table, tenantColumn: string, row: RowFilter,
                     sub: Option<Subject>) returns (r: Result<RowFilter>)
    requires t.Safe() && SafeText(tenantColumn) && WellNumbered(row)
    ensures r.Ok? <==> tenantColumn == "" || (sub.Some? && sub.value.tenant != "")
    ensures tenantColumn == "" ==> r == Ok(row)
    ensures r.Ok? ==> WellNumbered(r.value)
    ensures r.Ok? && tenantColumn != "" ==>
      && r.value.args == row.args + [Text(sub.value.tenant)]
      && Meaning(r.value.sql, r.value.args) ==
           (if row.sql == "" then [] else Literal("(") + Meaning(row.sql, row.args) + Literal(") AND "))
           + TenantMeaning(t, tenantColumn, sub.value.tenant)
  {
    hide Rendered, SafeText, QuoteIdent, PlaceholderText, Literal, Indexed, TenantMeaning, WellNumbered, Meaning,
        Params;
    if tenantColumn == "" {
      return Ok(row);
    }
    if sub.None? || sub.value.tenant == "" {
      return Err("no tenant in credentials");
    }
    var args := row.args + [Text(sub.value.tenant)];
    var clause := t.Quoted(tenantColumn) + " = " + PlaceholderText(|row.args| + 1);
    TenantClause(t, tenantColumn, row.args, sub.value.tenant);
    if row.sql != "" {
      TenantBehind(t, tenantColumn, row, sub.value.tenant);
      clause := "(" + row.sql + ") AND " + clause;
    } else {
      NoFragment(row);
      assert [] + TenantMeaning(t, tenantColumn, sub.value.tenant) == TenantMeaning(t, tenantColumn, sub.value.tenant);
      RenderedWellNumbered(RowFilter(clause, args), TenantMeaning(t, tenantColumn, sub.value.tenant));
    }
    r := Ok(RowFilter(clause, args));
  }
}
