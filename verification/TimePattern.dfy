/** Time patterns (internal/timefmt/timefmt.go): the tokens of a pattern and how they render. */
module TimePattern {
  import opened Calendar
  import opened Numerals
  import opened SqlLogic
  import Strings

  datatype Field =
    | Year4 | Year2 | MonthFull | MonthShort | Month2 | Month1 | Day2 | Day1 | DayFull | DayShort
    | Hour2 | Hour1 | Half2 | Half1 | Minute2 | Minute1 | Second2 | Second1 | Millis
    | UpperHalf | LowerHalf | Zone | ZonePlain

  datatype Token = Lit(text: string) | Tok(f: Field)

  function Name(f: Field): (s: string)
    ensures s != []
  {
    match f
    case Year4 => "YYYY" case Year2 => "YY"
    case MonthFull => "MMMM" case MonthShort => "MMM" case Month2 => "MM" case Month1 => "M"
    case Day2 => "DD" case Day1 => "D" case DayFull => "dddd" case DayShort => "ddd"
    case Hour2 => "HH" case Hour1 => "H" case Half2 => "hh" case Half1 => "h"
    case Minute2 => "mm" case Minute1 => "m" case Second2 => "ss" case Second1 => "s" case Millis => "SSS"
    case UpperHalf => "A" case LowerHalf => "a" case Zone => "Z" case ZonePlain => "ZZ"
  }

  /** The order in which tokenize tries them. */
  const ORDER: seq<Field> := [
    Year4, MonthFull, DayFull, MonthShort, DayShort, Millis, Year2, Month2, Day2, Hour2, Half2, Minute2,
    Second2, ZonePlain, Month1, Day1, Hour1, Half1, Minute1, Second1, UpperHalf, LowerHalf, Zone]

  /** The first token from the k-th on that p starts with. */
  function FirstMatch(p: string, k: nat): (f: Option<Field>)
    requires k <= |ORDER|
    ensures f.Some? ==> Name(f.value) <= p
    decreases |ORDER| - k
  {
    if k == |ORDER| then None
    else if Name(ORDER[k]) <= p then Some(ORDER[k])
    else FirstMatch(p, k + 1)
  }

  lemma {:induction false} FirstMatchFinds(p: string, k: nat, j: nat)
    requires k <= j < |ORDER| && Name(ORDER[j]) <= p
    ensures FirstMatch(p, k).Some? && exists i :: k <= i <= j && FirstMatch(p, k).value == ORDER[i]
    decreases j - k
  {
    hide Name;
    if !(Name(ORDER[k]) <= p) { FirstMatchFinds(p, k + 1, j); }
  }

  function Place(f: Field): (i: nat)
    ensures i < |ORDER| && ORDER[i] == f
  {
    match f
    case Year4 => 0 case MonthFull => 1 case DayFull => 2 case MonthShort => 3 case DayShort => 4 case Millis => 5
    case Year2 => 6 case Month2 => 7 case Day2 => 8 case Hour2 => 9 case Half2 => 10 case Minute2 => 11
    case Second2 => 12 case ZonePlain => 13 case Month1 => 14 case Day1 => 15 case Hour1 => 16 case Half1 => 17
    case Minute1 => 18 case Second1 => 19 case UpperHalf => 20 case LowerHalf => 21 case Zone => 22
  }

  lemma OrderIsByLength(i: nat, j: nat)
    requires i <= j < |ORDER|
    ensures |Name(ORDER[i])| >= |Name(ORDER[j])|
  {
    var f, g := ORDER[i], ORDER[j];
    assert |Name(f)| == if i < 3 then 4 else if i < 6 then 3 else if i < 14 then 2 else 1;
    assert |Name(g)| == if j < 3 then 4 else if j < 6 then 3 else if j < 14 then 2 else 1;
  }

  /** Longest match: of all tokens the text starts with, the first tried is the longest. */
  lemma FirstMatchIsLongest(p: string, g: Field)
    requires Name(g) <= p
    ensures FirstMatch(p, 0).Some? && |Name(FirstMatch(p, 0).value)| >= |Name(g)|
  {
    hide Name, FirstMatch;
    FirstMatchFinds(p, 0, Place(g));
    var i :| 0 <= i <= Place(g) && FirstMatch(p, 0).value == ORDER[i];
    OrderIsByLength(i, Place(g));
  }

  // ---- tokenize ----

  /** Literal text joins a literal before it. */
  function AddLiteral(out: seq<Token>, s: string): seq<Token> {
    var n := |out|;
    if n > 0 && out[n - 1].Lit? then out[..n - 1] + [Lit(out[n - 1].text + s)] else out + [Lit(s)]
  }

  /** Reading the rest of a pattern after out; None when a bracket is not closed. */
  function Scan(p: string, out: seq<Token>, anchored: bool): Option<(seq<Token>, bool)>
    decreases |p|
  {
    if p == [] then Some((out, anchored))
    else if p[0] == '[' then
      var end := Strings.IndexOfChar(p, ']');
      if end == |p| then None else Scan(p[end + 1..], AddLiteral(out, p[1..end]), anchored)
    else
      match FirstMatch(p, 0)
      case Some(f) => Scan(p[|Name(f)|..], out + [Tok(f)], anchored || |Name(f)| > 1)
      case None => Scan(p[1..], AddLiteral(out, p[..1]), anchored)
  }

  method TryTokens(p: string) returns (f: Option<Field>)
    ensures f == FirstMatch(p, 0)
  {
    hide Name;
    for k := 0 to |ORDER|
      invariant FirstMatch(p, 0) == FirstMatch(p, k)
    {
      if Name(ORDER[k]) <= p {
        return Some(ORDER[k]);
      }
    }
    f := None;
  }

  /** The text a token list came from, brackets aside. */
  function Spelled(tks: seq<Token>): string {
    if tks == [] then ""
    else Spelled(tks[..|tks| - 1]) + (var tk := tks[|tks| - 1]; if tk.Lit? then tk.text else Name(tk.f))
  }

  /** A pattern without its bracket delimiters; None when one is not closed. */
  function Unbracketed(p: string): Option<string>
    decreases |p|
  {
    if p == [] then Some("")
    else if p[0] == '[' then
      var end := Strings.IndexOfChar(p, ']');
      if end == |p| then None
      else
        var rest := Unbracketed(p[end + 1..]);
        if rest.Some? then Some(p[1..end] + rest.value) else None
    else
      var rest := Unbracketed(p[1..]);
      if rest.Some? then Some(p[..1] + rest.value) else None
  }

  predicate NoBracket(s: string) { forall i :: 0 <= i < |s| ==> s[i] != '[' }

  lemma UnbracketedStep(p: string)
    ensures p == [] ==> Unbracketed(p) == Some("")
    ensures p != [] && p[0] == '[' ==>
      var end := Strings.IndexOfChar(p, ']');
      if end == |p| then Unbracketed(p) == None
      else
        && end > 0
        && Unbracketed(p) == match Unbracketed(p[end + 1..]) case None => None case Some(r) => Some(p[1..end] + r)
    ensures p != [] && p[0] != '[' ==>
      Unbracketed(p) == match Unbracketed(p[1..]) case None => None case Some(r) => Some(p[..1] + r)
  {
  }

  lemma {:induction false} UnbracketedPlain(a: string, b: string)
    requires NoBracket(a)
    ensures Unbracketed(a + b) == if Unbracketed(b).Some? then Some(a + Unbracketed(b).value) else None
    decreases |a|
  {
    if a == [] {
      assert a + b == b;
      if Unbracketed(b).Some? { assert a + Unbracketed(b).value == Unbracketed(b).value; }
    } else {
      assert (a + b)[1..] == a[1..] + b && (a + b)[..1] == a[..1];
      UnbracketedPlain(a[1..], b);
      if Unbracketed(b).Some? {
        assert a[..1] + (a[1..] + Unbracketed(b).value) == a + Unbracketed(b).value;
      }
    }
  }

  lemma NamesHaveNoBracket(f: Field)
    ensures NoBracket(Name(f))
  {
  }

  lemma SpelledLiteral(out: seq<Token>, s: string)
    ensures Spelled(AddLiteral(out, s)) == Spelled(out) + s
  {
    hide Name;
    var n := |out|;
    if n > 0 && out[n - 1].Lit? {
      assert AddLiteral(out, s)[..n - 1] == out[..n - 1];
    } else {
      assert AddLiteral(out, s)[..n] == out;
    }
  }

  /** Tokenizing loses nothing and fails only on an open bracket: the tokens spell the pattern
      without its brackets. */
  lemma {:induction false} TokensSpellPattern(p: string, out: seq<Token>, anchored: bool)
    ensures Scan(p, out, anchored).Some? <==> Unbracketed(p).Some?
    ensures Scan(p, out, anchored).Some? ==>
        Spelled(Scan(p, out, anchored).value.0) == Spelled(out) + Unbracketed(p).value
    decreases |p|
  {
    hide Name, FirstMatch, Spelled, AddLiteral, Unbracketed, Strings.IndexOfChar;
    UnbracketedStep(p);
    if p == [] {
      assert Spelled(out) + "" == Spelled(out);
    } else if p[0] == '[' {
      var end := Strings.IndexOfChar(p, ']');
      if end < |p| {
        SpelledLiteral(out, p[1..end]);
        TokensSpellPattern(p[end + 1..], AddLiteral(out, p[1..end]), anchored);
      }
    } else if FirstMatch(p, 0).Some? {
      var f := FirstMatch(p, 0).value;
      SpelledToken(out, f);
      TokensSpellPattern(p[|Name(f)|..], out + [Tok(f)], anchored || |Name(f)| > 1);
      NamesHaveNoBracket(f);
      assert p == Name(f) + p[|Name(f)|..];
      UnbracketedPlain(Name(f), p[|Name(f)|..]);
    } else {
      SpelledLiteral(out, p[..1]);
      TokensSpellPattern(p[1..], AddLiteral(out, p[..1]), anchored);
    }
  }

  /** No two literals stand side by side. */
  predicate Merged(tks: seq<Token>) {
    forall i :: 0 <= i < |tks| - 1 ==> !(tks[i].Lit? && tks[i + 1].Lit?)
  }

  lemma {:induction false} ScanMerges(p: string, out: seq<Token>, anchored: bool)
    requires Merged(out)
    ensures Scan(p, out, anchored).Some? ==> Merged(Scan(p, out, anchored).value.0)
    decreases |p|
  {
    hide Name, FirstMatch, Strings.IndexOfChar;
    if p != [] {
      if p[0] == '[' {
        var end := Strings.IndexOfChar(p, ']');
        if end < |p| { ScanMerges(p[end + 1..], AddLiteral(out, p[1..end]), anchored); }
      } else if FirstMatch(p, 0).Some? {
        var f := FirstMatch(p, 0).value;
        ScanMerges(p[|Name(f)|..], out + [Tok(f)], anchored || |Name(f)| > 1);
      } else {
        ScanMerges(p[1..], AddLiteral(out, p[..1]), anchored);
      }
    }
  }

  /** Literal text between two tokens is one literal, in brackets or not. */
  lemma LiteralsAreMerged(p: string)
    ensures TokensOf(p).Some? ==> Merged(TokensOf(p).value)
  {
    hide Scan;
    ScanMerges(p, [], false);
  }

  lemma SpelledToken(out: seq<Token>, f: Field)
    ensures Spelled(out + [Tok(f)]) == Spelled(out) + Name(f)
  {
    hide Name;
    assert (out + [Tok(f)])[..|out|] == out;
  }

  predicate IsAnchor(tk: Token) { tk.Tok? && |Name(tk.f)| > 1 }

  predicate Anchored(tks: seq<Token>) { exists i :: 0 <= i < |tks| && IsAnchor(tks[i]) }

  lemma AnchoredAppend(out: seq<Token>, tk: Token)
    ensures Anchored(out + [tk]) <==> Anchored(out) || IsAnchor(tk)
  {
    hide IsAnchor;
    assert (out + [tk])[|out|] == tk;
    assert forall i :: 0 <= i < |out| ==> (out + [tk])[i] == out[i];
  }

  lemma AnchoredLiteral(out: seq<Token>, s: string)
    ensures Anchored(AddLiteral(out, s)) <==> Anchored(out)
  {
    var n := |out|;
    if n > 0 && out[n - 1].Lit? {
      AnchoredAppend(out[..n - 1], Lit(out[n - 1].text + s));
      AnchoredAppend(out[..n - 1], out[n - 1]);
      assert out == out[..n - 1] + [out[n - 1]];
    } else {
      AnchoredAppend(out, Lit(s));
    }
  }

  lemma {:induction false} ScanTracksAnchors(p: string, out: seq<Token>, anchored: bool)
    requires anchored <==> Anchored(out)
    ensures Scan(p, out, anchored).Some? ==>
        (Scan(p, out, anchored).value.1 <==> Anchored(Scan(p, out, anchored).value.0))
    decreases |p|
  {
    hide Name, FirstMatch, Anchored, AddLiteral;
    if p != [] {
      if p[0] == '[' {
        var end := Strings.IndexOfChar(p, ']');
        if end < |p| {
          AnchoredLiteral(out, p[1..end]);
          ScanTracksAnchors(p[end + 1..], AddLiteral(out, p[1..end]), anchored);
        }
      } else if FirstMatch(p, 0).Some? {
        var f := FirstMatch(p, 0).value;
        AnchoredAppend(out, Tok(f));
        ScanTracksAnchors(p[|Name(f)|..], out + [Tok(f)], anchored || |Name(f)| > 1);
      } else {
        AnchoredLiteral(out, p[..1]);
        ScanTracksAnchors(p[1..], AddLiteral(out, p[..1]), anchored);
      }
    }
  }

  /** The tokens of a pattern; None when a bracket is open or no token has two or more letters. */
  function TokensOf(p: string): Option<seq<Token>> {
    match Scan(p, [], false)
    case None => None
    case Some(r) => if r.1 then Some(r.0) else None
  }

  /** tokenize fails exactly on an open bracket or without an anchor; otherwise the tokens spell
      the pattern without its brackets. */
  lemma TokenizeLosesNothing(p: string)
    ensures TokensOf(p).Some? ==> Unbracketed(p) == Some(Spelled(TokensOf(p).value)) && Anchored(TokensOf(p).value)
    ensures TokensOf(p).None? <==>
      Unbracketed(p).None? || (Scan(p, [], false).Some? && !Anchored(Scan(p, [], false).value.0))
  {
    hide Name, Scan, Unbracketed, Anchored, Spelled;
    NoTokens();
    TokensSpellPattern(p, [], false);
    ScanTracksAnchors(p, [], false);
    if Scan(p, [], false).Some? {
      assert Spelled([]) + Unbracketed(p).value == Unbracketed(p).value;
    }
  }

  lemma ScanBracket(p: string, i: nat, end: nat, out: seq<Token>, anchored: bool)
    requires i < |p| && p[i] == '[' && end == Strings.IndexOfChar(p[i..], ']')
    ensures end == |p| - i ==> Scan(p[i..], out, anchored) == None
    ensures end < |p| - i ==>
        end > 0 && Scan(p[i..], out, anchored) == Scan(p[i + end + 1..], AddLiteral(out, p[i + 1..i + end]), anchored)
  {
    hide AddLiteral, FirstMatch;
    var rest := p[i..];
    if end < |p| - i {
      assert rest[1..end] == p[i + 1..i + end] && rest[end + 1..] == p[i + end + 1..];
    }
  }

  lemma ScanField(p: string, i: nat, out: seq<Token>, anchored: bool)
    requires i < |p| && p[i] != '['
    ensures match FirstMatch(p[i..], 0)
            case Some(f) => i + |Name(f)| <= |p| &&
              Scan(p[i..], out, anchored) == Scan(p[i + |Name(f)|..], out + [Tok(f)], anchored || |Name(f)| > 1)
            case None => Scan(p[i..], out, anchored) == Scan(p[i + 1..], AddLiteral(out, p[i..i + 1]), anchored)
  {
    hide AddLiteral, FirstMatch, Name;
    var rest := p[i..];
    match FirstMatch(rest, 0)
    case Some(f) => assert rest[|Name(f)|..] == p[i + |Name(f)|..];
    case None => assert rest[..1] == p[i..i + 1] && rest[1..] == p[i + 1..];
  }

  method Tokenize(p: string) returns (out: Option<seq<Token>>)
    ensures out == TokensOf(p)
  {
    hide Name, FirstMatch, Scan, AddLiteral;
    var tks: seq<Token> := [];
    var anchored := false;
    var i := 0;
    assert p[0..] == p;
    while i < |p|
      invariant 0 <= i <= |p|
      invariant Scan(p, [], false) == Scan(p[i..], tks, anchored)
      decreases |p| - i
    {
      if p[i] == '[' {
        var end := Strings.IndexOfChar(p[i..], ']');
        ScanBracket(p, i, end, tks, anchored);
        if end == |p| - i {
          return None;
        }
        tks := AddLiteral(tks, p[i + 1..i + end]);
        i := i + end + 1;
      } else {
        ScanField(p, i, tks, anchored);
        var f := TryTokens(p[i..]);
        if f.Some? {
          tks := tks + [Tok(f.value)];
          anchored := anchored || |Name(f.value)| > 1;
          i := i + |Name(f.value)|;
        } else {
          tks := AddLiteral(tks, p[i..i + 1]);
          i := i + 1;
        }
      }
    }
    ScanEnd(p[i..], tks, anchored);
    out := if anchored then Some(tks) else None;
  }

  lemma ScanEnd(p: string, out: seq<Token>, anchored: bool)
    requires p == []
    ensures Scan(p, out, anchored) == Some((out, anchored))
  {
  }

  lemma NoTokens()
    ensures Spelled([]) == "" && !Anchored([])
  {
  }

  // ---- rendering ----

  function MonthName(m: int): string {
    match m
    case 1 => "January" case 2 => "February" case 3 => "March" case 4 => "April" case 5 => "May" case 6 => "June"
    case 7 => "July" case 8 => "August" case 9 => "September" case 10 => "October" case 11 => "November"
    case _ => "December"
  }

  function DayName(d: int): string {
    match d
    case 0 => "Sunday" case 1 => "Monday" case 2 => "Tuesday" case 3 => "Wednesday"
    case 4 => "Thursday" case 5 => "Friday" case _ => "Saturday"
  }

  /** The weekday of a date, Sunday being 0: 1 January of the year 0 was a Saturday. */
  function Weekday(t: Civil): (d: nat)
    requires Valid(t)
    ensures d < 7
  {
    (DayNumber(t.year, t.month, t.day) + 6) % 7
  }

  /** The day names follow one another, and 1 January 1970 was a Thursday. */
  lemma WeekdaysFollow(a: Civil, b: Civil)
    requires Valid(a) && Valid(b) && DayNumber(b.year, b.month, b.day) == DayNumber(a.year, a.month, a.day) + 1
    ensures (DayName(Weekday(a)), DayName(Weekday(b))) in [
      ("Monday", "Tuesday"), ("Tuesday", "Wednesday"), ("Wednesday", "Thursday"), ("Thursday", "Friday"),
      ("Friday", "Saturday"), ("Saturday", "Sunday"), ("Sunday", "Monday")]
  {
    hide DayNumber;
  }

  lemma EpochIsThursday(t: Civil)
    requires Valid(t) && t.year == 1970 && t.month == 1 && t.day == 1
    ensures DayName(Weekday(t)) == "Thursday"
  {
    hide DaysBeforeYear;
    assert DaysBeforeYear(1970) == 719_528 by { DaysOfYears(1970); }
    assert DaysBeforeMonth(1970, 1) == 0;
  }

  function HalfDay(hour: nat): nat { if hour % 12 == 0 then 12 else hour % 12 }

  function RenderField(f: Field, t: Civil): string
    requires Valid(t)
  {
    match f
    case Year4 => Pad(t.year, 4)
    case Year2 => Pad(t.year % 100, 2)
    case MonthFull => MonthName(t.month)
    case MonthShort => First3(MonthName(t.month))
    case Month2 => Pad(t.month, 2)
    case Month1 => Itoa(t.month)
    case Day2 => Pad(t.day, 2)
    case Day1 => Itoa(t.day)
    case DayFull => DayName(Weekday(t))
    case DayShort => First3(DayName(Weekday(t)))
    case Hour2 => Pad(t.hour, 2)
    case Hour1 => Itoa(t.hour)
    case Half2 => Pad(HalfDay(t.hour), 2)
    case Half1 => Itoa(HalfDay(t.hour))
    case Minute2 => Pad(t.minute, 2)
    case Minute1 => Itoa(t.minute)
    case Second2 => Pad(t.second, 2)
    case Second1 => Itoa(t.second)
    case Millis => Pad(t.nano / 1_000_000, 3)
    case UpperHalf => if t.hour < 12 then "AM" else "PM"
    case LowerHalf => if t.hour < 12 then "am" else "pm"
    case Zone => "Z"
    case ZonePlain => "+0000"
  }

  function First3(s: string): string { if |s| < 3 then s else s[..3] }

  function RenderToken(tk: Token, t: Civil): string
    requires Valid(t)
  {
    match tk
    case Lit(text) => text
    case Tok(f) => RenderField(f, t)
  }

  function RenderAll(tks: seq<Token>, t: Civil): string
    requires Valid(t)
  {
    if tks == [] then "" else RenderToken(tks[0], t) + RenderAll(tks[1..], t)
  }

  /** Render of a pattern, for a UTC location. */
  method Render(tks: seq<Token>, t: Civil) returns (b: string)
    requires Valid(t)
    ensures b == RenderAll(tks, t)
  {
    hide RenderToken;
    b := "";
    assert tks[0..] == tks;
    for i := 0 to |tks|
      invariant RenderAll(tks, t) == b + RenderAll(tks[i..], t)
    {
      assert tks[i..][0] == tks[i] && tks[i..][1..] == tks[i + 1..];
      ghost var rest := RenderAll(tks[i + 1..], t);
      assert b + (RenderToken(tks[i], t) + rest) == (b + RenderToken(tks[i], t)) + rest;
      b := b + RenderToken(tks[i], t);
    }
  }

  // ---- what each token shows ----

  const MONTHS := ["January", "February", "March", "April", "May", "June", "July", "August", "September", "October",
                   "November", "December"]
  const DAYS := ["Sunday", "Monday", "Tuesday", "Wednesday", "Thursday", "Friday", "Saturday"]

  /** The text that stands for a token in UTC, by the token's spelling. */
  function Shown(token: string, t: Civil): string
    requires Valid(t)
  {
    var day := (DayNumber(t.year, t.month, t.day) + 6) % 7;
    var half := if t.hour == 0 then 12 else if t.hour > 12 then t.hour - 12 else t.hour;
    match token
    case "YYYY" => Pad(t.year, 4)
    case "YY" => Pad(t.year % 100, 2)
    case "MMMM" => MONTHS[t.month - 1]
    case "MMM" => MONTHS[t.month - 1][..3]
    case "MM" => Pad(t.month, 2)
    case "M" => Itoa(t.month)
    case "DD" => Pad(t.day, 2)
    case "D" => Itoa(t.day)
    case "dddd" => DAYS[day]
    case "ddd" => DAYS[day][..3]
    case "HH" => Pad(t.hour, 2)
    case "H" => Itoa(t.hour)
    case "hh" => Pad(half, 2)
    case "h" => Itoa(half)
    case "mm" => Pad(t.minute, 2)
    case "m" => Itoa(t.minute)
    case "ss" => Pad(t.second, 2)
    case "s" => Itoa(t.second)
    case "SSS" => Pad(t.nano / 1_000_000, 3)
    case "A" => if t.hour < 12 then "AM" else "PM"
    case "a" => if t.hour < 12 then "am" else "pm"
    case "Z" => "Z"
    case "ZZ" => "+0000"
    case _ => ""
  }

  /** Every token shows what its spelling stands for. */
  lemma TokensShow(f: Field, t: Civil)
    requires Valid(t)
    ensures RenderField(f, t) == Shown(Name(f), t)
  {
    hide Pad, Itoa, DayNumber;
  }
}
