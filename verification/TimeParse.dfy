/** Parsing by a time pattern (internal/timefmt/timefmt.go), for a format whose location is UTC,
    and how it undoes rendering. */
module TimeParse {
  import opened Calendar
  import opened Numerals
  import opened SqlLogic
  import opened TimePattern

  // ---- the readers ----

  function AtMost(n: nat, max: nat): nat { if n < max then n else max }

  /** num: at least min and at most max digits. */
  function ReadNumber(min: nat, max: nat, s: string): Option<(nat, string)> {
    var n := AtMost(DigitRun(s), max);
    if n < min then None else Some((Number(s[..n]), s[n..]))
  }

  method Num(min: nat, max: nat, s: string) returns (r: Option<(nat, string)>)
    ensures r == ReadNumber(min, max, s)
  {
    hide Number;
    var n := 0;
    assert s[0..] == s;
    while n < max && n < |s| && '0' <= s[n] <= '9'
      invariant n <= max && n <= |s| && DigitRun(s) == n + DigitRun(s[n..])
      decreases |s| - n
    {
      assert s[n..][1..] == s[n + 1..];
      n := n + 1;
    }
    r := if n < min then None else Some((Number(s[..n]), s[n..]));
  }

  function LowerChar(c: char): char { if 'A' <= c <= 'Z' then (c as int + 32) as char else c }

  /** A prefix, letter case aside. */
  predicate FoldPrefix(n: string, s: string) {
    |n| <= |s| && forall i :: 0 <= i < |n| ==> LowerChar(s[i]) == LowerChar(n[i])
  }

  /** Letter case aside means: every character is the same, or the other case of the same letter. */
  lemma FoldsCase(n: string, s: string)
    ensures FoldPrefix(n, s) <==> |n| <= |s| && forall i :: 0 <= i < |n| ==>
      || s[i] == n[i]
      || ('A' <= n[i] <= 'Z' && s[i] as int == n[i] as int + 32)
      || ('A' <= s[i] <= 'Z' && n[i] as int == s[i] as int + 32)
  {
  }

  datatype Names = Months | ShortMonths | Days | ShortDays | Halves

  function Count(names: Names): nat {
    match names
    case Months => 12 case ShortMonths => 12 case Days => 7 case ShortDays => 7 case Halves => 2
  }

  function NameAt(names: Names, i: nat): string {
    match names
    case Months => MonthName(i + 1)
    case ShortMonths => First3(MonthName(i + 1))
    case Days => DayName(i)
    case ShortDays => First3(DayName(i))
    case Halves => if i == 0 then "AM" else "PM"
  }

  /** name: the first listed name the text starts with. */
  function ReadName(names: Names, i: nat, s: string): Option<(nat, string)>
    decreases Count(names) - i
  {
    if i >= Count(names) then None
    else if FoldPrefix(NameAt(names, i), s) then Some((i, s[|NameAt(names, i)|..]))
    else ReadName(names, i + 1, s)
  }

  method NameIndex(names: Names, s: string) returns (r: Option<(nat, string)>)
    ensures r == ReadName(names, 0, s)
  {
    hide NameAt, FoldPrefix;
    for i := 0 to Count(names)
      invariant ReadName(names, 0, s) == ReadName(names, i, s)
    {
      if FoldPrefixes(NameAt(names, i), s) {
        return Some((i, s[|NameAt(names, i)|..]));
      }
    }
    r := None;
  }

  predicate FoldPrefixes(n: string, s: string)
    ensures FoldPrefixes(n, s) <==> FoldPrefix(n, s)
    ensures FoldPrefixes(n, s) ==> |n| <= |s|
  {
    FoldPrefix(n, s)
  }

  /** strconv.Atoi of two characters: the first may be a sign. */
  function Atoi2(s: string): Option<int>
    requires |s| == 2
  {
    if IsDigit(s[0]) && IsDigit(s[1]) then Some(Number(s))
    else if (s[0] == '+' || s[0] == '-') && IsDigit(s[1]) then
      var n: int := Number(s[1..]);
      Some(if s[0] == '-' then -n else n)
    else None
  }

  /** parseOffset: seconds east of UTC. */
  function ReadOffset(s: string): Option<(int, string)> {
    if s != [] && s[0] == 'Z' then Some((0, s[1..]))
    else if |s| < 5 || (s[0] != '+' && s[0] != '-') then None
    else
      var hh := Atoi2(s[1..3]);
      var rest := if s[3] == ':' then s[4..] else s[3..];
      if |rest| < 2 then None
      else
        var mm := Atoi2(rest[..2]);
        if hh.None? || mm.None? then None
        else Some(((if s[0] == '-' then -1 else 1) * (hh.value * 3600 + mm.value * 60), rest[2..]))
  }

  function Digit(c: char): int { c as int - '0' as int }

  /** +hh:mm, with or without the colon, is that many hours and minutes east, -hh:mm west; a sign on
      the hours or minutes themselves, which the number reader lets through, counts as theirs. */
  lemma OffsetsRead(sign: char, a: char, b: char, colon: bool, c: char, d: char, rest: string)
    requires (sign == '+' || sign == '-') && IsDigit(b) && IsDigit(d)
    requires (IsDigit(a) || a == '+' || a == '-') && (IsDigit(c) || c == '+' || c == '-')
    ensures var hours := if a == '-' then -Digit(b) else if a == '+' then Digit(b) else 10 * Digit(a) + Digit(b);
      var minutes := if c == '-' then -Digit(d) else if c == '+' then Digit(d) else 10 * Digit(c) + Digit(d);
      var east := 3600 * hours + 60 * minutes;
      ReadOffset([sign, a, b] + (if colon then [':'] else []) + [c, d] + rest)
      == Some((if sign == '-' then -east else east, rest))
  {
    hide Atoi2;
    var tail := (if colon then [':'] else []) + [c, d] + rest;
    var s := [sign, a, b] + (if colon then [':'] else []) + [c, d] + rest;
    assert s == [sign, a, b] + tail && s[1..3] == [a, b] && s[3..] == tail;
    var after := if s[3] == ':' then s[4..] else s[3..];
    assert after == [c, d] + rest;
    assert after[..2] == [c, d] && after[2..] == rest;
    TwoCharacters(a, b);
    TwoCharacters(c, d);
  }

  lemma TwoCharacters(a: char, b: char)
    ensures Atoi2([a, b]) ==
      if IsDigit(b) && IsDigit(a) then Some(10 * Digit(a) + Digit(b))
      else if IsDigit(b) && a == '+' then Some(Digit(b))
      else if IsDigit(b) && a == '-' then Some(-Digit(b))
      else None
  {
    assert [a, b][1..] == [b] && [a, b][..1] == [a] && [b][..0] == [] && [a][..0] == [];
    if IsDigit(a) { assert Number([a]) == 10 * Number([]) + Digit(a); }
    if IsDigit(b) { assert Number([b]) == 10 * Number([]) + Digit(b); }
  }

  /** Z is UTC; anything else that is not a sign and two numbers is refused. */
  lemma OtherOffsets(s: string)
    ensures s != "" && s[0] == 'Z' ==> ReadOffset(s) == Some((0, s[1..]))
    ensures s == "" || s[0] !in {'Z', '+', '-'} ==> ReadOffset(s) == None
  {
  }

  // ---- the components ----
  // ---- the components ----

  datatype Parts = Parts(year: nat, month: nat, day: nat, hour: nat, minute: nat, second: nat, ms: nat,
                         pm: bool, hasHalf: bool, offset: int)

  const START := Parts(1970, 1, 1, 0, 0, 0, 0, false, false, 0)

  datatype Shape = Figures(min: nat, max: nat) | Named(names: Names) | Offset

  /** How a token reads. */
  function ShapeOf(f: Field): Shape {
    match f
    case Year4 => Figures(4, 4)
    case MonthFull => Named(Months)
    case MonthShort => Named(ShortMonths)
    case DayFull => Named(Days)
    case DayShort => Named(ShortDays)
    case Month1 => Figures(1, 2)
    case Day1 => Figures(1, 2)
    case Hour1 => Figures(1, 2)
    case Half1 => Figures(1, 2)
    case Minute1 => Figures(1, 2)
    case Second1 => Figures(1, 2)
    case Millis => Figures(3, 3)
    case UpperHalf => Named(Halves)
    case LowerHalf => Named(Halves)
    case Zone => Offset
    case ZonePlain => Offset
    case _ => Figures(2, 2)
  }

  function ReadShape(sh: Shape, s: string): (r: Option<(int, string)>)
    ensures r.Some? && !sh.Offset? ==> r.value.0 >= 0
  {
    match sh
    case Figures(min, max) => ReadNumber(min, max, s)
    case Named(names) => ReadName(names, 0, s)
    case Offset => ReadOffset(s)
  }

  /** What a token sets. */
  function Store(f: Field, v: int, p: Parts): Parts
    requires v >= 0 || ShapeOf(f).Offset?
  {
    match f
    case Year4 => p.(year := v)
    case Year2 => p.(year := v + 2000)
    case MonthFull => p.(month := v + 1)
    case MonthShort => p.(month := v + 1)
    case Month2 => p.(month := v)
    case Month1 => p.(month := v)
    case Day2 => p.(day := v)
    case Day1 => p.(day := v)
    case DayFull => p
    case DayShort => p
    case Hour2 => p.(hour := v)
    case Hour1 => p.(hour := v)
    case Half2 => p.(hour := v)
    case Half1 => p.(hour := v)
    case Minute2 => p.(minute := v)
    case Minute1 => p.(minute := v)
    case Second2 => p.(second := v)
    case Second1 => p.(second := v)
    case Millis => p.(ms := v)
    case UpperHalf => p.(pm := v == 1, hasHalf := true)
    case LowerHalf => p.(pm := v == 1, hasHalf := true)
    case Zone => p.(offset := v)
    case ZonePlain => p.(offset := v)
  }

  function ReadField(f: Field, s: string, p: Parts): Option<(Parts, string)> {
    match ReadShape(ShapeOf(f), s)
    case None => None
    case Some(r) => Some((Store(f, r.0, p), r.1))
  }

  function ReadToken(tk: Token, s: string, p: Parts): Option<(Parts, string)> {
    match tk
    case Lit(text) => if text <= s then Some((p, s[|text|..])) else None
    case Tok(f) => ReadField(f, s, p)
  }

  function ReadAll(tks: seq<Token>, s: string, p: Parts): Option<(Parts, string)> {
    if tks == [] then Some((p, s))
    else
      match ReadToken(tks[0], s, p)
      case None => None
      case Some(r) => ReadAll(tks[1..], r.1, r.0)
  }

  // ---- time.Date ----

  /** A day count past the end of a month runs on into the next one. */
  function RunOn(year: int, month: int, day: nat): (int, int, int)
    requires 1 <= month <= 12
    decreases day
  {
    if day <= DaysIn(year, month) then (year, month, day)
    else if month == 12 then RunOn(year + 1, 1, day - DaysIn(year, month))
    else RunOn(year, month + 1, day - DaysIn(year, month))
  }

  /** time.Date: every component out of range carries over into the next larger one. */
  function TimeDate(year: int, month: nat, day: nat, hour: nat, minute: nat, second: nat, nano: nat): Civil {
    var m := minute + second / 60;
    var h := hour + m / 60;
    var d := day + h / 24;
    var y0, m0 := year + (month - 1) / 12, (month - 1) % 12 + 1;
    var date :=
      if d > 0 then RunOn(y0, m0, d)
      else if m0 == 1 then (y0 - 1, 12, 31)
      else (y0, m0 - 1, DaysIn(y0, m0 - 1));
    Civil(date.0, date.1, date.2, h % 24, m % 60, second % 60, nano)
  }

  /** The time of a successful parse: its wall clock and its offset from UTC. */
  datatype Parsed = Parsed(at: Civil, offset: int)

  /** A twelve-hour clock reading; None when it is not 1 to 12. */
  function HourOf(p: Parts): Option<nat> {
    if !p.hasHalf then Some(p.hour)
    else if p.hour < 1 || p.hour > 12 then None
    else Some(p.hour % 12 + if p.pm then 12 else 0)
  }

  function Finish(p: Parts): Option<Parsed> {
    match HourOf(p)
    case None => None
    case Some(hour) =>
      var t := TimeDate(p.year, p.month, p.day, hour, p.minute, p.second, p.ms * 1_000_000);
      if t.year != p.year || t.month != p.month || t.day != p.day
         || t.hour != hour || t.minute != p.minute || t.second != p.second
      then None
      else Some(Parsed(t, p.offset))
  }

  function Parse(tks: seq<Token>, s: string): Option<Parsed> {
    match ReadAll(tks, s, START)
    case None => None
    case Some(r) => if r.1 != [] then None else Finish(r.0)
  }

  /** One round of the loop over the tokens. */
  method Step(tk: Token, s: string, p: Parts) returns (r: Option<(Parts, string)>)
    ensures r == ReadToken(tk, s, p)
  {
    hide ReadNumber, ReadName, ReadOffset;
    r := None;
    match tk {
      case Lit(text) =>
        if text <= s { r := Some((p, s[|text|..])); }
      case Tok(f) =>
        var n: Option<(nat, string)> := None;
        match f {
          case Year4 => n := Num(4, 4, s); if n.Some? { r := Some((p.(year := n.value.0), n.value.1)); }
          case Year2 => n := Num(2, 2, s); if n.Some? { r := Some((p.(year := n.value.0 + 2000), n.value.1)); }
          case MonthFull => n := NameIndex(Months, s);
              if n.Some? { r := Some((p.(month := n.value.0 + 1), n.value.1)); }
          case MonthShort => n := NameIndex(ShortMonths, s);
              if n.Some? { r := Some((p.(month := n.value.0 + 1), n.value.1)); }
          case Month2 => n := Num(2, 2, s); if n.Some? { r := Some((p.(month := n.value.0), n.value.1)); }
          case Month1 => n := Num(1, 2, s); if n.Some? { r := Some((p.(month := n.value.0), n.value.1)); }
          case Day2 => n := Num(2, 2, s); if n.Some? { r := Some((p.(day := n.value.0), n.value.1)); }
          case Day1 => n := Num(1, 2, s); if n.Some? { r := Some((p.(day := n.value.0), n.value.1)); }
          case DayFull => n := NameIndex(Days, s); if n.Some? { r := Some((p, n.value.1)); }
          case DayShort => n := NameIndex(ShortDays, s); if n.Some? { r := Some((p, n.value.1)); }
          case Hour2 => n := Num(2, 2, s); if n.Some? { r := Some((p.(hour := n.value.0), n.value.1)); }
          case Half2 => n := Num(2, 2, s); if n.Some? { r := Some((p.(hour := n.value.0), n.value.1)); }
          case Hour1 => n := Num(1, 2, s); if n.Some? { r := Some((p.(hour := n.value.0), n.value.1)); }
          case Half1 => n := Num(1, 2, s); if n.Some? { r := Some((p.(hour := n.value.0), n.value.1)); }
          case Minute2 => n := Num(2, 2, s); if n.Some? { r := Some((p.(minute := n.value.0), n.value.1)); }
          case Minute1 => n := Num(1, 2, s); if n.Some? { r := Some((p.(minute := n.value.0), n.value.1)); }
          case Second2 => n := Num(2, 2, s); if n.Some? { r := Some((p.(second := n.value.0), n.value.1)); }
          case Second1 => n := Num(1, 2, s); if n.Some? { r := Some((p.(second := n.value.0), n.value.1)); }
          case Millis => n := Num(3, 3, s); if n.Some? { r := Some((p.(ms := n.value.0), n.value.1)); }
          case UpperHalf => n := NameIndex(Halves, s);
              if n.Some? { r := Some((p.(pm := n.value.0 == 1, hasHalf := true), n.value.1)); }
          case LowerHalf => n := NameIndex(Halves, s);
              if n.Some? { r := Some((p.(pm := n.value.0 == 1, hasHalf := true), n.value.1)); }
          case Zone => var z := ReadOffset(s); if z.Some? { r := Some((p.(offset := z.value.0), z.value.1)); }
          case ZonePlain => var z := ReadOffset(s); if z.Some? { r := Some((p.(offset := z.value.0), z.value.1)); }
        }
    }
  }

  /** parsePattern */
  method ParsePattern(tks: seq<Token>, text: string) returns (t: Option<Parsed>)
    ensures t == Parse(tks, text)
  {
    hide ReadToken, Finish;
    var p, s := START, text;
    assert tks[0..] == tks;
    for i := 0 to |tks|
      invariant ReadAll(tks, text, START) == ReadAll(tks[i..], s, p)
    {
      assert tks[i..][0] == tks[i] && tks[i..][1..] == tks[i + 1..];
      var r := Step(tks[i], s, p);
      if r.None? {
        return None;
      }
      p, s := r.value.0, r.value.1;
    }
    t := if s != [] then None else Finish(p);
  }
}
