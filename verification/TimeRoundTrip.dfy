/** Parsing undoes rendering, and never accepts a date that would have to be normalised
    (internal/timefmt/timefmt.go). */
module TimeRoundTrip {
  import opened Calendar
  import opened Numerals
  import opened SqlLogic
  import opened TimePattern
  import opened TimeParse

  // ---- numbers ----

  lemma {:induction false} DigitRunReaches(a: string, b: string)
    requires Digits(a)
    ensures DigitRun(a + b) >= |a|
    decreases |a|
  {
    if a != [] {
      assert (a + b)[1..] == a[1..] + b;
      DigitRunReaches(a[1..], b);
    }
  }

  lemma {:induction false} DigitRunStops(a: string, b: string)
    requires Digits(a) && (b == [] || !IsDigit(b[0]))
    ensures DigitRun(a + b) == |a|
    decreases |a|
  {
    if a == [] {
      assert a + b == b;
    } else {
      assert (a + b)[1..] == a[1..] + b;
      DigitRunStops(a[1..], b);
    }
  }

  lemma PaddedReads(n: nat, w: nat, rest: string)
    requires w >= 1 && n < Pow10(w)
    ensures ReadNumber(w, w, Pad(n, w) + rest) == Some((n, rest))
  {
    hide Pad, DigitRun, Number, Pow10;
    PadReads(n, w);
    var s := Pad(n, w) + rest;
    DigitRunReaches(Pad(n, w), rest);
    assert s[..w] == Pad(n, w) && s[w..] == rest;
  }

  lemma PlainReads(n: nat, rest: string)
    requires n < 100 && (n >= 10 || rest == [] || !IsDigit(rest[0]))
    ensures ReadNumber(1, 2, Itoa(n) + rest) == Some((n, rest))
  {
    hide Itoa, DigitRun, Number;
    NumberOfItoa(n);
    ShortItoa(n);
    var s, w := Itoa(n) + rest, |Itoa(n)|;
    if n >= 10 {
      DigitRunReaches(Itoa(n), rest);
    } else {
      DigitRunStops(Itoa(n), rest);
    }
    assert s[..w] == Itoa(n) && s[w..] == rest;
  }

  lemma ShortItoa(n: nat)
    requires n < 100
    ensures |Itoa(n)| == if n < 10 then 1 else 2
  {
  }

  // ---- names ----

  /** The first three letters of each name, in lower case, as one number. */
  function Code(names: Names, i: nat): int {
    match names
    case Months => MonthCode(i)
    case ShortMonths => MonthCode(i)
    case Days => DayCode(i)
    case ShortDays => DayCode(i)
    case Halves => if i == 0 then 97 else 112
  }

  function MonthCode(i: nat): int {
    match i
    case 0 => 6971758 case 1 => 6710626 case 2 => 7168370 case 3 => 6385778 case 4 => 7168377 case 5 => 6976878
    case 6 => 6976876 case 7 => 6387047 case 8 => 7562608 case 9 => 7299956 case 10 => 7237494 case _ => 6579555
  }

  function DayCode(i: nat): int {
    match i
    case 0 => 7566702 case 1 => 7171950 case 2 => 7632229 case 3 => 7824740 case 4 => 7628917
    case 5 => 6713961 case _ => 7561588
  }

  function CodeOf(names: Names, s: string): int
    requires |s| >= 2 && (!names.Halves? ==> |s| >= 3)
  {
    if names.Halves? then LowerChar(s[0]) as int
    else LowerChar(s[0]) as int * 65536 + LowerChar(s[1]) as int * 256 + LowerChar(s[2]) as int
  }

  lemma CodesDiffer(names: Names, i: nat, j: nat)
    requires i < Count(names) && j < Count(names) && i != j
    ensures Code(names, i) != Code(names, j)
  {
  }

  lemma MonthCodeFits(i: nat)
    requires i < 12
    ensures |MonthName(i + 1)| >= 3 && CodeOf(Months, MonthName(i + 1)) == MonthCode(i)
  {
  }

  lemma DayCodeFits(i: nat)
    requires i < 7
    ensures |DayName(i)| >= 3 && CodeOf(Days, DayName(i)) == DayCode(i)
  {
  }

  lemma CodeFits(names: Names, i: nat)
    requires i < Count(names)
    ensures |NameAt(names, i)| >= 2 && (!names.Halves? ==> |NameAt(names, i)| >= 3)
    ensures CodeOf(names, NameAt(names, i)) == Code(names, i)
  {
    hide MonthName, DayName, MonthCode, DayCode, LowerChar;
    match names
    case Months => MonthCodeFits(i);
    case ShortMonths => MonthCodeFits(i);
    case Days => DayCodeFits(i);
    case ShortDays => DayCodeFits(i);
    case Halves => HalfCodes(i);
  }

  lemma HalfCodes(i: nat)
    requires i < 2
    ensures LowerChar(NameAt(Halves, i)[0]) as int == Code(Halves, i)
  {
  }

  /** No other listed name fits a text that starts with one of them. */
  lemma OneNameFits(names: Names, i: nat, j: nat, s: string)
    requires i < Count(names) && j < Count(names) && FoldPrefix(NameAt(names, i), s) && FoldPrefix(NameAt(names, j), s)
    ensures i == j
  {
    hide NameAt, Code, LowerChar, Count;
    CodeFits(names, i);
    CodeFits(names, j);
    assert CodeOf(names, NameAt(names, i)) == CodeOf(names, s);
    assert CodeOf(names, NameAt(names, j)) == CodeOf(names, s);
    if i != j { CodesDiffer(names, i, j); }
  }

  lemma {:induction false} NameReadsFrom(names: Names, k: nat, i: nat, s: string)
    requires k <= i < Count(names) && FoldPrefix(NameAt(names, i), s)
    ensures ReadName(names, k, s) == Some((i, s[|NameAt(names, i)|..]))
    decreases i - k
  {
    hide NameAt, FoldPrefix;
    if k < i {
      if FoldPrefix(NameAt(names, k), s) { OneNameFits(names, k, i, s); }
      NameReadsFrom(names, k + 1, i, s);
    }
  }

  /** A name, in any letter case, reads back as its number. */
  lemma NameReads(names: Names, i: nat, w: string, rest: string)
    requires i < Count(names) && |w| == |NameAt(names, i)| && FoldPrefix(NameAt(names, i), w)
    ensures ReadName(names, 0, w + rest) == Some((i, rest))
  {
    hide NameAt, ReadName;
    assert (w + rest)[|w|..] == rest;
    NameReadsFrom(names, 0, i, w + rest);
  }

  lemma FoldsItself(n: string)
    ensures FoldPrefix(n, n)
  {
  }

  lemma LowerHalfReads(hour: nat, rest: string)
    requires hour < 24
    ensures ReadName(Halves, 0, (if hour < 12 then "am" else "pm") + rest) == Some((if hour < 12 then 0 else 1, rest))
  {
    hide ReadName;
    NameReads(Halves, if hour < 12 then 0 else 1, if hour < 12 then "am" else "pm", rest);
  }

  // ---- offsets ----

  lemma OffsetReads(rest: string)
    ensures ReadOffset("Z" + rest) == Some((0, rest))
    ensures ReadOffset("+0000" + rest) == Some((0, rest))
  {
    assert ("Z" + rest)[1..] == rest;
    var s := "+0000" + rest;
    assert s[1..3] == "00" && s[3..] == "00" + rest && s[3..][..2] == "00" && s[3..][2..] == rest;
    assert Number("00") == 0 by {
      LeadingZero("");
      LeadingZero("0");
      assert "0" + "" == "0" && "0" + "0" == "00";
    }
  }

  // ---- one token ----

  /** The value a token shows. */
  function ValueOf(f: Field, t: Civil): nat
    requires Valid(t)
  {
    match f
    case Year4 => t.year
    case Year2 => t.year % 100
    case MonthFull => t.month - 1
    case MonthShort => t.month - 1
    case Month2 => t.month
    case Month1 => t.month
    case Day2 => t.day
    case Day1 => t.day
    case DayFull => Weekday(t)
    case DayShort => Weekday(t)
    case Hour2 => t.hour
    case Hour1 => t.hour
    case Half2 => HalfDay(t.hour)
    case Half1 => HalfDay(t.hour)
    case Minute2 => t.minute
    case Minute1 => t.minute
    case Second2 => t.second
    case Second1 => t.second
    case Millis => t.nano / 1_000_000
    case UpperHalf => if t.hour < 12 then 0 else 1
    case LowerHalf => if t.hour < 12 then 0 else 1
    case Zone => 0
    case ZonePlain => 0
  }

  predicate Variable(f: Field) { ShapeOf(f) == Figures(1, 2) }

  predicate Splits(f: Field, t: Civil, rest: string)
    requires Valid(t)
  {
    Variable(f) ==> ValueOf(f, t) >= 10 || rest == [] || !IsDigit(rest[0])
  }

  lemma NumberFieldReads(f: Field, t: Civil, rest: string)
    requires Valid(t) && ShapeOf(f).Figures? && Splits(f, t, rest)
    ensures ReadShape(ShapeOf(f), RenderField(f, t) + rest) == Some((ValueOf(f, t), rest))
  {
    hide ReadNumber, Pad, Itoa, Pow10, DayNumber, Weekday;
    Powers();
    if Variable(f) {
      PlainReads(ValueOf(f, t), rest);
    } else {
      PaddedReads(ValueOf(f, t), ShapeOf(f).min, rest);
    }
  }

  lemma Powers()
    ensures Pow10(2) == 100 && Pow10(3) == 1000 && Pow10(4) == 10_000
  {
    assert Pow10(1) == 10 * Pow10(0);
    assert Pow10(3) == 10 * Pow10(2);
  }

  lemma NameFieldReads(f: Field, t: Civil, rest: string)
    requires Valid(t) && ShapeOf(f).Named?
    ensures ReadShape(ShapeOf(f), RenderField(f, t) + rest) == Some((ValueOf(f, t), rest))
  {
    hide ReadName, MonthName, DayName, First3, Weekday;
    if f == LowerHalf {
      LowerHalfReads(t.hour, rest);
    } else {
      FoldsItself(RenderField(f, t));
      NameReads(ShapeOf(f).names, ValueOf(f, t), RenderField(f, t), rest);
    }
  }

  lemma FieldReads(f: Field, t: Civil, rest: string)
    requires Valid(t) && Splits(f, t, rest)
    ensures ReadShape(ShapeOf(f), RenderField(f, t) + rest) == Some((ValueOf(f, t), rest))
  {
    match ShapeOf(f)
    case Figures(_, _) => NumberFieldReads(f, t, rest);
    case Named(_) => NameFieldReads(f, t, rest);
    case Offset =>
      OffsetReads(rest);
      assert f == Zone || f == ZonePlain;
  }

  /** What reading a rendered token sets. */
  function Set(tk: Token, t: Civil, p: Parts): Parts
    requires Valid(t)
  {
    match tk
    case Lit(_) => p
    case Tok(f) => Store(f, ValueOf(f, t), p)
  }

  lemma TokenReads(tk: Token, t: Civil, rest: string, p: Parts)
    requires Valid(t) && (tk.Tok? ==> Splits(tk.f, t, rest))
    ensures ReadToken(tk, RenderToken(tk, t) + rest, p) == Some((Set(tk, t, p), rest))
  {
    hide ReadShape, RenderField, Store, ValueOf, ShapeOf, Splits;
    if tk.Tok? {
      FieldReads(tk.f, t, rest);
    } else {
      assert (tk.text + rest)[|tk.text|..] == rest;
    }
  }

  // ---- a whole pattern ----

  predicate OpensWithDigit(tks: seq<Token>) {
    tks != [] &&
    match tks[0]
    case Lit(text) => if text == [] then OpensWithDigit(tks[1..]) else IsDigit(text[0])
    case Tok(f) => ShapeOf(f).Figures?
  }

  /** No number of variable width stands before text that starts with a digit. */
  predicate Separable(tks: seq<Token>) {
    tks == [] || ((tks[0].Tok? && Variable(tks[0].f) ==> !OpensWithDigit(tks[1..])) && Separable(tks[1..]))
  }

  lemma FieldOpens(f: Field, t: Civil)
    requires Valid(t) && !ShapeOf(f).Figures?
    ensures RenderField(f, t) != [] && !IsDigit(RenderField(f, t)[0])
  {
    hide DayNumber, Weekday;
  }

  lemma {:induction false} OpensWithout(tks: seq<Token>, t: Civil)
    requires Valid(t) && !OpensWithDigit(tks)
    ensures RenderAll(tks, t) == [] || !IsDigit(RenderAll(tks, t)[0])
    decreases |tks|
  {
    hide RenderField, ShapeOf, IsDigit;
    if tks != [] {
      match tks[0]
      case Lit(text) =>
        if text == [] {
          OpensWithout(tks[1..], t);
          assert text + RenderAll(tks[1..], t) == RenderAll(tks[1..], t);
        }
      case Tok(f) => FieldOpens(f, t);
    }
  }

  function Collected(tks: seq<Token>, t: Civil, p: Parts): Parts
    requires Valid(t)
    decreases |tks|
  {
    if tks == [] then p else Collected(tks[1..], t, Set(tks[0], t, p))
  }

  /** Reading a rendered text back consumes all of it and collects what the tokens showed. */
  lemma {:induction false} ReadsBack(tks: seq<Token>, t: Civil, p: Parts)
    requires Valid(t) && Separable(tks)
    ensures ReadAll(tks, RenderAll(tks, t), p) == Some((Collected(tks, t, p), ""))
    decreases |tks|
  {
    hide ReadToken, RenderToken, Set, ValueOf, IsDigit, OpensWithDigit;
    if tks != [] {
      var rest := RenderAll(tks[1..], t);
      if tks[0].Tok? && Variable(tks[0].f) { OpensWithout(tks[1..], t); }
      TokenReads(tks[0], t, rest, p);
      ReadsBack(tks[1..], t, Set(tks[0], t, p));
    }
  }

  // ---- which components a pattern carries ----

  datatype Component = Year | Month | Day | Hour | Minute | Second | Milli | Half | Shift | Nothing

  function ComponentOf(f: Field): Component {
    match f
    case Year4 => Year case Year2 => Year
    case MonthFull => Month case MonthShort => Month case Month2 => Month case Month1 => Month
    case Day2 => Day case Day1 => Day
    case DayFull => Nothing case DayShort => Nothing
    case Hour2 => Hour case Hour1 => Hour case Half2 => Hour case Half1 => Hour
    case Minute2 => Minute case Minute1 => Minute
    case Second2 => Second case Second1 => Second
    case Millis => Milli
    case UpperHalf => Half case LowerHalf => Half
    case Zone => Shift case ZonePlain => Shift
  }

  /** The last token that carries a component. */
  function Last(tks: seq<Token>, c: Component): (r: Option<Field>)
    ensures r.Some? ==> ComponentOf(r.value) == c
  {
    if tks == [] then None
    else if Last(tks[1..], c).Some? then Last(tks[1..], c)
    else if tks[0].Tok? && ComponentOf(tks[0].f) == c then Some(tks[0].f)
    else None
  }

  predicate Has(tks: seq<Token>, c: Component) { Last(tks, c).Some? }

  function YearShown(f: Option<Field>, t: Civil, default: nat): nat
    requires Valid(t)
  {
    if f.None? then default else if f.value == Year2 then t.year % 100 + 2000 else t.year
  }

  function HourShown(f: Option<Field>, t: Civil, default: nat): nat
    requires Valid(t)
  {
    if f.None? then default
    else if f.value == Half2 || f.value == Half1 then HalfDay(t.hour)
    else t.hour
  }

  /** What a pattern's tokens leave in each component. */
  function Shown(tks: seq<Token>, t: Civil, p: Parts): Parts
    requires Valid(t)
  {
    Parts(
      YearShown(Last(tks, Year), t, p.year),
      if Has(tks, Month) then t.month else p.month,
      if Has(tks, Day) then t.day else p.day,
      HourShown(Last(tks, Hour), t, p.hour),
      if Has(tks, Minute) then t.minute else p.minute,
      if Has(tks, Second) then t.second else p.second,
      if Has(tks, Milli) then t.nano / 1_000_000 else p.ms,
      if Has(tks, Half) then t.hour >= 12 else p.pm,
      Has(tks, Half) || p.hasHalf,
      if Has(tks, Shift) then 0 else p.offset)
  }

  lemma LastStep(tks: seq<Token>, c: Component)
    requires tks != []
    ensures Last(tks, c) == if Last(tks[1..], c).Some? then Last(tks[1..], c)
                            else if tks[0].Tok? && ComponentOf(tks[0].f) == c then Some(tks[0].f) else None
  {
  }

  /** One token sets its own component and leaves the others. */
  lemma SetsOne(f: Field, t: Civil, p: Parts)
    requires Valid(t)
    ensures var q := Set(Tok(f), t, p); var c := ComponentOf(f);
      && q.year == (if c == Year then YearShown(Some(f), t, 0) else p.year)
      && q.month == (if c == Month then t.month else p.month)
      && q.day == (if c == Day then t.day else p.day)
      && q.hour == (if c == Hour then HourShown(Some(f), t, 0) else p.hour)
      && q.minute == (if c == Minute then t.minute else p.minute)
      && q.second == (if c == Second then t.second else p.second)
      && q.ms == (if c == Milli then t.nano / 1_000_000 else p.ms)
      && q.pm == (if c == Half then t.hour >= 12 else p.pm)
      && q.hasHalf == (c == Half || p.hasHalf)
      && q.offset == (if c == Shift then 0 else p.offset)
  {
    hide HalfDay, Weekday;
  }

  lemma ShownStep(tks: seq<Token>, t: Civil, p: Parts)
    requires Valid(t) && tks != []
    ensures Shown(tks, t, p) == Shown(tks[1..], t, Set(tks[0], t, p))
  {
    hide HalfDay, Last, Store, ValueOf, ComponentOf;
    if tks[0].Tok? { SetsOne(tks[0].f, t, p); }
    LastStep(tks, Year);
    LastStep(tks, Month);
    LastStep(tks, Day);
    LastStep(tks, Hour);
    LastStep(tks, Minute);
    LastStep(tks, Second);
    LastStep(tks, Milli);
    LastStep(tks, Half);
    LastStep(tks, Shift);
  }

  lemma {:induction false} CollectedIsShown(tks: seq<Token>, t: Civil, p: Parts)
    requires Valid(t)
    ensures Collected(tks, t, p) == Shown(tks, t, p)
    decreases |tks|
  {
    hide Set, Shown;
    if tks == [] {
      NothingShown(t, p);
    } else {
      ShownStep(tks, t, p);
      CollectedIsShown(tks[1..], t, Set(tks[0], t, p));
    }
  }

  lemma NothingShown(t: Civil, p: Parts)
    requires Valid(t)
    ensures Shown([], t, p) == p
  {
  }

  // ---- normalisation ----

  lemma {:induction false} RunOnIsValid(year: int, month: int, day: nat)
    requires 1 <= month <= 12 && day >= 1
    ensures var d := RunOn(year, month, day); ValidDate(d.0, d.1, d.2)
    decreases day
  {
    if day > DaysIn(year, month) {
      if month == 12 {
        RunOnIsValid(year + 1, 1, day - DaysIn(year, month));
      } else {
        RunOnIsValid(year, month + 1, day - DaysIn(year, month));
      }
    }
  }

  /** Running on keeps the day: 32 October is 1 November. */
  lemma {:induction false} RunOnKeepsDay(year: nat, month: nat, day: nat)
    requires 1 <= month <= 12 && day >= 1
    ensures var d := RunOn(year, month, day);
      d.0 >= year && 1 <= d.1 <= 12 && d.2 >= 1 && DayNumber(d.0, d.1, d.2) == DayNumber(year, month, day)
    decreases day
  {
    if day > DaysIn(year, month) {
      RunOnIsValid(year, month, day);
      if month == 12 {
        YearIsItsMonths(year);
        RunOnKeepsDay(year + 1, 1, day - DaysIn(year, month));
      } else {
        RunOnKeepsDay(year, month + 1, day - DaysIn(year, month));
      }
    }
  }

  /** time.Date returns its arguments exactly when they already are a date and a time of day. */
  lemma TimeDateKeepsValid(year: int, month: nat, day: nat, hour: nat, minute: nat, second: nat, nano: nat)
    ensures TimeDate(year, month, day, hour, minute, second, nano)
        == Civil(year, month, day, hour, minute, second, nano)
      <==> ValidDate(year, month, day) && ValidClock(hour, minute, second)
  {
    hide RunOn, DaysIn;
    var m := minute + second / 60;
    var h := hour + m / 60;
    var d := day + h / 24;
    var y0, m0 := year + (month - 1) / 12, (month - 1) % 12 + 1;
    if d > 0 {
      RunOnIsValid(y0, m0, d);
    }
    if ValidDate(year, month, day) && ValidClock(hour, minute, second) {
      RunOnValidDate(year, month, day);
    }
    MonthEnds(y0, m0);
  }

  /** Whatever carries over, time.Date denotes the same second: days, hours, minutes and seconds add
      up to what its arguments add up to. */
  lemma TimeDateKeepsSecond(year: nat, month: nat, day: nat, hour: nat, minute: nat, second: nat, nano: nat)
    requires 1 <= month <= 12 && day >= 1
    ensures var t := TimeDate(year, month, day, hour, minute, second, nano);
      && t.year >= 0 && 1 <= t.month <= 12 && t.day >= 1 && ValidClock(t.hour, t.minute, t.second) && t.nano == nano
      && DayNumber(t.year, t.month, t.day) * 86_400 + t.hour * 3600 + t.minute * 60 + t.second
         == DayNumber(year, month, day) * 86_400 + hour * 3600 + minute * 60 + second
  {
    hide RunOn, DaysIn, DaysBeforeYear, DaysBeforeMonth;
    var m := minute + second / 60;
    var h := hour + m / 60;
    var d := day + h / 24;
    assert (month - 1) / 12 == 0 && (month - 1) % 12 + 1 == month;
    RunOnKeepsDay(year, month, d);
    assert DayNumber(year, month, d) == DayNumber(year, month, day) + h / 24;
    assert second == 60 * (second / 60) + second % 60;
    assert m == 60 * (m / 60) + m % 60;
    assert h == 24 * (h / 24) + h % 24;
  }

  /** Day 0 is the last day of the month before. */
  lemma DayZeroIsTheDayBefore(year: nat, month: nat, hour: nat, minute: nat, second: nat, nano: nat)
    requires year >= 1 && 1 <= month <= 12 && ValidClock(hour, minute, second)
    ensures var t := TimeDate(year, month, 0, hour, minute, second, nano);
      && t.year >= 0 && ValidDate(t.year, t.month, t.day)
      && DayNumber(t.year, t.month, t.day) + 1 == DayNumber(year, month, 1)
      && t.hour == hour && t.minute == minute && t.second == second && t.nano == nano
  {
    hide RunOn, DaysBeforeYear;
    assert (month - 1) / 12 == 0 && (month - 1) % 12 + 1 == month;
    if month == 1 {
      YearIsItsMonths(year - 1);
      YearStep(year);
    }
  }

  lemma YearStep(year: nat)
    requires year >= 1
    ensures DaysBeforeYear(year) == DaysBeforeYear(year - 1) + YearDays(year - 1)
  {
  }

  lemma RunOnValidDate(year: int, month: int, day: nat)
    requires ValidDate(year, month, day)
    ensures RunOn(year, month, day) == (year, month, day)
  {
  }

  lemma MonthEnds(year: int, month: int)
    ensures 28 <= DaysIn(year, month) <= 31 && DaysIn(year, 12) == 31
  {
  }

  /** A parse succeeds exactly when the components, as read, are a date and a time of day; the
      result has just these components. */
  lemma FinishKeepsComponents(p: Parts)
    ensures Finish(p) == match HourOf(p)
      case None => None
      case Some(h) =>
        if ValidDate(p.year, p.month, p.day) && ValidClock(h, p.minute, p.second)
        then Some(Parsed(Civil(p.year, p.month, p.day, h, p.minute, p.second, p.ms * 1_000_000), p.offset))
        else None
  {
    hide TimeDate, ValidDate, ValidClock;
    if HourOf(p).Some? {
      TimeDateKeepsNano(p.year, p.month, p.day, HourOf(p).value, p.minute, p.second, p.ms * 1_000_000);
      TimeDateKeepsValid(p.year, p.month, p.day, HourOf(p).value, p.minute, p.second, p.ms * 1_000_000);
    }
  }

  lemma TimeDateKeepsNano(year: int, month: nat, day: nat, hour: nat, minute: nat, second: nat, nano: nat)
    ensures TimeDate(year, month, day, hour, minute, second, nano).nano == nano
  {
    hide RunOn, DaysIn;
  }

  /** No accepted text denotes a date or time that had to be normalised. */
  lemma AcceptedNeedsNoNormalising(tks: seq<Token>, s: string)
    requires Parse(tks, s).Some?
    ensures var t := Parse(tks, s).value.at; ValidDate(t.year, t.month, t.day) && ValidClock(t.hour, t.minute, t.second)
    ensures exists p: Parts ::
      var t := Parse(tks, s).value.at;
      && ReadAll(tks, s, START) == Some((p, ""))
      && t.year == p.year && t.month == p.month && t.day == p.day
      && t.minute == p.minute && t.second == p.second && HourOf(p) == Some(t.hour) && t.nano == p.ms * 1_000_000
  {
    hide Finish, ReadAll, HourOf, ValidDate, ValidClock;
    FinishKeepsComponents(ReadAll(tks, s, START).value.0);
  }

  // ---- the round trip ----

  /** A time cut to what the pattern shows; the rest is 1970-01-01 00:00:00. */
  function Truncated(tks: seq<Token>, t: Civil): Civil {
    Civil(
      if Has(tks, Year) then t.year else 1970,
      if Has(tks, Month) then t.month else 1,
      if Has(tks, Day) then t.day else 1,
      if Has(tks, Hour) then t.hour else 0,
      if Has(tks, Minute) then t.minute else 0,
      if Has(tks, Second) then t.second else 0,
      if Has(tks, Milli) then t.nano / 1_000_000 * 1_000_000 else 0)
  }

  /** A two-digit year stands for 2000 to 2099. */
  predicate YearRecovers(tks: seq<Token>, t: Civil) { Last(tks, Year) == Some(Year2) ==> 2000 <= t.year <= 2099 }

  predicate TwelveHour(tks: seq<Token>) { Last(tks, Hour) == Some(Half2) || Last(tks, Hour) == Some(Half1) }

  /** The last hour token is a twelve-hour one exactly when AM or PM is shown; where it is not,
      hours 1 to 12 still read the same on both clocks. */
  predicate HourRecovers(tks: seq<Token>, t: Civil) {
    (TwelveHour(tks) <==> Has(tks, Half)) || (Has(tks, Hour) && 1 <= t.hour <= 12)
  }

  /** 29 February shown without its year. */
  predicate LeapDayWithoutYear(tks: seq<Token>, t: Civil) {
    !Has(tks, Year) && Has(tks, Month) && Has(tks, Day) && t.month == 2 && t.day == 29
  }

  lemma HourReadsBack(tks: seq<Token>, t: Civil)
    requires Valid(t)
    ensures HourOf(Shown(tks, t, START)) == Some(Truncated(tks, t).hour) <==> HourRecovers(tks, t)
  {
    hide Last, ValidDate;
  }

  lemma DateReadsBack(tks: seq<Token>, t: Civil)
    requires Valid(t)
    ensures ValidDate(Truncated(tks, t).year, Truncated(tks, t).month, Truncated(tks, t).day)
        <==> !LeapDayWithoutYear(tks, t)
  {
    hide Last;
  }

  /** For every separable pattern and every UTC time of the years 0 to 9999, parsing the rendered
      text gives the time truncated to the pattern exactly when its year and hour can be told
      from what is shown and it is not 29 February without a year. */
  lemma RoundTrip(tks: seq<Token>, t: Civil)
    requires Valid(t) && Separable(tks)
    ensures Parse(tks, RenderAll(tks, t)) == Some(Parsed(Truncated(tks, t), 0))
      <==> YearRecovers(tks, t) && HourRecovers(tks, t) && !LeapDayWithoutYear(tks, t)
  {
    hide ReadAll, RenderAll, Last, HourOf, Finish, HourRecovers, LeapDayWithoutYear, ValidDate, Separable;
    ReadsBack(tks, t, START);
    CollectedIsShown(tks, t, START);
    var p := Shown(tks, t, START);
    FinishKeepsComponents(p);
    HourReadsBack(tks, t);
    DateReadsBack(tks, t);
  }

  /** Without a separator two times can share one text, so no parser could tell them apart. */
  lemma UnseparatedIsAmbiguous() returns (a: Civil, b: Civil)
    ensures Valid(a) && Valid(b) && a != b
    ensures var tks := [Tok(Month1), Tok(Day1)]; !Separable(tks) && RenderAll(tks, a) == RenderAll(tks, b)
  {
    a, b := Civil(2026, 1, 11, 0, 0, 0, 0), Civil(2026, 11, 1, 0, 0, 0, 0);
    var tks := [Tok(Month1), Tok(Day1)];
    assert tks[1..] == [Tok(Day1)] && tks[1..][1..] == [];
    assert Itoa(1) == "1" && Itoa(11) == "11";
    assert RenderAll(tks[1..], a) == "11" && RenderAll(tks[1..], b) == "1";
    assert RenderAll(tks, a) == "1" + "11" && RenderAll(tks, b) == "11" + "1";
  }
}
