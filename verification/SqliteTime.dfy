/** How times are bound for SQLite, which has no time type (internal/timefmt/timefmt.go,
    internal/query/builder.go): as UTC text whose order is the order of the times. */
module SqliteTime {
  import opened Calendar
  import opened Numerals
  import opened SqlLogic
  import opened Keyset
  import opened CursorCodec

  /** SQLite's default text order: byte by byte, a prefix first. */
  predicate TextLess(s: string, t: string)
    decreases |s|
  {
    t != [] && (s == [] || s[0] < t[0] || (s[0] == t[0] && TextLess(s[1..], t[1..])))
  }

  function DropZeros(s: string): string {
    if s != [] && s[|s| - 1] == '0' then DropZeros(s[..|s| - 1]) else s
  }

  /** ".999999": microseconds, cut off rather than rounded, without trailing zeros. */
  function Fraction(nano: nat): string {
    var digits := DropZeros(Pad(nano / 1000, 6));
    if digits == [] then "" else "." + digits
  }

  function Field(sep: string, n: nat, width: nat, rest: string): string { sep + (Pad(n, width) + rest) }

  /** "2006-01-02 15:04:05.999999" */
  function Encode(t: Civil): string
    requires Valid(t)
  {
    Field("", t.year, 4, Field("-", t.month, 2, Field("-", t.day, 2,
      Field(" ", t.hour, 2, Field(":", t.minute, 2, Field(":", t.second, 2, Fraction(t.nano)))))))
  }

  /** A time truncated to microseconds, as a count. */
  function Micros(t: Civil): int
    requires Valid(t)
  {
    Instant(t) / 1000
  }

  // ---- comparing field by field ----

  lemma {:induction false} SamePrefix(p: string, x: string, y: string)
    ensures TextLess(p + x, p + y) <==> TextLess(x, y)
    ensures p + x == p + y <==> x == y
    decreases |p|
  {
    if p == [] {
      assert p + x == x && p + y == y;
    } else {
      assert (p + x)[1..] == p[1..] + x && (p + y)[1..] == p[1..] + y;
      SamePrefix(p[1..], x, y);
      assert p + x == [p[0]] + (p[1..] + x) && p + y == [p[0]] + (p[1..] + y);
    }
  }

  lemma {:induction false} EqualWidth(a: string, b: string, x: string, y: string)
    requires |a| == |b|
    ensures TextLess(a + x, b + y) <==> TextLess(a, b) || (a == b && TextLess(x, y))
    ensures a + x == b + y <==> a == b && x == y
    decreases |a|
  {
    if a == [] {
      assert a + x == x && b + y == y;
    } else {
      assert (a + x)[1..] == a[1..] + x && (b + y)[1..] == b[1..] + y;
      EqualWidth(a[1..], b[1..], x, y);
      assert a == [a[0]] + a[1..] && b == [b[0]] + b[1..];
      assert a + x == [a[0]] + (a[1..] + x) && b + y == [b[0]] + (b[1..] + y);
    }
  }

  lemma OneDigit(c: char, d: char)
    ensures TextLess([c], [d]) <==> c < d
  {
    assert [c][1..] == [] && [d][1..] == [];
  }

  /** Digit strings of one width compare like the numbers they write. */
  lemma {:induction false} DigitsCompare(a: string, b: string)
    requires |a| == |b| && Digits(a) && Digits(b)
    ensures TextLess(a, b) <==> Number(a) < Number(b)
    ensures a == b <==> Number(a) == Number(b)
    decreases |a|
  {
    if a != [] {
      var n := |a| - 1;
      DigitsCompare(a[..n], b[..n]);
      assert a == a[..n] + [a[n]] && b == b[..n] + [b[n]];
      EqualWidth(a[..n], b[..n], [a[n]], [b[n]]);
      OneDigit(a[n], b[n]);
    }
  }

  lemma FieldsCompare(sep: string, m: nat, n: nat, width: nat, x: string, y: string)
    requires width >= 1 && m < Pow10(width) && n < Pow10(width)
    ensures TextLess(Field(sep, m, width, x), Field(sep, n, width, y)) <==> m < n || (m == n && TextLess(x, y))
    ensures Field(sep, m, width, x) == Field(sep, n, width, y) <==> m == n && x == y
  {
    hide Pad, TextLess, Number, Pow10;
    PadReads(m, width);
    PadReads(n, width);
    SamePrefix(sep, Pad(m, width) + x, Pad(n, width) + y);
    EqualWidth(Pad(m, width), Pad(n, width), x, y);
    DigitsCompare(Pad(m, width), Pad(n, width));
  }

  // ---- fractions ----

  /** Trailing zeros, seen from the front. */
  lemma {:induction false} DropZerosFront(c: char, s: string)
    ensures DropZeros([c] + s) == if c == '0' && DropZeros(s) == [] then [] else [c] + DropZeros(s)
    decreases |s|
  {
    var all := [c] + s;
    if s == [] {
      assert all[..0] == [];
    } else {
      assert all[..|all| - 1] == [c] + s[..|s| - 1];
      DropZerosFront(c, s[..|s| - 1]);
    }
  }

  lemma ConsLess(c: char, d: char, x: string, y: string)
    ensures TextLess([c] + x, [d] + y) <==> c < d || (c == d && TextLess(x, y))
    ensures TextLess([], [d] + y) && !TextLess(x, [])
  {
    assert ([c] + x)[1..] == x && ([d] + y)[1..] == y;
  }

  lemma {:induction false} DropZerosCompare(a: string, b: string)
    requires |a| == |b| && Digits(a) && Digits(b)
    ensures TextLess(DropZeros(a), DropZeros(b)) <==> TextLess(a, b)
    ensures DropZeros(a) == DropZeros(b) <==> a == b
    decreases |a|
  {
    if a != [] {
      var c, x, d, y := a[0], a[1..], b[0], b[1..];
      assert a == [c] + x && b == [d] + y;
      DropZerosCompare(x, y);
      DropZerosFront(c, x);
      DropZerosFront(d, y);
      var p, q := DropZeros(x), DropZeros(y);
      ConsStep(c, d, x, y, p, q);
    }
  }

  /** The step of the comparison: p and q are x and y without trailing zeros. */
  lemma ConsStep(c: char, d: char, x: string, y: string, p: string, q: string)
    requires IsDigit(c) && IsDigit(d)
    requires (TextLess(p, q) <==> TextLess(x, y)) && (p == q <==> x == y)
    ensures
      var a' := if c == '0' && p == [] then [] else [c] + p;
      var b' := if d == '0' && q == [] then [] else [d] + q;
      && (TextLess(a', b') <==> TextLess([c] + x, [d] + y))
      && (a' == b' <==> [c] + x == [d] + y)
  {
    hide TextLess;
    ConsLess(c, d, x, y);
    ConsLess(c, d, p, q);
    ConsLess(d, c, q, p);
    EmptyLess(p);
    EmptyLess(q);
    EmptyLess([c] + p);
    EmptyLess([d] + q);
    EmptyLess([]);
    HeadTail(c, d, x, y);
    HeadTail(c, d, p, q);
  }

  lemma HeadTail(c: char, d: char, x: string, y: string)
    ensures [c] + x == [d] + y <==> c == d && x == y
  {
    assert ([c] + x)[1..] == x && ([d] + y)[1..] == y;
    assert ([c] + x)[0] == c && ([d] + y)[0] == d;
  }

  lemma EmptyLess(s: string)
    ensures TextLess([], s) <==> s != []
    ensures !TextLess(s, [])
  {
  }

  lemma FractionsCompare(m: nat, n: nat)
    requires m < 1_000_000_000 && n < 1_000_000_000
    ensures TextLess(Fraction(m), Fraction(n)) <==> m / 1000 < n / 1000
    ensures Fraction(m) == Fraction(n) <==> m / 1000 == n / 1000
  {
    hide Pad, TextLess, DropZeros, Number;
    var u, v := m / 1000, n / 1000;
    assert Pow10(6) == 1_000_000 by { PowersOfTen(); }
    PadReads(u, 6);
    PadReads(v, 6);
    DigitsCompare(Pad(u, 6), Pad(v, 6));
    DropZerosCompare(Pad(u, 6), Pad(v, 6));
    var p, q := DropZeros(Pad(u, 6)), DropZeros(Pad(v, 6));
    ConsLess('.', '.', p, q);
    EmptyLess(p);
    EmptyLess(q);
    EmptyLess("." + p);
    EmptyLess("." + q);
    HeadTail('.', '.', p, q);
    assert "." + p == ['.'] + p && "." + q == ['.'] + q;
  }

  lemma PowersOfTen()
    ensures Pow10(2) == 100 && Pow10(4) == 10_000 && Pow10(6) == 1_000_000
  {
    assert Pow10(1) == 10 * Pow10(0);
    assert Pow10(3) == 10 * Pow10(2);
    assert Pow10(5) == 10 * Pow10(4);
  }

  // ---- whole times ----

  predicate ClockLess(a: Civil, b: Civil) {
    a.hour < b.hour || (a.hour == b.hour && (a.minute < b.minute || (a.minute == b.minute &&
      (a.second < b.second || (a.second == b.second && a.nano / 1000 < b.nano / 1000)))))
  }

  /** Comparison field by field. */
  predicate FieldwiseLess(a: Civil, b: Civil) {
    a.year < b.year || (a.year == b.year &&
        (a.month < b.month || (a.month == b.month && (a.day < b.day || (a.day == b.day &&
      ClockLess(a, b))))))
  }

  predicate FieldwiseSame(a: Civil, b: Civil) {
    SameDate(a, b) && a.hour == b.hour && a.minute == b.minute && a.second == b.second && a.nano / 1000 == b.nano / 1000
  }

  lemma ClockCompare(a: Civil, b: Civil)
    requires Valid(a) && Valid(b)
    ensures
      var x := Field(" ", a.hour, 2, Field(":", a.minute, 2, Field(":", a.second, 2, Fraction(a.nano))));
      var y := Field(" ", b.hour, 2, Field(":", b.minute, 2, Field(":", b.second, 2, Fraction(b.nano))));
      && (TextLess(x, y) <==> ClockLess(a, b))
      && (x == y <==>
          a.hour == b.hour && a.minute == b.minute && a.second == b.second && a.nano / 1000 == b.nano / 1000)
  {
    hide Field, TextLess, Fraction, Pow10, ValidDate;
    PowersOfTen();
    var x0, y0 := Fraction(a.nano), Fraction(b.nano);
    FractionsCompare(a.nano, b.nano);
    FieldsCompare(":", a.second, b.second, 2, x0, y0);
    var x1, y1 := Field(":", a.second, 2, x0), Field(":", b.second, 2, y0);
    FieldsCompare(":", a.minute, b.minute, 2, x1, y1);
    FieldsCompare(" ", a.hour, b.hour, 2, Field(":", a.minute, 2, x1), Field(":", b.minute, 2, y1));
  }

  lemma EncodeCompare(a: Civil, b: Civil)
    requires Valid(a) && Valid(b)
    ensures TextLess(Encode(a), Encode(b)) <==> FieldwiseLess(a, b)
    ensures Encode(a) == Encode(b) <==> FieldwiseSame(a, b)
  {
    hide Field, TextLess, Fraction, Pow10, IsLeap;
    PowersOfTen();
    ClockCompare(a, b);
    var x := Field(" ", a.hour, 2, Field(":", a.minute, 2, Field(":", a.second, 2, Fraction(a.nano))));
    var y := Field(" ", b.hour, 2, Field(":", b.minute, 2, Field(":", b.second, 2, Fraction(b.nano))));
    FieldsCompare("-", a.day, b.day, 2, x, y);
    var x1, y1 := Field("-", a.day, 2, x), Field("-", b.day, 2, y);
    FieldsCompare("-", a.month, b.month, 2, x1, y1);
    FieldsCompare("", a.year, b.year, 4, Field("-", a.month, 2, x1), Field("-", b.month, 2, y1));
  }

  function Seconds(t: Civil): int
    requires Valid(t)
  {
    DayNumber(t.year, t.month, t.day) * 86_400 + Clock(t)
  }

  lemma MicrosOf(t: Civil)
    requires Valid(t)
    ensures Micros(t) == Seconds(t) * 1_000_000 + t.nano / 1000
    ensures 0 <= t.nano / 1000 < 1_000_000
  {
    hide DayNumber, ValidDate, Clock;
    InstantParts(t);
    var s := Seconds(t);
    assert Instant(t) == s * 1_000_000_000 + t.nano;
  }

  lemma FieldwiseIsTime(a: Civil, b: Civil)
    requires Valid(a) && Valid(b) && FieldwiseLess(a, b)
    ensures Micros(a) < Micros(b)
  {
    hide DayNumber, IsLeap, Micros, Instant;
    InstantParts(a);
    InstantParts(b);
    MicrosOf(a);
    MicrosOf(b);
    if DateBefore(a, b) {
      DayNumberGrows(a, b);
    } else {
      assert SameDate(a, b);
      assert Clock(a) < Clock(b) || (Clock(a) == Clock(b) && a.nano / 1000 < b.nano / 1000);
    }
  }

  /** For all UTC times of the years 0 to 9999, the encodings compare as text exactly like the
      times truncated to microseconds, and are equal exactly when those are. */
  lemma TextOrderIsTimeOrder(a: Civil, b: Civil)
    requires Valid(a) && Valid(b)
    ensures TextLess(Encode(a), Encode(b)) <==> Micros(a) < Micros(b)
    ensures Encode(a) == Encode(b) <==> Micros(a) == Micros(b)
  {
    hide Encode, TextLess, Micros, IsLeap;
    EncodeCompare(a, b);
    if FieldwiseLess(a, b) {
      FieldwiseIsTime(a, b);
    } else if FieldwiseLess(b, a) {
      FieldwiseIsTime(b, a);
    } else {
      assert FieldwiseSame(a, b);
      MicrosOf(a);
      MicrosOf(b);
    }
  }

  /** A whole second is written like CURRENT_TIMESTAMP writes it, without a fraction. */
  lemma WholeSecondHasNoFraction(t: Civil)
    requires Valid(t)
    ensures |Encode(t)| == 19 <==> t.nano / 1000 == 0
    ensures |Encode(t)| >= 19
  {
    hide Pad, Pow10, DropZeros;
    PowersOfTen();
    PadReads(t.year, 4);
    PadReads(t.month, 2);
    PadReads(t.day, 2);
    PadReads(t.hour, 2);
    PadReads(t.minute, 2);
    PadReads(t.second, 2);
    FractionsCompare(t.nano, 0);
    ZeroFraction();
  }

  lemma ZeroFraction()
    ensures Fraction(0) == ""
  {
    assert Pad(0, 6) == "000000" by {
      PadReads(0, 6) by { PowersOfTen(); }
      assert Number("000000") == 0 by { ZerosAreZero(); }
      DigitsCompare(Pad(0, 6), "000000");
    }
    AllZerosDrop();
  }

  lemma ZerosAreZero()
    ensures Digits("000000") && Number("000000") == 0
  {
    LeadingZero("");
    LeadingZero("0");
    LeadingZero("00");
    LeadingZero("000");
    LeadingZero("0000");
    LeadingZero("00000");
    assert "0" + "" == "0" && "0" + "0" == "00" && "0" + "00" == "000" && "0" + "000" == "0000" &&
        "0" + "0000" == "00000" && "0" + "00000" == "000000";
  }

  lemma AllZerosDrop()
    ensures DropZeros("000000") == ""
  {
    assert "000000"[..5] == "00000" && "00000"[..4] == "0000" && "0000"[..3] == "000" && "000"[..2] == "00" &&
        "00"[..1] == "0" && "0"[..0] == "";
    assert DropZeros("00") == "";
    assert DropZeros("0000") == "";
  }

  // ---- binding arguments ----

  /** show is t.UTC().Format(SQLiteLayout), t in nanoseconds. */
  function BindValue(sqlite: bool, show: int -> string, v: Value): Value {
    if sqlite && v.Time? then Text(show(v.t)) else v
  }

  /** Builder.bind: for SQLite every time becomes its text, in its own place; nothing else changes. */
  method Bind(sqlite: bool, show: int -> string, vals: seq<Value>) returns (bound: seq<Value>)
    ensures |bound| == |vals|
    ensures forall i :: 0 <= i < |vals| ==> bound[i] == BindValue(sqlite, show, vals[i])
  {
    bound := vals;
    if !sqlite {
      return;
    }
    for i := 0 to |vals|
      invariant |bound| == |vals|
      invariant forall k :: 0 <= k < i ==> bound[k] == BindValue(true, show, vals[k])
      invariant forall k :: i <= k < |vals| ==> bound[k] == vals[k]
    {
      if vals[i].Time? {
        bound := bound[i := Text(show(vals[i].t))];
      }
    }
  }

  /** show writes the times of the years 0 to 9999 as Encode does. */
  ghost predicate Shows(show: int -> string) {
    forall c: Civil :: Valid(c) ==> show(Instant(c)) == Encode(c)
  }

  /** The column's texts are compared byte by byte, as SQLite does without a COLLATE clause. */
  ghost predicate ByteOrder(coll: Collation, col: string) {
    forall s, t :: coll(col, Text(s)) < coll(col, Text(t)) <==> TextLess(s, t)
  }

  /** Two bound times compare in the database as the times do, to the microsecond. */
  lemma BoundTimesCompare(coll: Collation, col: string, op: CompareOp, show: int -> string, a: Civil, b: Civil)
    requires ByteOrder(coll, col) && Shows(show) && Valid(a) && Valid(b)
    ensures var x, y := BindValue(true, show, Time(Instant(a))), BindValue(true, show, Time(Instant(b)));
      CompareValues(coll, col, op, x, y) == Yes <==>
        match op
        case Less => Micros(a) < Micros(b)
        case Greater => Micros(a) > Micros(b)
        case Equal => Micros(a) == Micros(b)
  {
    hide Encode, TextLess, Micros, Instant, Valid;
    TextOrderIsTimeOrder(a, b);
    TextOrderIsTimeOrder(b, a);
    assert TextLess(Encode(a), Encode(b)) || TextLess(Encode(b), Encode(a)) || Encode(a) == Encode(b);
  }

  /** A stored text that the driver hands over as a time is bound as the same text again. */
  lemma RereadTimeKeepsText(show: int -> string, c: Civil)
    requires Shows(show) && Valid(c)
    ensures BindValue(true, show, Time(1000 * Micros(c))) == Text(Encode(c))
  {
    hide Encode, Micros, Instant;
    var whole := c.(nano := c.nano / 1000 * 1000);
    SameMicros(c, whole);
    TextOrderIsTimeOrder(c, whole);
  }

  lemma SameMicros(c: Civil, whole: Civil)
    requires Valid(c) && whole == c.(nano := c.nano / 1000 * 1000)
    ensures Valid(whole) && Micros(whole) == Micros(c) && Instant(whole) == 1000 * Micros(c)
  {
    hide DayNumber;
    MicrosOf(c);
    MicrosOf(whole);
    InstantParts(whole);
  }

  /** A time cursor keeps its place on SQLite: whether the driver hands the stored text over as it
      is or as a time, the value bound on the next request is the stored text. */
  lemma TimeCursorKeepsItsPlace(lib: Library, show: int -> string, e: Entity, s: Sort, row: Row,
                                                   secret: string, c: Civil)
    requires Shows(show) && Valid(c) && s.column != e.PrimaryColumn()
    requires Get(row, s.column) in [Text(Encode(c)), Time(1000 * Micros(c))]
    requires lib.parseTime(lib.showTime(1000 * Micros(c))) == Some(1000 * Micros(c))
    ensures var d := DecodeCursor(lib, EncodeCursor(lib, NewCursor(lib, e, s, row), secret), secret);
      d.Ok? && BindValue(true, show, d.value.value) == Text(Encode(c))
  {
    hide Encode, Micros;
    CursorCarriesValue(lib, e, s, row, secret);
    RereadTimeKeepsText(show, c);
  }
}
