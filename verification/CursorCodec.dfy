/** The signed cursor string (internal/query/cursor.go): a position is tagged with its
    type, written as JSON, signed, and restored on the next request. Base64 and JSON text
    are lossless and are kept as structured values; HMAC, number printing and RFC 3339
    times are library functions passed in as parameters. */
module CursorCodec {
  import opened SqlLogic
  import opened Keyset

  /** A JSON scalar; numbers are decoded with UseNumber, so they keep their exact value. */
  datatype Json = JNull | JNumber(r: real) | JString(s: string) | JBool(b: bool)

  datatype WireCursor = WireCursor(sort: string, desc: bool, value: Json, kind: string, id: Json)

  /** What a client sends back: a payload with a signature, or anything else. */
  datatype Token = Token(payload: WireCursor, signature: string) | Malformed

  datatype Library = Library(
    showTime: int -> string,
    parseTime: string -> Option<int>,
    showNumber: real -> string,
    mac: (WireCursor, string) -> string)

  const MIN_INT64 := -0x8000_0000_0000_0000
  const MAX_INT64 := 0x7FFF_FFFF_FFFF_FFFF

  predicate FitsInt64(n: int) { MIN_INT64 <= n <= MAX_INT64 }

  /** json.Number.Int64: the number is written without a fraction and fits. */
  function NumberToInt64(r: real): Option<int> {
    if r == r.Floor as real && FitsInt64(r.Floor) then Some(r.Floor) else None
  }

  function TagValue(lib: Library, v: Value): (Json, string) {
    match v
    case Null => (JNull, "")
    case Time(t) => (JString(lib.showTime(t)), "time")
    case Int(i) => (JNumber(i as real), "int")
    case Float(r) => (JNumber(r), "float")
    case Text(s) => (JString(s), "str")
    case Bool(b) => (JString(if b then "true" else "false"), "str")
  }

  /** A decoded JSON scalar as the driver binds it: a json.Number is a string. */
  function FromJson(lib: Library, j: Json): Value {
    match j
    case JNull => Null
    case JNumber(r) => Text(lib.showNumber(r))
    case JString(s) => Text(s)
    case JBool(b) => Bool(b)
  }

  function Untag(lib: Library, j: Json, kind: string): Value {
    if kind == "time" && j.JString? && lib.parseTime(j.s).Some? then Time(lib.parseTime(j.s).value)
    else if kind == "int" && j.JNumber? && NumberToInt64(j.r).Some? then Int(NumberToInt64(j.r).value)
    else FromJson(lib, j)
  }

  /** encoding/json of the untagged primary key; a time was replaced by its text. */
  function IdToJson(lib: Library, id: Value): Json {
    match id
    case Null => JNull
    case Int(i) => JNumber(i as real)
    case Float(r) => JNumber(r)
    case Bool(b) => JBool(b)
    case Text(s) => JString(s)
    case Time(t) => JString(lib.showTime(t))
  }

  function IdFromJson(lib: Library, j: Json): Value {
    if j.JNumber? && NumberToInt64(j.r).Some? then Int(NumberToInt64(j.r).value) else FromJson(lib, j)
  }

  function NewCursor(lib: Library, e: Entity, s: Sort, row: Row): WireCursor {
    var pk := e.PrimaryColumn();
    var (value, kind) := if s.column != pk then TagValue(lib, Get(row, s.column)) else (JNull, "");
    WireCursor(s.column, s.desc, value, kind, IdToJson(lib, Get(row, pk)))
  }

  function EncodeCursor(lib: Library, c: WireCursor, secret: string): Token {
    Token(c, lib.mac(c, secret))
  }

  function DecodeCursor(lib: Library, t: Token, secret: string): Result<Cursor> {
    match t
    case Malformed => Err("invalid cursor format")
    case Token(c, signature) =>
      if lib.mac(c, secret) != signature then Err("cursor signature mismatch")
      else Ok(Cursor(c.sort, c.desc, Untag(lib, c.value, c.kind), IdFromJson(lib, c.id)))
  }

  /** Sort values that come back unchanged: NULL, 64-bit integers, text, and times that
      RFC 3339 can write and read back. */
  predicate ValueSurvives(lib: Library, v: Value) {
    match v
    case Null => true
    case Int(i) => FitsInt64(i)
    case Text(_) => true
    case Time(t) => lib.parseTime(lib.showTime(t)) == Some(t)
    case _ => false
  }

  /** Primary keys that come back unchanged. A time key returns as text. */
  predicate IdSurvives(id: Value) {
    id.Null? || id.Text? || id.Bool? || (id.Int? && FitsInt64(id.i))
  }

  /** Encoding and decoding a row's cursor gives back exactly that row's position if and
      only if both values are of a kind that survives. */
  lemma CursorCarriesPosition(lib: Library, e: Entity, s: Sort, row: Row, secret: string)
    ensures var c := DecodeCursor(lib, EncodeCursor(lib, NewCursor(lib, e, s, row), secret), secret);
            var p := PositionOf(e, s, row);
            && c.Ok? && c.value.sort == s.column && c.value.desc == s.desc
            && (c.value.value == p.value && c.value.id == p.id
                <==> ValueSurvives(lib, p.value) && IdSurvives(p.id))
  {
  }

  /** The sort value comes back unchanged when it is of a kind that survives, whatever the key. */
  lemma CursorCarriesValue(lib: Library, e: Entity, s: Sort, row: Row, secret: string)
    requires ValueSurvives(lib, PositionOf(e, s, row).value)
    ensures var c := DecodeCursor(lib, EncodeCursor(lib, NewCursor(lib, e, s, row), secret), secret);
            c.Ok? && c.value.value == PositionOf(e, s, row).value
  {
  }

  /** Integers of 64 bits survive; a boolean sort value comes back as its text. */
  lemma IntegersAndBooleans(lib: Library, e: Entity, s: Sort, row: Row, secret: string)
    requires s.column != e.PrimaryColumn()
    ensures var v := Get(row, s.column);
      var c := DecodeCursor(lib, EncodeCursor(lib, NewCursor(lib, e, s, row), secret), secret);
      && c.Ok?
      && (v.Int? ==> (c.value.value == v <==> -0x8000_0000_0000_0000 <= v.i <= 0x7FFF_FFFF_FFFF_FFFF))
      && (v.Bool? ==> c.value.value == Text(if v.b then "true" else "false"))
  {
  }

  /** A cursor is accepted if and only if its signature is the one the server makes for its payload:
      a cursor that the server did not issue, or that was changed, is refused. */
  lemma OnlySignedIsAccepted(lib: Library, t: Token, secret: string)
    ensures DecodeCursor(lib, t, secret).Ok? <==> t.Token? && t.signature == lib.mac(t.payload, secret)
    ensures t.Token? && t.signature == lib.mac(t.payload, secret) ==>
      && DecodeCursor(lib, t, secret).value.sort == t.payload.sort
      && DecodeCursor(lib, t, secret).value.desc == t.payload.desc
  {
  }
}
