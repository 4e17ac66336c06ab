/** What Parser accepts: each production as a function from the unread text to a result. */
module JsonGrammar {
  import opened Bytes
  import opened JsonValues
  import opened JsonNumbers
  import opened JsonPrinter

  datatype ParseError =
    | TrailingCharacters | UnexpectedEnd | InvalidValue | ExpectedKey | ExpectedColon
    | ExpectedCommaOrBrace | ExpectedCommaOrBracket | ExpectedQuote | BadUnicodeEscape | BadEscape
    | ExpectedTrue | ExpectedFalse | ExpectedNull | BadNumber

  datatype Parsed<+T> = Ok(value: T, rest: bytes) | Err(error: ParseError)

  /** isspace in the C locale. */
  predicate IsSpace(c: byte) {
    c == 32 || 9 <= c <= 13
  }

  function SkipSpaces(s: bytes): (r: bytes)
    ensures |r| <= |s|
    ensures r != [] ==> !IsSpace(r[0])
  {
    if s != [] && IsSpace(s[0]) then SkipSpaces(s[1..]) else s
  }

  /** The next byte, or NUL at the end. */
  function Peek(s: bytes): byte {
    if s == [] then 0 else s[0]
  }

  // ---- strings ----

  function HexValue(c: byte): (h: int)
    ensures -1 <= h < 16
  {
    if 48 <= c <= 57 then c - 48
    else if 97 <= c <= 102 then c - 87
    else if 65 <= c <= 70 then c - 55
    else -1
  }

  /** UTF-8 of a 16-bit code unit; surrogates are encoded one by one. */
  function Utf8(code: nat): bytes
    requires code < 0x10000
  {
    if code < 0x80 then [code]
    else if code < 0x800 then [0xC0 + code / 64, 0x80 + code % 64]
    else [0xE0 + code / 4096, 0x80 + code / 64 % 64, 0x80 + code % 64]
  }

  /** The byte a one-letter escape stands for. */
  function Unescape(e: byte): Option<byte> {
    if e == QUOTE then Some(QUOTE)
    else if e == BACKSLASH then Some(BACKSLASH)
    else if e == 47 then Some(47)
    else if e == 98 then Some(8)
    else if e == 102 then Some(12)
    else if e == 110 then Some(10)
    else if e == 114 then Some(13)
    else if e == 116 then Some(9)
    else None
  }

  /** The four hex digits behind \u. */
  function Unicode(s: bytes): Parsed<bytes> {
    if |s| < 4 then Err(UnexpectedEnd)
    else
      var h1, h2, h3, h4 := HexValue(s[0]), HexValue(s[1]), HexValue(s[2]), HexValue(s[3]);
      if h1 < 0 || h2 < 0 || h3 < 0 || h4 < 0 then Err(BadUnicodeEscape)
      else Ok(Utf8(h1 * 4096 + h2 * 256 + h3 * 16 + h4), s[4..])
  }

  /** What follows a backslash. */
  function EscapeSequence(s: bytes): (r: Parsed<bytes>)
    ensures r.Ok? ==> |r.rest| < |s|
  {
    if s == [] then Err(UnexpectedEnd)
    else if s[0] == 117 then Unicode(s[1..])
    else match Unescape(s[0])
      case Some(c) => Ok([c], s[1..])
      case None => Err(BadEscape)
  }

  /** The rest of a string, behind its opening quote. */
  function Characters(s: bytes): (r: Parsed<bytes>)
    ensures r.Ok? ==> |r.rest| < |s|
    decreases |s|
  {
    if s == [] then Err(UnexpectedEnd)
    else if s[0] == QUOTE then Ok([], s[1..])
    else if s[0] == BACKSLASH then
      match EscapeSequence(s[1..])
      case Err(e) => Err(e)
      case Ok(c, rest) => Prepend(c, Characters(rest))
    else Prepend([s[0]], Characters(s[1..]))
  }

  function Prepend(c: bytes, r: Parsed<bytes>): Parsed<bytes> {
    match r case Err(e) => Err(e) case Ok(s, rest) => Ok(c + s, rest)
  }

  function String(s: bytes): (r: Parsed<bytes>)
    ensures r.Ok? ==> |r.rest| < |s|
  {
    if s == [] then Err(UnexpectedEnd)
    else if s[0] != QUOTE then Err(ExpectedQuote)
    else Characters(s[1..])
  }

  // ---- numbers ----

  function DigitRun(s: bytes): (n: nat)
    ensures n <= |s| && IsDigits(s[..n])
  {
    if s == [] || !IsDigit(s[0]) then 0 else 1 + DigitRun(s[1..])
  }

  /** Optional fraction: the digits behind the point. */
  function FractionPart(s: bytes): (r: Parsed<bytes>)
    ensures r.Ok? ==> IsDigits(r.value) && |r.rest| <= |s|
  {
    if Peek(s) != DOT then Ok([], s)
    else
      var n := DigitRun(s[1..]);
      if n == 0 then Err(BadNumber) else Ok(s[1..][..n], s[1..][n..])
  }

  /** Digits with an optional sign. */
  function SignedDigits(s: bytes): (r: Parsed<int>)
    ensures r.Ok? ==> |r.rest| <= |s|
  {
    var t := if Peek(s) == PLUS || Peek(s) == MINUS then s[1..] else s;
    var n := DigitRun(t);
    if n == 0 then Err(BadNumber)
    else
      var e: int := DecimalValue(t[..n]);
      Ok(if Peek(s) == MINUS then -e else e, t[n..])
  }

  /** Optional exponent. */
  function ExponentPart(s: bytes): (r: Parsed<int>)
    ensures r.Ok? ==> |r.rest| <= |s|
  {
    if Peek(s) != 101 && Peek(s) != 69 then Ok(0, s) else SignedDigits(s[1..])
  }

  function TimesPow10(x: real, e: int): real {
    if e >= 0 then x * Pow10(e) as real else x / Pow10(-e) as real
  }

  /** The length of the integer part: one zero, or a run of digits. */
  function IntegerRun(s: bytes): (n: nat)
    ensures n <= |s| && IsDigits(s[..n])
  {
    if Peek(s) == ZERO then 1 else DigitRun(s)
  }

  function IntegerPart(s: bytes): (r: Parsed<bytes>)
    ensures r.Ok? ==> IsDigits(r.value) && |r.rest| < |s|
  {
    var n := IntegerRun(s);
    if n == 0 then Err(BadNumber) else Ok(s[..n], s[n..])
  }

  function Unsigned(s: bytes): (r: Parsed<real>)
    ensures r.Ok? ==> |r.rest| < |s|
  {
    match IntegerPart(s)
    case Err(e) => Err(e)
    case Ok(d, t) =>
      match FractionPart(t)
      case Err(e) => Err(e)
      case Ok(f, u) =>
        match ExponentPart(u)
        case Err(e) => Err(e)
        case Ok(exp, rest) => Ok(TimesPow10(Scaled(d, f), exp), rest)
  }

  function Number(s: bytes): (r: Parsed<Value>)
    ensures r.Ok? ==> |r.rest| < |s|
  {
    match Unsigned(if Peek(s) == MINUS then s[1..] else s)
    case Err(e) => Err(e)
    case Ok(x, rest) => Ok(Num(if Peek(s) == MINUS then -x else x), rest)
  }

  // ---- values ----

  function Literal(s: bytes, word: bytes, v: Value, e: ParseError): (r: Parsed<Value>)
    requires word != []
    ensures r.Ok? ==> |r.rest| < |s|
  {
    if |s| >= |word| && s[..|word|] == word then Ok(v, s[|word|..]) else Err(e)
  }

  function ParseValue(s: bytes): (r: Parsed<Value>)
    ensures r.Ok? ==> |r.rest| < |s|
    decreases |s|, 1
  {
    var c := Peek(s);
    if c == LBRACE then ParseObject(s)
    else if c == LBRACKET then ParseArray(s)
    else if c == QUOTE then (match String(s) case Err(e) => Err(e) case Ok(b, rest) => Ok(Str(b), rest))
    else if c == 116 then Literal(s, TRUE, Bool(true), ExpectedTrue)
    else if c == 102 then Literal(s, FALSE, Bool(false), ExpectedFalse)
    else if c == 110 then Literal(s, NULL, Null, ExpectedNull)
    else if c == MINUS || IsDigit(c) then Number(s)
    else Err(InvalidValue)
  }

  function ParseArray(s: bytes): (r: Parsed<Value>)
    requires s != []
    ensures r.Ok? ==> |r.rest| < |s|
    decreases |s|, 0
  {
    var t := SkipSpaces(s[1..]);
    if Peek(t) == RBRACKET then Ok(Arr([]), t[1..])
    else match Elements(t) case Err(e) => Err(e) case Ok(vs, rest) => Ok(Arr(vs), rest)
  }

  /** One or more elements, and the closing bracket. */
  function Elements(s: bytes): (r: Parsed<seq<Value>>)
    ensures r.Ok? ==> |r.rest| < |s|
    decreases |s|, 2
  {
    match ParseValue(SkipSpaces(s))
    case Err(e) => Err(e)
    case Ok(v, rest) =>
      var t := SkipSpaces(rest);
      if t == [] then Err(UnexpectedEnd)
      else if t[0] == RBRACKET then Ok([v], t[1..])
      else if t[0] != COMMA then Err(ExpectedCommaOrBracket)
      else match Elements(SkipSpaces(t[1..])) case Err(e) => Err(e) case Ok(vs, u) => Ok([v] + vs, u)
  }

  function ParseObject(s: bytes): (r: Parsed<Value>)
    requires s != []
    ensures r.Ok? ==> |r.rest| < |s|
    decreases |s|, 0
  {
    var t := SkipSpaces(s[1..]);
    if Peek(t) == RBRACE then Ok(Obj(map[]), t[1..])
    else match Members(t) case Err(e) => Err(e) case Ok(m, rest) => Ok(Obj(m), rest)
  }

  /** A key, the colon, and the value. */
  function Member(s: bytes): (r: Parsed<(bytes, Value)>)
    ensures r.Ok? ==> |r.rest| < |s|
    decreases |s|, 2
  {
    var t := SkipSpaces(s);
    if Peek(t) != QUOTE then Err(ExpectedKey)
    else
      match String(t)
      case Err(e) => Err(e)
      case Ok(key, rest) =>
        var u := SkipSpaces(rest);
        if u == [] then Err(UnexpectedEnd)
        else if u[0] != COLON then Err(ExpectedColon)
        else match ParseValue(SkipSpaces(u[1..])) case Err(e) => Err(e) case Ok(v, w) => Ok((key, v), w)
  }

  /** One or more members, and the closing brace; the first value of a repeated key is kept. */
  function Members(s: bytes): (r: Parsed<map<bytes, Value>>)
    ensures r.Ok? ==> |r.rest| < |s|
    decreases |s|, 3
  {
    match Member(s)
    case Err(e) => Err(e)
    case Ok(kv, rest) =>
      var t := SkipSpaces(rest);
      if t == [] then Err(UnexpectedEnd)
      else if t[0] == RBRACE then Ok(map[kv.0 := kv.1], t[1..])
      else if t[0] != COMMA then Err(ExpectedCommaOrBrace)
      else match Members(SkipSpaces(t[1..])) case Err(e) => Err(e) case Ok(m, u) => Ok(m[kv.0 := kv.1], u)
  }

  /** parse: one value, surrounded by white space, and nothing else. */
  function Parse(s: bytes): Parsed<Value> {
    match ParseValue(SkipSpaces(s))
    case Err(e) => Err(e)
    case Ok(v, rest) => if SkipSpaces(rest) == [] then Ok(v, []) else Err(TrailingCharacters)
  }
}
