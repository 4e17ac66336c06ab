/** JSON text described by itself: syntax trees with every blank, escape and digit in them, the text
    of a tree and the value it means. The parser accepts exactly these texts. */
module JsonSyntax {
  import opened Bytes
  import opened Handles
  import opened JsonValues
  import opened JsonNumbers
  import opened JsonPrinter
  import opened JsonGrammar

  // ---- trees ----

  /** A character of a string: itself, a one-letter escape, or \u and four hexadecimal digits. */
  datatype Piece = Raw(c: byte) | Short(letter: byte) | Code(h1: byte, h2: byte, h3: byte, h4: byte)

  /** An exponent: e or E, the sign if any, the digits. */
  datatype Exponent = Exponent(mark: byte, sign: bytes, digits: bytes)

  /** No fraction is an empty one. */
  datatype Numeral = Numeral(negative: bool, whole: bytes, fraction: bytes, exponent: Option<Exponent>)

  datatype Tree =
    | NullTree
    | BoolTree(b: bool)
    | NumTree(n: Numeral)
    | StrTree(pieces: seq<Piece>)
    | ArrTree(blank: bytes, items: seq<Item>)   // the blanks of an empty array
    | ObjTree(blank: bytes, fields: seq<Field>) // likewise

  /** An element with the blanks around it. */
  datatype Item = Item(before: bytes, tree: Tree, behind: bytes)

  /** A key and its value, with the blanks around all four tokens. */
  datatype Field = Field(before: bytes, key: seq<Piece>, colon: bytes, value: bytes, tree: Tree, behind: bytes)

  // ---- which trees there are ----

  predicate Blank(s: bytes) {
    forall i :: 0 <= i < |s| ==> s[i] == 32 || s[i] == 9 || s[i] == 10 || s[i] == 11 || s[i] == 12 || s[i] == 13
  }

  const SHORT: map<byte, byte> := map[34 := 34, 92 := 92, 47 := 47, 98 := 8, 102 := 12, 110 := 10, 114 := 13, 116 := 9]

  predicate GoodPiece(p: Piece) {
    match p
    case Raw(c) => c != 34 && c != 92
    case Short(e) => e in SHORT
    case Code(a, b, c, d) =>
      DigitValue(a).Some? && DigitValue(b).Some? && DigitValue(c).Some? && DigitValue(d).Some?
  }

  predicate GoodPieces(ps: seq<Piece>) {
    ps == [] || (GoodPiece(ps[0]) && GoodPieces(ps[1..]))
  }

  predicate GoodExponent(e: Exponent) {
    && (e.mark == 101 || e.mark == 69)
    && (e.sign == [] || e.sign == [PLUS] || e.sign == [MINUS])
    && e.digits != [] && IsDigits(e.digits)
  }

  /** No leading zero but a lone one. */
  predicate GoodNumeral(n: Numeral) {
    && n.whole != [] && IsDigits(n.whole) && (n.whole[0] == ZERO ==> |n.whole| == 1)
    && IsDigits(n.fraction)
    && (n.exponent.Some? ==> GoodExponent(n.exponent.value))
  }

  predicate Good(t: Tree)
    decreases t
  {
    match t
    case NullTree => true
    case BoolTree(_) => true
    case NumTree(n) => GoodNumeral(n)
    case StrTree(ps) => GoodPieces(ps)
    case ArrTree(b, items) => Blank(b) && GoodItems(items)
    case ObjTree(b, fields) => Blank(b) && GoodFields(fields)
  }

  predicate GoodItems(l: seq<Item>)
    decreases l
  {
    l == [] || (Blank(l[0].before) && Good(l[0].tree) && Blank(l[0].behind) && GoodItems(l[1..]))
  }

  predicate GoodFields(l: seq<Field>)
    decreases l
  {
    l == [] ||
    (&& Blank(l[0].before) && GoodPieces(l[0].key) && Blank(l[0].colon) && Blank(l[0].value) && Good(l[0].tree)
     && Blank(l[0].behind) && GoodFields(l[1..]))
  }

  // ---- the text of a tree, in front of a text t ----

  function PutPiece(p: Piece, t: bytes): bytes {
    match p
    case Raw(c) => [c] + t
    case Short(e) => [BACKSLASH, e] + t
    case Code(a, b, c, d) => [BACKSLASH, 117, a, b, c, d] + t
  }

  function PutPieces(ps: seq<Piece>, t: bytes): bytes {
    if ps == [] then t else PutPiece(ps[0], PutPieces(ps[1..], t))
  }

  function PutString(ps: seq<Piece>, t: bytes): bytes {
    [QUOTE] + PutPieces(ps, [QUOTE] + t)
  }

  function PutExponent(e: Option<Exponent>, t: bytes): bytes {
    if e.None? then t else [e.value.mark] + (e.value.sign + (e.value.digits + t))
  }

  function PutFraction(f: bytes, t: bytes): bytes {
    if f == [] then t else [DOT] + (f + t)
  }

  function PutUnsigned(n: Numeral, t: bytes): bytes {
    n.whole + PutFraction(n.fraction, PutExponent(n.exponent, t))
  }

  function PutNumeral(n: Numeral, t: bytes): bytes {
    if n.negative then [MINUS] + PutUnsigned(n, t) else PutUnsigned(n, t)
  }

  function Put(v: Tree, t: bytes): bytes
    decreases v
  {
    match v
    case NullTree => NULL + t
    case BoolTree(b) => (if b then TRUE else FALSE) + t
    case NumTree(n) => PutNumeral(n, t)
    case StrTree(ps) => PutString(ps, t)
    case ArrTree(b, items) => [LBRACKET] + if items == [] then b + ([RBRACKET] + t) else PutItems(items, t)
    case ObjTree(b, fields) => [LBRACE] + if fields == [] then b + ([RBRACE] + t) else PutFields(fields, t)
  }

  /** The elements, the commas between them and the closing bracket. */
  function PutItems(l: seq<Item>, t: bytes): bytes
    requires l != []
    decreases l, 1
  {
    PutItem(l[0], if |l| == 1 then [RBRACKET] + t else [COMMA] + PutItems(l[1..], t))
  }

  function PutItem(x: Item, t: bytes): bytes
    decreases x, 0
  {
    x.before + Put(x.tree, x.behind + t)
  }

  function PutFields(l: seq<Field>, t: bytes): bytes
    requires l != []
    decreases l, 1
  {
    PutField(l[0], if |l| == 1 then [RBRACE] + t else [COMMA] + PutFields(l[1..], t))
  }

  function PutField(x: Field, t: bytes): bytes
    decreases x, 0
  {
    x.before + PutString(x.key, x.colon + ([COLON] + (x.value + Put(x.tree, x.behind + t))))
  }

  lemma PutItemsCons(x: Item, l: seq<Item>, t: bytes)
    ensures PutItems([x] + l, t) == PutItem(x, if l == [] then [RBRACKET] + t else [COMMA] + PutItems(l, t))
  {
    assert ([x] + l)[1..] == l;
  }

  lemma PutFieldsCons(x: Field, l: seq<Field>, t: bytes)
    ensures PutFields([x] + l, t) == PutField(x, if l == [] then [RBRACE] + t else [COMMA] + PutFields(l, t))
  {
    assert ([x] + l)[1..] == l;
  }

  // ---- what a tree means ----

  function CodeOf(a: byte, b: byte, c: byte, d: byte): (n: nat)
    requires GoodPiece(Code(a, b, c, d))
    ensures n < 0x10000
  {
    DigitValue(a).value * 4096 + DigitValue(b).value * 256 + DigitValue(c).value * 16 + DigitValue(d).value
  }

  function PieceContent(p: Piece): bytes
    requires GoodPiece(p)
  {
    match p
    case Raw(c) => [c]
    case Short(e) => [SHORT[e]]
    case Code(a, b, c, d) => Utf8(CodeOf(a, b, c, d))
  }

  function Content(ps: seq<Piece>): bytes
    requires GoodPieces(ps)
  {
    if ps == [] then [] else PieceContent(ps[0]) + Content(ps[1..])
  }

  /** The digits behind a decimal point. */
  function Tenths(f: bytes): real
    requires IsDigits(f)
  {
    if f == [] then 0.0 else ((f[0] - ZERO) as real + Tenths(f[1..])) / 10.0
  }

  /** The decimal point moved e places to the right. */
  function Moved(x: real, e: int): real
    decreases if e < 0 then -e else e
  {
    if e == 0 then x else if e > 0 then 10.0 * Moved(x, e - 1) else Moved(x, e + 1) / 10.0
  }

  function ExponentOf(e: Option<Exponent>): int
    requires e.Some? ==> GoodExponent(e.value)
  {
    if e.None? then 0
    else if e.value.sign == [MINUS] then -(DecimalValue(e.value.digits) as int)
    else DecimalValue(e.value.digits)
  }

  function Size(n: Numeral): real
    requires GoodNumeral(n)
  {
    Moved(DecimalValue(n.whole) as real + Tenths(n.fraction), ExponentOf(n.exponent))
  }

  function Amount(n: Numeral): real
    requires GoodNumeral(n)
  {
    if n.negative then -Size(n) else Size(n)
  }

  function Meaning(t: Tree): Value
    requires Good(t)
    decreases t
  {
    match t
    case NullTree => Null
    case BoolTree(b) => Bool(b)
    case NumTree(n) => Num(Amount(n))
    case StrTree(ps) => Str(Content(ps))
    case ArrTree(_, items) => Arr(Meanings(items))
    case ObjTree(_, fields) => Obj(Emplaced(Pairs(fields)))
  }

  function Meanings(l: seq<Item>): seq<Value>
    requires GoodItems(l)
    decreases l
  {
    if l == [] then [] else [Meaning(l[0].tree)] + Meanings(l[1..])
  }

  function Pairs(l: seq<Field>): seq<(bytes, Value)>
    requires GoodFields(l)
    decreases l
  {
    if l == [] then [] else [(Content(l[0].key), Meaning(l[0].tree))] + Pairs(l[1..])
  }

  // ---- blanks ----

  lemma {:induction false} SkipBlank(a: bytes, s: bytes)
    requires Blank(a)
    ensures SkipSpaces(a + s) == SkipSpaces(s)
  {
    if a == [] {
      assert a + s == s;
    } else {
      SkipBlank(a[1..], s);
      assert (a + s)[1..] == a[1..] + s;
    }
  }

  lemma SkipTo(a: bytes, s: bytes)
    requires Blank(a) && s != [] && !IsSpace(s[0])
    ensures SkipSpaces(a + s) == s
  {
    SkipBlank(a, s);
  }

  /** What SkipSpaces drops is blank. */
  lemma {:induction false} Skipped(s: bytes) returns (a: bytes)
    ensures Blank(a) && s == a + SkipSpaces(s)
  {
    if s != [] && IsSpace(s[0]) {
      var b := Skipped(s[1..]);
      a := [s[0]] + b;
      assert s == [s[0]] + s[1..];
      assert [s[0]] + (b + SkipSpaces(s[1..])) == a + SkipSpaces(s[1..]);
    } else {
      a := [];
      assert s == [] + s;
    }
  }

  // ---- strings ----

  lemma HexAgrees(c: byte)
    ensures DigitValue(c) == if HexValue(c) < 0 then None else Some(HexValue(c))
  {
  }

  lemma PieceReads(p: Piece, t: bytes)
    requires GoodPiece(p)
    ensures Characters(PutPiece(p, t)) == Prepend(PieceContent(p), Characters(t))
  {
    var s := PutPiece(p, t);
    match p
    case Raw(c) => assert s[1..] == t;
    case Short(e) =>
      assert s[1..] == [e] + t && s[1..][1..] == t;
      EscapeStep(s, [SHORT[e]], t);
    case Code(a, b, c, d) =>
      assert s[1..] == [117, a, b, c, d] + t && s[1..][1..] == [a, b, c, d] + t && s[1..][1..][4..] == t;
      CodeReads(a, b, c, d, t);
      EscapeStep(s, PieceContent(p), t);
  }

  lemma CodeReads(a: byte, b: byte, c: byte, d: byte, t: bytes)
    requires GoodPiece(Code(a, b, c, d))
    ensures Unicode([a, b, c, d] + t) == Ok(Utf8(CodeOf(a, b, c, d)), t)
  {
    HexAgrees(a);
    HexAgrees(b);
    HexAgrees(c);
    HexAgrees(d);
    assert ([a, b, c, d] + t)[4..] == t;
  }

  lemma EscapeStep(s: bytes, c: bytes, t: bytes)
    requires s != [] && s[0] == BACKSLASH && EscapeSequence(s[1..]) == Ok(c, t)
    ensures Characters(s) == Prepend(c, Characters(t))
  {
  }

  lemma {:induction false} PiecesRead(ps: seq<Piece>, t: bytes)
    requires GoodPieces(ps)
    ensures Characters(PutPieces(ps, [QUOTE] + t)) == Ok(Content(ps), t)
  {
    if ps == [] {
      assert ([QUOTE] + t)[1..] == t;
    } else {
      PiecesRead(ps[1..], t);
      PieceReads(ps[0], PutPieces(ps[1..], [QUOTE] + t));
    }
  }

  lemma StringReads(ps: seq<Piece>, t: bytes)
    requires GoodPieces(ps)
    ensures String(PutString(ps, t)) == Ok(Content(ps), t)
  {
    PiecesRead(ps, t);
    assert PutString(ps, t)[1..] == PutPieces(ps, [QUOTE] + t);
  }

  /** The first character of a string text. */
  lemma PieceFrom(s: bytes) returns (p: Piece, t: bytes)
    requires Characters(s).Ok? && s[0] != QUOTE
    ensures GoodPiece(p) && s == PutPiece(p, t) && |t| < |s|
    ensures Characters(s) == Prepend(PieceContent(p), Characters(t))
  {
    if s[0] != BACKSLASH {
      p, t := Raw(s[0]), s[1..];
    } else {
      p, t := EscapeFrom(s[1..]);
      assert s == [s[0]] + s[1..];
    }
    PieceReads(p, t);
  }

  lemma EscapeFrom(s: bytes) returns (p: Piece, t: bytes)
    requires EscapeSequence(s).Ok?
    ensures GoodPiece(p) && !p.Raw? && [BACKSLASH] + s == PutPiece(p, t) && |t| < |s|
  {
    if s[0] == 117 {
      var u := s[1..];
      HexAgrees(u[0]);
      HexAgrees(u[1]);
      HexAgrees(u[2]);
      HexAgrees(u[3]);
      p, t := Code(u[0], u[1], u[2], u[3]), u[4..];
      assert s == [117] + u && u == [u[0], u[1], u[2], u[3]] + t;
    } else {
      p, t := Short(s[0]), s[1..];
      assert s == [s[0]] + t;
    }
  }

  lemma {:induction false} PiecesFrom(s: bytes) returns (ps: seq<Piece>)
    requires Characters(s).Ok?
    ensures GoodPieces(ps) && s == PutPieces(ps, [QUOTE] + Characters(s).rest) && Content(ps) == Characters(s).value
    decreases |s|
  {
    if s[0] == QUOTE {
      ps := [];
      assert s == [QUOTE] + s[1..];
    } else {
      var p, t := PieceFrom(s);
      var qs := PiecesFrom(t);
      ps := [p] + qs;
      assert ps[1..] == qs;
    }
  }

  lemma StringFrom(s: bytes) returns (ps: seq<Piece>)
    requires String(s).Ok?
    ensures GoodPieces(ps) && s == PutString(ps, String(s).rest) && Content(ps) == String(s).value
  {
    ps := PiecesFrom(s[1..]);
    assert s == [QUOTE] + s[1..];
  }
}
