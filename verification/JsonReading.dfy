/** The parser reads the text of every syntax tree as what the tree means, and accepts no other text. */
module JsonReading {
  import opened Bytes
  import opened JsonValues
  import opened JsonNumbers
  import opened JsonPrinter
  import opened JsonGrammar
  import opened JsonSyntax

  // ---- numbers ----

  /** Text that cannot continue a number. */
  predicate Delimits(t: bytes) {
    t == [] || (!IsDigit(t[0]) && t[0] != DOT && t[0] != 101 && t[0] != 69)
  }

  predicate NoDigit(t: bytes) {
    t == [] || !IsDigit(t[0])
  }

  lemma {:induction false} DigitRunOf(d: bytes, t: bytes)
    requires IsDigits(d) && NoDigit(t)
    ensures DigitRun(d + t) == |d|
  {
    if d == [] {
      assert d + t == t;
    } else {
      DigitRunOf(d[1..], t);
      assert (d + t)[1..] == d[1..] + t;
    }
  }

  lemma Cut<T>(a: seq<T>, b: seq<T>)
    ensures (a + b)[..|a|] == a && (a + b)[|a|..] == b
  {
  }

  lemma ExponentReads(e: Option<Exponent>, t: bytes)
    requires (e.Some? ==> GoodExponent(e.value)) && Delimits(t)
    ensures ExponentPart(PutExponent(e, t)) == Ok(ExponentOf(e), t)
  {
    if e.Some? {
      var x := e.value;
      assert PutExponent(e, t)[1..] == x.sign + (x.digits + t);
      SignedReads(x.sign, x.digits, t);
    }
  }

  lemma SignedReads(sign: bytes, d: bytes, t: bytes)
    requires (sign == [] || sign == [PLUS] || sign == [MINUS]) && d != [] && IsDigits(d) && NoDigit(t)
    ensures SignedDigits(sign + (d + t)) ==
            Ok(if sign == [MINUS] then -(DecimalValue(d) as int) else DecimalValue(d), t)
  {
    var s := sign + (d + t);
    DigitRunOf(d, t);
    Cut(d, t);
    if sign == [] {
      assert s == d + t && s[0] == d[0];
    } else {
      assert s[1..] == d + t && s[0] == sign[0];
    }
  }

  lemma FractionReads(f: bytes, t: bytes)
    requires IsDigits(f) && NoDigit(t) && (f == [] ==> Peek(t) != DOT)
    ensures FractionPart(PutFraction(f, t)) == Ok(f, t)
  {
    if f != [] {
      assert PutFraction(f, t)[1..] == f + t;
      DigitRunOf(f, t);
      Cut(f, t);
    }
  }

  lemma WholeReads(d: bytes, t: bytes)
    requires d != [] && IsDigits(d) && (d[0] == ZERO ==> |d| == 1) && NoDigit(t)
    ensures IntegerPart(d + t) == Ok(d, t)
  {
    DigitRunOf(d, t);
    Cut(d, t);
    assert (d + t)[0] == d[0];
  }

  /** Scaled and TimesPow10 are the decimal fraction and the power. */
  lemma {:induction false} DigitInFront(x: byte, f: bytes)
    requires IsDigit(x) && IsDigits(f)
    ensures DecimalValue([x] + f) == (x - ZERO) * Pow10(|f|) + DecimalValue(f)
    decreases |f|
  {
    var s := [x] + f;
    if f == [] {
      assert s[..0] == [];
    } else {
      var g := f[..|f| - 1];
      DigitInFront(x, g);
      assert s[..|s| - 1] == [x] + g;
      TimesTen(x - ZERO, Pow10(|g|));
    }
  }

  lemma TimesTen(a: int, p: nat)
    ensures 10 * (a * p) == a * (10 * p)
  {
  }

  lemma {:induction false} TenthsScaled(f: bytes)
    requires IsDigits(f)
    ensures DecimalValue(f) as real / Pow10(|f|) as real == Tenths(f)
  {
    if f != [] {
      TenthsScaled(f[1..]);
      DigitInFront(f[0], f[1..]);
      assert [f[0]] + f[1..] == f;
      ShiftRatio(f[0] - ZERO, DecimalValue(f[1..]), Pow10(|f| - 1));
    }
  }

  lemma ShiftRatio(x: int, d: nat, p: nat)
    requires p >= 1
    ensures (x * p + d) as real / (10 * p) as real == (x as real + d as real / p as real) / 10.0
  {
    var r := (x as real + d as real / p as real) / 10.0;
    ProductReal(x, p);
    assert d as real / p as real * p as real == d as real;
    assert r * 10.0 == x as real + d as real / p as real;
    assert r * 10.0 * p as real == (x * p + d) as real;
    assert r * (10 * p) as real == (x * p + d) as real;
  }

  lemma {:induction false} MovedRight(x: real, e: nat)
    ensures Moved(x, e) == TimesPow10(x, e)
  {
    if e > 0 {
      MovedRight(x, e - 1);
      TenTimes(x, Pow10(e - 1));
    }
  }

  lemma TenTimes(x: real, p: nat)
    ensures 10.0 * (x * p as real) == x * (10 * p) as real
  {
  }

  lemma {:induction false} MovedLeft(x: real, e: nat)
    ensures Moved(x, -(e as int)) == x / Pow10(e) as real
  {
    if e > 0 {
      MovedLeft(x, e - 1);
      TenthOf(x, Pow10(e - 1));
    }
  }

  lemma TenthOf(x: real, p: nat)
    requires p >= 1
    ensures x / p as real / 10.0 == x / (10 * p) as real
  {
    var r := x / p as real / 10.0;
    assert r * 10.0 * p as real == x;
    assert r * (10 * p) as real == x;
  }

  lemma TimesIsMoved(x: real, e: int)
    ensures TimesPow10(x, e) == Moved(x, e)
  {
    if e >= 0 {
      MovedRight(x, e);
    } else {
      MovedLeft(x, -e);
    }
  }

  lemma UnsignedReads(n: Numeral, t: bytes)
    requires GoodNumeral(n) && Delimits(t)
    ensures Unsigned(PutUnsigned(n, t)) == Ok(TimesPow10(Scaled(n.whole, n.fraction), ExponentOf(n.exponent)), t)
  {
    var e := PutExponent(n.exponent, t);
    ExponentReads(n.exponent, t);
    FractionReads(n.fraction, e);
    WholeReads(n.whole, PutFraction(n.fraction, e));
  }

  lemma UnsignedStarts(n: Numeral, t: bytes)
    requires GoodNumeral(n)
    ensures PutUnsigned(n, t) != [] && IsDigit(PutUnsigned(n, t)[0])
  {
    assert PutUnsigned(n, t)[0] == n.whole[0];
  }

  function Parsed10(n: Numeral): real
    requires GoodNumeral(n)
  {
    TimesPow10(Scaled(n.whole, n.fraction), ExponentOf(n.exponent))
  }

  /** What the parser computes from the digits is the amount they denote. */
  lemma AmountIs(n: Numeral)
    requires GoodNumeral(n)
    ensures Amount(n) == if n.negative then -Parsed10(n) else Parsed10(n)
  {
    ScaledIs(n.whole, n.fraction);
    TimesIsMoved(Scaled(n.whole, n.fraction), ExponentOf(n.exponent));
  }

  lemma ScaledIs(d: bytes, f: bytes)
    requires IsDigits(d) && IsDigits(f)
    ensures Scaled(d, f) == DecimalValue(d) as real + Tenths(f)
  {
    TenthsScaled(f);
  }

  lemma SignStep(negative: bool, u: bytes, x: real, t: bytes)
    requires u != [] && u[0] != MINUS && Unsigned(u) == Ok(x, t)
    ensures Number(if negative then [MINUS] + u else u) == Ok(Num(if negative then -x else x), t)
  {
    assert ([MINUS] + u)[1..] == u;
  }

  lemma NumeralReads(n: Numeral, t: bytes)
    requires GoodNumeral(n) && Delimits(t)
    ensures Number(PutNumeral(n, t)) == Ok(Num(Amount(n)), t)
  {
    UnsignedReads(n, t);
    UnsignedStarts(n, t);
    AmountIs(n);
    SignStep(n.negative, PutUnsigned(n, t), Parsed10(n), t);
  }

  lemma SignFrom(s: bytes) returns (sign: bytes, v: bytes)
    ensures (sign == [] || sign == [PLUS] || sign == [MINUS]) && (sign == [MINUS] <==> Peek(s) == MINUS)
    ensures s == sign + v && v == if Peek(s) == PLUS || Peek(s) == MINUS then s[1..] else s
  {
    if Peek(s) == PLUS || Peek(s) == MINUS {
      sign, v := [s[0]], s[1..];
    } else {
      sign, v := [], s;
    }
  }

  lemma SignedFrom(s: bytes) returns (sign: bytes, d: bytes)
    requires SignedDigits(s).Ok?
    ensures (sign == [] || sign == [PLUS] || sign == [MINUS]) && d != [] && IsDigits(d)
    ensures s == sign + (d + SignedDigits(s).rest)
    ensures SignedDigits(s).value == if sign == [MINUS] then -(DecimalValue(d) as int) else DecimalValue(d)
  {
    var v;
    sign, v := SignFrom(s);
    var n := DigitRun(v);
    d := v[..n];
    assert d + v[n..] == v;
  }

  lemma ExponentFrom(s: bytes) returns (e: Option<Exponent>)
    requires ExponentPart(s).Ok?
    ensures (e.Some? ==> GoodExponent(e.value)) && s == PutExponent(e, ExponentPart(s).rest)
    ensures ExponentOf(e) == ExponentPart(s).value
  {
    if Peek(s) != 101 && Peek(s) != 69 {
      e := None;
    } else {
      var sign, d := SignedFrom(s[1..]);
      e := Some(Exponent(s[0], sign, d));
      assert s == [s[0]] + s[1..];
    }
  }

  lemma FractionFrom(s: bytes)
    requires FractionPart(s).Ok?
    ensures s == PutFraction(FractionPart(s).value, FractionPart(s).rest)
  {
    if Peek(s) == DOT {
      var u := s[1..];
      assert s == [DOT] + u && u == u[..DigitRun(u)] + u[DigitRun(u)..];
    }
  }

  lemma WholeFrom(s: bytes)
    requires IntegerPart(s).Ok?
    ensures var d := IntegerPart(s).value;
            d != [] && (d[0] == ZERO ==> |d| == 1) && s == d + IntegerPart(s).rest
  {
    var n := IntegerRun(s);
    assert s == s[..n] + s[n..];
  }

  lemma UnsignedFrom(s: bytes, negative: bool) returns (n: Numeral)
    requires Unsigned(s).Ok?
    ensures GoodNumeral(n) && n.negative == negative
    ensures s == PutUnsigned(n, Unsigned(s).rest) && Unsigned(s).value == Parsed10(n)
  {
    WholeFrom(s);
    var t := IntegerPart(s).rest;
    FractionFrom(t);
    var e := ExponentFrom(FractionPart(t).rest);
    n := Numeral(negative, IntegerPart(s).value, FractionPart(t).value, e);
  }

  lemma NumberSplits(s: bytes) returns (negative: bool, u: bytes)
    requires Number(s).Ok?
    ensures s == (if negative then [MINUS] + u else u) && Unsigned(u).Ok? && Unsigned(u).rest == Number(s).rest
    ensures Number(s).value == Num(if negative then -Unsigned(u).value else Unsigned(u).value)
  {
    if Peek(s) == MINUS {
      negative, u := true, s[1..];
      assert s == [MINUS] + s[1..];
    } else {
      negative, u := false, s;
    }
  }

  lemma NumeralFrom(s: bytes) returns (n: Numeral)
    requires Number(s).Ok?
    ensures GoodNumeral(n) && s == PutNumeral(n, Number(s).rest) && Number(s).value == Num(Amount(n))
  {
    var negative, u := NumberSplits(s);
    n := UnsignedFrom(u, negative);
    AmountOf(n, Unsigned(u).value);
  }

  lemma AmountOf(n: Numeral, x: real)
    requires GoodNumeral(n) && x == Parsed10(n)
    ensures Amount(n) == if n.negative then -x else x
  {
    AmountIs(n);
  }

  // ---- values ----

  /** The text of a tree starts with a byte that selects its production and is not a blank. */
  lemma Starts(v: Tree, t: bytes)
    requires Good(v)
    ensures var s := Put(v, t);
            && s != [] && !IsSpace(s[0]) && s[0] != RBRACKET && s[0] != RBRACE
            && (v.NullTree? <==> s[0] == 110) && (v.BoolTree? <==> s[0] == 116 || s[0] == 102)
            && (v.BoolTree? ==> (v.b <==> s[0] == 116))
            && (v.NumTree? <==> s[0] == MINUS || IsDigit(s[0])) && (v.StrTree? <==> s[0] == QUOTE)
            && (v.ArrTree? <==> s[0] == LBRACKET) && (v.ObjTree? <==> s[0] == LBRACE)
  {
    match v
    case NumTree(n) => UnsignedStarts(n, t);
    case _ =>
  }

  lemma LiteralReads(word: bytes, t: bytes, v: Value, e: ParseError)
    requires word != []
    ensures Literal(word + t, word, v, e) == Ok(v, t)
  {
    Cut(word, t);
  }

  /** A blank, comma, bracket or brace ends a number. */
  lemma BlankDelimits(a: bytes, t: bytes)
    requires Blank(a) && Delimits(t)
    ensures Delimits(a + t)
  {
    if a != [] {
      assert (a + t)[0] == a[0];
    } else {
      assert a + t == t;
    }
  }

  lemma {:induction false} Reads(v: Tree, t: bytes)
    requires Good(v) && Delimits(t)
    ensures ParseValue(Put(v, t)) == Ok(Meaning(v), t)
    decreases v, 2
  {
    Starts(v, t);
    match v
    case NullTree => LiteralReads(NULL, t, Null, ExpectedNull);
    case BoolTree(b) =>
      if b {
        LiteralReads(TRUE, t, Bool(true), ExpectedTrue);
      } else {
        LiteralReads(FALSE, t, Bool(false), ExpectedFalse);
      }
    case NumTree(n) => NumeralReads(n, t);
    case StrTree(ps) => StringReads(ps, t);
    case ArrTree(b, items) => ArrayReads(v, t);
    case ObjTree(b, fields) => ObjectReads(v, t);
  }

  lemma {:induction false} ArrayReads(v: Tree, t: bytes)
    requires Good(v) && v.ArrTree?
    ensures ParseArray(Put(v, t)) == Ok(Meaning(v), t)
    decreases v, 1
  {
    var s := Put(v, t);
    if v.items == [] {
      assert s[1..] == v.blank + ([RBRACKET] + t);
      SkipTo(v.blank, [RBRACKET] + t);
      assert ([RBRACKET] + t)[1..] == t;
    } else {
      assert s[1..] == PutItems(v.items, t);
      ItemsRead(v.items, t);
    }
  }

  lemma {:induction false} ItemsRead(l: seq<Item>, t: bytes)
    requires GoodItems(l) && l != []
    ensures var s := SkipSpaces(PutItems(l, t));
            Elements(s) == Ok(Meanings(l), t) && s != [] && s[0] != RBRACKET
    decreases l
  {
    var x := l[0];
    var tail := if |l| == 1 then [RBRACKET] + t else [COMMA] + PutItems(l[1..], t);
    var s := Put(x.tree, x.behind + tail);
    BlankDelimits(x.behind, tail);
    Reads(x.tree, x.behind + tail);
    Starts(x.tree, x.behind + tail);
    SkipTo(x.before, s);
    SkipTo(x.behind, tail);
    if |l| == 1 {
      assert tail[1..] == t;
      LastElement(s, Meaning(x.tree), x.behind + tail, t);
      assert Meanings(l) == [Meaning(x.tree)];
    } else {
      ItemsRead(l[1..], t);
      assert tail[1..] == PutItems(l[1..], t);
      MoreElements(s, Meaning(x.tree), x.behind + tail, PutItems(l[1..], t), Meanings(l[1..]), t);
    }
  }

  lemma LastElement(s: bytes, v: Value, rest: bytes, t: bytes)
    requires SkipSpaces(s) == s && ParseValue(s) == Ok(v, rest) && SkipSpaces(rest) == [RBRACKET] + t
    ensures Elements(s) == Ok([v], t)
  {
    assert ([RBRACKET] + t)[1..] == t;
  }

  lemma MoreElements(s: bytes, v: Value, rest: bytes, next: bytes, vs: seq<Value>, t: bytes)
    requires SkipSpaces(s) == s && ParseValue(s) == Ok(v, rest) && SkipSpaces(rest) == [COMMA] + next
    requires Elements(SkipSpaces(next)) == Ok(vs, t)
    ensures Elements(s) == Ok([v] + vs, t)
  {
    assert ([COMMA] + next)[1..] == next;
  }

  lemma {:induction false} ObjectReads(v: Tree, t: bytes)
    requires Good(v) && v.ObjTree?
    ensures ParseObject(Put(v, t)) == Ok(Meaning(v), t)
    decreases v, 1
  {
    var s := Put(v, t);
    if v.fields == [] {
      assert s[1..] == v.blank + ([RBRACE] + t);
      SkipTo(v.blank, [RBRACE] + t);
      assert ([RBRACE] + t)[1..] == t;
      assert Emplaced(Pairs(v.fields)) == map[];
    } else {
      assert s[1..] == PutFields(v.fields, t);
      FieldsRead(v.fields, t);
    }
  }

  /** A member: key, colon and value with blanks around them. */
  lemma {:induction false} FieldReads(x: Field, tail: bytes)
    requires GoodFields([x]) && tail != [] && !IsSpace(tail[0]) && Delimits(tail)
    ensures var s := PutString(x.key, x.colon + ([COLON] + (x.value + Put(x.tree, x.behind + tail))));
            Member(s) == Ok((Content(x.key), Meaning(x.tree)), x.behind + tail)
    decreases x, 3
  {
    var u := Put(x.tree, x.behind + tail);
    var c := x.value + u;
    BlankDelimits(x.behind, tail);
    Reads(x.tree, x.behind + tail);
    Starts(x.tree, x.behind + tail);
    SkipTo(x.value, u);
    SkipTo(x.colon, [COLON] + c);
    assert ([COLON] + c)[1..] == c;
    StringReads(x.key, x.colon + ([COLON] + c));
  }

  lemma {:induction false} FieldsRead(l: seq<Field>, t: bytes)
    requires GoodFields(l) && l != []
    ensures var s := SkipSpaces(PutFields(l, t));
            Members(s) == Ok(Emplaced(Pairs(l)), t) && s != [] && s[0] == QUOTE
    decreases l
  {
    var x := l[0];
    var tail := if |l| == 1 then [RBRACE] + t else [COMMA] + PutFields(l[1..], t);
    var s := PutString(x.key, x.colon + ([COLON] + (x.value + Put(x.tree, x.behind + tail))));
    FieldReads(x, tail);
    SkipTo(x.before, s);
    SkipTo(x.behind, tail);
    var kv := (Content(x.key), Meaning(x.tree));
    if |l| == 1 {
      LastMember(s, kv, x.behind + tail, t);
      EmplacedOne(kv);
      assert Pairs(l) == [kv];
    } else {
      FieldsRead(l[1..], t);
      MoreMembers(s, kv, x.behind + tail, PutFields(l[1..], t), Emplaced(Pairs(l[1..])), t);
      assert Pairs(l)[1..] == Pairs(l[1..]);
    }
  }

  lemma EmplacedOne(kv: (bytes, Value))
    ensures Emplaced([kv]) == map[kv.0 := kv.1]
  {
    assert [kv][1..] == [];
  }

  lemma LastMember(s: bytes, kv: (bytes, Value), rest: bytes, t: bytes)
    requires Member(s) == Ok(kv, rest) && SkipSpaces(rest) == [RBRACE] + t
    ensures Members(s) == Ok(map[kv.0 := kv.1], t)
  {
    assert ([RBRACE] + t)[1..] == t;
  }

  lemma MoreMembers(s: bytes, kv: (bytes, Value), rest: bytes, next: bytes, m: map<bytes, Value>, t: bytes)
    requires Member(s) == Ok(kv, rest) && SkipSpaces(rest) == [COMMA] + next && Members(SkipSpaces(next)) == Ok(m, t)
    ensures Members(s) == Ok(m[kv.0 := kv.1], t)
  {
    assert ([COMMA] + next)[1..] == next;
  }

  // ---- and nothing else ----

  lemma LiteralFrom(s: bytes, word: bytes, v: Value, e: ParseError)
    requires word != [] && Literal(s, word, v, e).Ok?
    ensures s == word + Literal(s, word, v, e).rest
  {
    assert s == s[..|word|] + s[|word|..];
  }

  lemma Lead<T>(s: seq<T>)
    requires s != []
    ensures s == [s[0]] + s[1..]
  {
  }

  lemma {:induction false} From(s: bytes) returns (v: Tree)
    requires ParseValue(s).Ok?
    ensures Good(v) && s == Put(v, ParseValue(s).rest) && Meaning(v) == ParseValue(s).value
    decreases |s|, 1
  {
    var c := Peek(s);
    if c == LBRACE {
      v := ObjectFrom(s);
    } else if c == LBRACKET {
      v := ArrayFrom(s);
    } else if c == QUOTE {
      var ps := StringFrom(s);
      v := StrTree(ps);
    } else if c == 116 {
      LiteralFrom(s, TRUE, Bool(true), ExpectedTrue);
      v := BoolTree(true);
    } else if c == 102 {
      LiteralFrom(s, FALSE, Bool(false), ExpectedFalse);
      v := BoolTree(false);
    } else if c == 110 {
      LiteralFrom(s, NULL, Null, ExpectedNull);
      v := NullTree;
    } else {
      var n := NumeralFrom(s);
      v := NumTree(n);
    }
  }

  lemma {:induction false} ArrayFrom(s: bytes) returns (v: Tree)
    requires s != [] && s[0] == LBRACKET && ParseArray(s).Ok?
    ensures Good(v) && s == Put(v, ParseArray(s).rest) && Meaning(v) == ParseArray(s).value
    decreases |s|, 0
  {
    var b := Skipped(s[1..]);
    var t := SkipSpaces(s[1..]);
    Lead(s);
    if Peek(t) == RBRACKET {
      Lead(t);
      v := EmptyArray(b, t[1..]);
    } else {
      var l := ItemsFrom(t);
      v := ArrayTree(s, b, l, Elements(t).rest);
    }
  }

  lemma EmptyArray(b: bytes, t: bytes) returns (v: Tree)
    requires Blank(b)
    ensures Good(v) && Put(v, t) == [LBRACKET] + (b + ([RBRACKET] + t)) && Meaning(v) == Arr([])
  {
    v := ArrTree(b, []);
  }

  lemma ArrayTree(s: bytes, b: bytes, l: seq<Item>, t: bytes) returns (v: Tree)
    requires Blank(b) && GoodItems(l) && l != [] && s == [LBRACKET] + (b + PutItems(l, t))
    ensures Good(v) && s == Put(v, t) && Meaning(v) == Arr(Meanings(l))
  {
    PrefixedItems(b, l, t);
    v := ArrTree([], Prefixed(b, l));
  }

  /** The blanks in front of a list belong to its first element. */
  function Prefixed(b: bytes, l: seq<Item>): seq<Item>
    requires l != []
  {
    [l[0].(before := b + l[0].before)] + l[1..]
  }

  lemma BlankConcat(a: bytes, b: bytes)
    requires Blank(a) && Blank(b)
    ensures Blank(a + b)
  {
  }

  lemma PrefixedItems(b: bytes, l: seq<Item>, t: bytes)
    requires Blank(b) && GoodItems(l) && l != []
    ensures var m := Prefixed(b, l);
            m != [] && GoodItems(m) && PutItems(m, t) == b + PutItems(l, t) && Meanings(m) == Meanings(l)
  {
    var m := Prefixed(b, l);
    BlankConcat(b, l[0].before);
    assert m[1..] == l[1..];
    var tail := if |l| == 1 then [RBRACKET] + t else [COMMA] + PutItems(l[1..], t);
    var u := Put(l[0].tree, l[0].behind + tail);
    assert (b + l[0].before) + u == b + (l[0].before + u);
  }

  lemma {:induction false} ItemsFrom(s: bytes) returns (l: seq<Item>)
    requires Elements(s).Ok?
    ensures l != [] && GoodItems(l) && s == PutItems(l, Elements(s).rest) && Meanings(l) == Elements(s).value
    decreases |s|, 2
  {
    var before := Skipped(s);
    var u := SkipSpaces(s);
    var v := From(u);
    var rest := ParseValue(u).rest;
    var behind := Skipped(rest);
    var t := SkipSpaces(rest);
    Lead(t);
    if t[0] == RBRACKET {
      l := [Item(before, v, behind)];
    } else {
      var b := Skipped(t[1..]);
      var more := ItemsFrom(SkipSpaces(t[1..]));
      var m := Prefixed(b, more);
      PrefixedItems(b, more, Elements(s).rest);
      l := [Item(before, v, behind)] + m;
      assert l[1..] == m;
    }
  }

  lemma {:induction false} ObjectFrom(s: bytes) returns (v: Tree)
    requires s != [] && s[0] == LBRACE && ParseObject(s).Ok?
    ensures Good(v) && s == Put(v, ParseObject(s).rest) && Meaning(v) == ParseObject(s).value
    decreases |s|, 0
  {
    var b := Skipped(s[1..]);
    var t := SkipSpaces(s[1..]);
    Lead(s);
    if Peek(t) == RBRACE {
      Lead(t);
      v := EmptyObject(b, t[1..]);
    } else {
      var l := FieldsFrom(t);
      v := ObjectTree(s, b, l, Members(t).rest);
    }
  }

  lemma EmptyObject(b: bytes, t: bytes) returns (v: Tree)
    requires Blank(b)
    ensures Good(v) && Put(v, t) == [LBRACE] + (b + ([RBRACE] + t)) && Meaning(v) == Obj(map[])
  {
    v := ObjTree(b, []);
    assert Emplaced(Pairs([])) == map[];
  }

  lemma ObjectTree(s: bytes, b: bytes, l: seq<Field>, t: bytes) returns (v: Tree)
    requires Blank(b) && GoodFields(l) && l != [] && s == [LBRACE] + (b + PutFields(l, t))
    ensures Good(v) && s == Put(v, t) && Meaning(v) == Obj(Emplaced(Pairs(l)))
  {
    PrefixedFields(b, l, t);
    v := ObjTree([], PrefixedField(b, l));
  }

  function PrefixedField(b: bytes, l: seq<Field>): seq<Field>
    requires l != []
  {
    [l[0].(before := b + l[0].before)] + l[1..]
  }

  lemma PrefixedFields(b: bytes, l: seq<Field>, t: bytes)
    requires Blank(b) && GoodFields(l) && l != []
    ensures var m := PrefixedField(b, l);
            m != [] && GoodFields(m) && PutFields(m, t) == b + PutFields(l, t) && Pairs(m) == Pairs(l)
  {
    var m, x := PrefixedField(b, l), l[0];
    BlankConcat(b, x.before);
    assert m[1..] == l[1..];
    var tail := if |l| == 1 then [RBRACE] + t else [COMMA] + PutFields(l[1..], t);
    var u := PutString(x.key, x.colon + ([COLON] + (x.value + Put(x.tree, x.behind + tail))));
    assert (b + x.before) + u == b + (x.before + u);
  }

  /** One member, up to the blanks behind its value. */
  lemma {:induction false} FieldFrom(s: bytes) returns (before: bytes, key: seq<Piece>, colon: bytes, value: bytes, v: Tree)
    requires Member(s).Ok?
    ensures Blank(before) && GoodPieces(key) && Blank(colon) && Blank(value) && Good(v)
    ensures s == before + PutString(key, colon + ([COLON] + (value + Put(v, Member(s).rest))))
    ensures Member(s).value == (Content(key), Meaning(v))
    decreases |s|, 2
  {
    before := Skipped(s);
    var t := SkipSpaces(s);
    key := StringFrom(t);
    var rest := String(t).rest;
    colon := Skipped(rest);
    var u := SkipSpaces(rest);
    Lead(u);
    value := Skipped(u[1..]);
    v := From(SkipSpaces(u[1..]));
  }

  lemma {:induction false} FieldsFrom(s: bytes) returns (l: seq<Field>)
    requires Members(s).Ok?
    ensures l != [] && GoodFields(l) && s == PutFields(l, Members(s).rest) && Emplaced(Pairs(l)) == Members(s).value
    decreases |s|, 3
  {
    var before, key, colon, value, v := FieldFrom(s);
    var rest := Member(s).rest;
    var behind := Skipped(rest);
    var t := SkipSpaces(rest);
    var x := Field(before, key, colon, value, v, behind);
    Lead(t);
    if t[0] == RBRACE {
      l := [x];
      EmplacedOne((Content(key), Meaning(v)));
      assert Pairs(l) == [(Content(key), Meaning(v))];
    } else {
      var b := Skipped(t[1..]);
      var more := FieldsFrom(SkipSpaces(t[1..]));
      l := MoreFields(x, b, more, Members(s).rest);
    }
  }

  lemma MoreFields(x: Field, b: bytes, more: seq<Field>, t: bytes) returns (l: seq<Field>)
    requires GoodFields([x]) && Blank(b) && GoodFields(more) && more != []
    ensures l != [] && GoodFields(l) && PutFields(l, t) == PutField(x, [COMMA] + (b + PutFields(more, t)))
    ensures Emplaced(Pairs(l)) == Emplaced(Pairs(more))[Content(x.key) := Meaning(x.tree)]
  {
    var m := PrefixedField(b, more);
    PrefixedFields(b, more, t);
    l := [x] + m;
    assert l[1..] == m;
    assert Pairs(l)[1..] == Pairs(m);
  }

  // ---- the main result ----

  /** A text written for a value: a tree that means it, with blanks around. */
  ghost predicate Writes(s: bytes, v: Value) {
    exists a, t, b :: Blank(a) && Good(t) && Blank(b) && s == a + Put(t, b) && Meaning(t) == v
  }

  lemma ReadsWhole(a: bytes, v: Tree, b: bytes)
    requires Blank(a) && Good(v) && Blank(b)
    ensures Parse(a + Put(v, b)) == Ok(Meaning(v), [])
  {
    assert b + [] == b;
    BlankDelimits(b, []);
    Reads(v, b);
    Starts(v, b);
    SkipTo(a, Put(v, b));
    SkipBlank(b, []);
  }

  /** The parser accepts a text as v if and only if the text is written for v. */
  lemma ParsesIff(s: bytes, v: Value)
    ensures Parse(s) == Ok(v, []) <==> Writes(s, v)
  {
    if Parse(s) == Ok(v, []) {
      var a := Skipped(s);
      var t := From(SkipSpaces(s));
      var b := Skipped(ParseValue(SkipSpaces(s)).rest);
      assert b + [] == b;
      assert s == a + Put(t, b);
    }
    if Writes(s, v) {
      var a, t, b :| Blank(a) && Good(t) && Blank(b) && s == a + Put(t, b) && Meaning(t) == v;
      ReadsWhole(a, t, b);
    }
  }
}
