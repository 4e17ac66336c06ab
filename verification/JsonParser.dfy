/** The Parser object: a cursor moved over the text by loops and mutual recursion. Every method
    computes its grammar function, raises where that function errs, and keeps the cursor inside
    the text. */
module JsonParser {
  import opened Bytes
  import opened JsonValues
  import opened JsonNumbers
  import opened JsonPrinter
  import opened JsonGrammar
  import opened JsonReading

  /** A return value, or a thrown ParseError. */
  datatype Result<+T> = Return(value: T) | Raise(error: ParseError)

  /** A method result and the text left agree with the grammar. */
  ghost predicate Agrees<T>(spec: Parsed<T>, r: Result<T>, rest: bytes) {
    match spec
    case Ok(v, u) => r == Return(v) && rest == u
    case Err(e) => r == Raise(e)
  }

  class Parser {
    const s: bytes
    var i: nat

    ghost predicate Valid()
      reads this
    {
      i <= |s|
    }

    ghost function Rest(): bytes
      requires Valid()
      reads this
    {
      s[i..]
    }

    constructor (text: bytes)
      ensures Valid() && s == text && i == 0
    {
      s, i := text, 0;
    }

    method SkipWs()
      requires Valid()
      modifies this
      ensures Valid() && i >= old(i) && Rest() == SkipSpaces(old(Rest()))
    {
      while i < |s| && IsSpace(s[i])
        invariant Valid() && i >= old(i)
        invariant SkipSpaces(Rest()) == SkipSpaces(old(Rest()))
      {
        assert s[i..][1..] == s[i + 1..];
        i := i + 1;
      }
    }

    method PeekChar() returns (c: byte)
      requires Valid()
      ensures c == Peek(Rest())
    {
      if i >= |s| {
        return 0;
      }
      return s[i];
    }

    method Get() returns (r: Result<byte>)
      requires Valid()
      modifies this
      ensures Valid() && i >= old(i)
      ensures old(Rest()) == [] ==> r == Raise(UnexpectedEnd) && i == old(i)
      ensures old(Rest()) != [] ==> r == Return(old(Rest())[0]) && Rest() == old(Rest())[1..] && i == old(i) + 1
    {
      if i >= |s| {
        return Raise(UnexpectedEnd);
      }
      r := Return(s[i]);
      assert s[i..][1..] == s[i + 1..];
      i := i + 1;
    }

    // ---- strings ----

    method ParseUnicode() returns (r: Result<bytes>)
      requires Valid()
      modifies this
      ensures Valid() && i >= old(i) && Agrees(Unicode(old(Rest())), r, Rest())
    {
      var c1 := Get();
      if c1.Raise? { return Raise(c1.error); }
      var c2 := Get();
      if c2.Raise? { return Raise(c2.error); }
      var c3 := Get();
      if c3.Raise? { return Raise(c3.error); }
      var c4 := Get();
      if c4.Raise? { return Raise(c4.error); }
      var h1, h2, h3, h4 := HexValue(c1.value), HexValue(c2.value), HexValue(c3.value), HexValue(c4.value);
      if h1 < 0 || h2 < 0 || h3 < 0 || h4 < 0 {
        return Raise(BadUnicodeEscape);
      }
      r := Return(Utf8(h1 * 4096 + h2 * 256 + h3 * 16 + h4));
    }

    method ParseEscape() returns (r: Result<bytes>)
      requires Valid()
      modifies this
      ensures Valid() && i >= old(i) && Agrees(EscapeSequence(old(Rest())), r, Rest())
    {
      var e := Get();
      if e.Raise? { return Raise(e.error); }
      if e.value == 117 {
        r := ParseUnicode();
      } else {
        match Unescape(e.value)
        case Some(c) => r := Return([c]);
        case None => r := Raise(BadEscape);
      }
    }

    method ParseString() returns (r: Result<bytes>)
      requires Valid()
      modifies this
      ensures Valid() && i >= old(i) && Agrees(String(old(Rest())), r, Rest())
      ensures r.Return? ==> i > old(i)
    {
      var out: bytes := [];
      var q := Get();
      if q.Raise? { return Raise(q.error); }
      if q.value != QUOTE { return Raise(ExpectedQuote); }
      ghost var start := Rest();
      PrependNothing(Characters(start));
      while true
        invariant Valid() && i > old(i)
        invariant Prepend(out, Characters(Rest())) == Characters(start)
        decreases |s| - i
      {
        ghost var here := Rest();
        var c := Get();
        if c.Raise? { return Raise(c.error); }
        if c.value == QUOTE {
          break;
        }
        if c.value == BACKSLASH {
          var e := ParseEscape();
          if e.Raise? { return Raise(e.error); }
          PrependTwice(out, e.value, Characters(Rest()));
          out := out + e.value;
        } else {
          PrependTwice(out, [c.value], Characters(Rest()));
          out := out + [c.value];
        }
      }
      r := Return(out);
      assert out + [] == out;
    }

    // ---- numbers ----

    method SkipDigits() returns (d: bytes)
      requires Valid()
      modifies this
      ensures Valid() && i == old(i) + DigitRun(old(Rest()))
      ensures d == old(Rest())[..DigitRun(old(Rest()))] && Rest() == old(Rest())[DigitRun(old(Rest()))..]
    {
      var start := i;
      while i < |s| && IsDigit(s[i])
        invariant start <= i <= |s|
        invariant i - start + DigitRun(Rest()) == DigitRun(old(Rest()))
      {
        assert s[i..][1..] == s[i + 1..];
        i := i + 1;
      }
      d := s[start..i];
    }

    method ParseFraction() returns (r: Result<bytes>)
      requires Valid()
      modifies this
      ensures Valid() && i >= old(i) && Agrees(FractionPart(old(Rest())), r, Rest())
    {
      var c := PeekChar();
      if c != DOT {
        return Return([]);
      }
      var _ := Get();
      c := PeekChar();
      if !IsDigit(c) {
        return Raise(BadNumber);
      }
      var d := SkipDigits();
      r := Return(d);
    }

    method ParseSignedDigits() returns (r: Result<int>)
      requires Valid()
      modifies this
      ensures Valid() && i >= old(i) && Agrees(SignedDigits(old(Rest())), r, Rest())
    {
      var sign := PeekChar();
      if sign == PLUS || sign == MINUS {
        var _ := Get();
      }
      var c := PeekChar();
      if !IsDigit(c) {
        return Raise(BadNumber);
      }
      var d := SkipDigits();
      var e: int := DecimalValue(d);
      r := Return(if sign == MINUS then -e else e);
    }

    method ParseExponent() returns (r: Result<int>)
      requires Valid()
      modifies this
      ensures Valid() && i >= old(i) && Agrees(ExponentPart(old(Rest())), r, Rest())
    {
      var c := PeekChar();
      if c != 101 && c != 69 {
        return Return(0);
      }
      var _ := Get();
      r := ParseSignedDigits();
    }

    method ParseInteger() returns (r: Result<bytes>)
      requires Valid()
      modifies this
      ensures Valid() && i >= old(i) && Agrees(IntegerPart(old(Rest())), r, Rest())
    {
      var c := PeekChar();
      if c == ZERO {
        var _ := Get();
        assert old(Rest())[..1] == [ZERO];
        return Return([ZERO]);
      }
      if !IsDigit(c) {
        return Raise(BadNumber);
      }
      var d := SkipDigits();
      r := Return(d);
    }

    method ParseUnsigned() returns (r: Result<real>)
      requires Valid()
      modifies this
      ensures Valid() && i >= old(i) && Agrees(Unsigned(old(Rest())), r, Rest())
    {
      var d := ParseInteger();
      if d.Raise? { return Raise(d.error); }
      var f := ParseFraction();
      if f.Raise? { return Raise(f.error); }
      var e := ParseExponent();
      if e.Raise? { return Raise(e.error); }
      r := Return(TimesPow10(Scaled(d.value, f.value), e.value));
    }

    method ParseNumber() returns (r: Result<Value>)
      requires Valid()
      modifies this
      ensures Valid() && i >= old(i) && Agrees(Number(old(Rest())), r, Rest())
    {
      var sign := PeekChar();
      if sign == MINUS {
        var _ := Get();
      }
      var x := ParseUnsigned();
      if x.Raise? { return Raise(x.error); }
      r := Return(Num(if sign == MINUS then -x.value else x.value));
    }

    // ---- values ----

    method ParseLiteral(word: bytes, v: Value, e: ParseError) returns (r: Result<Value>)
      requires Valid() && word != []
      modifies this
      ensures Valid() && i >= old(i) && Agrees(Literal(old(Rest()), word, v, e), r, Rest())
    {
      if |s| - i < |word| || s[i..i + |word|] != word {
        assert |s[i..]| < |word| || s[i..][..|word|] == s[i..i + |word|];
        return Raise(e);
      }
      assert s[i..][..|word|] == s[i..i + |word|];
      assert s[i..][|word|..] == s[i + |word|..];
      i := i + |word|;
      r := Return(v);
    }

    method ParseAny() returns (r: Result<Value>)
      requires Valid()
      modifies this
      ensures Valid() && i >= old(i) && Agrees(ParseValue(old(Rest())), r, Rest())
      ensures r.Return? ==> i > old(i)
      decreases |s| - i, 1
    {
      var c := PeekChar();
      if c == LBRACE {
        r := ParseObjectBody();
      } else if c == LBRACKET {
        r := ParseArrayBody();
      } else if c == QUOTE {
        var b := ParseString();
        r := if b.Raise? then Raise(b.error) else Return(Str(b.value));
      } else if c == 116 {
        r := ParseLiteral(TRUE, Bool(true), ExpectedTrue);
      } else if c == 102 {
        r := ParseLiteral(FALSE, Bool(false), ExpectedFalse);
      } else if c == 110 {
        r := ParseLiteral(NULL, Null, ExpectedNull);
      } else if c == MINUS || IsDigit(c) {
        r := ParseNumber();
      } else {
        r := Raise(InvalidValue);
      }
      assert r.Return? ==> |Rest()| < |old(Rest())|;
    }

    method ParseArrayBody() returns (r: Result<Value>)
      requires Valid() && Rest() != []
      modifies this
      ensures Valid() && i >= old(i) && Agrees(ParseArray(old(Rest())), r, Rest())
      decreases |s| - i, 0
    {
      var arr: seq<Value> := [];
      var _ := Get();
      SkipWs();
      var p := PeekChar();
      if p == RBRACKET {
        var _ := Get();
        return Return(Arr(arr));
      }
      ghost var start := Rest();
      AppendNothing(Elements(start));
      while true
        invariant Valid() && i > old(i)
        invariant Appended(arr, Elements(Rest())) == Elements(start)
        decreases |s| - i
      {
        SkipWs();
        var v := ParseAny();
        if v.Raise? { return Raise(v.error); }
        SkipWs();
        var c := Get();
        if c.Raise? { return Raise(c.error); }
        if c.value == RBRACKET {
          arr := arr + [v.value];
          break;
        }
        if c.value != COMMA { return Raise(ExpectedCommaOrBracket); }
        SkipWs();
        AppendTwice(arr, v.value, Elements(Rest()));
        arr := arr + [v.value];
      }
      r := Return(Arr(arr));
    }

    method ParseMember() returns (r: Result<(bytes, Value)>)
      requires Valid()
      modifies this
      ensures Valid() && i >= old(i) && Agrees(Member(old(Rest())), r, Rest())
      ensures r.Return? ==> i > old(i)
      decreases |s| - i, 2
    {
      SkipWs();
      var q := PeekChar();
      if q != QUOTE { return Raise(ExpectedKey); }
      var key := ParseString();
      if key.Raise? { return Raise(key.error); }
      SkipWs();
      var c := Get();
      if c.Raise? { return Raise(c.error); }
      if c.value != COLON { return Raise(ExpectedColon); }
      SkipWs();
      var v := ParseAny();
      if v.Raise? { return Raise(v.error); }
      r := Return((key.value, v.value));
    }

    method ParseObjectBody() returns (r: Result<Value>)
      requires Valid() && Rest() != []
      modifies this
      ensures Valid() && i >= old(i) && Agrees(ParseObject(old(Rest())), r, Rest())
      decreases |s| - i, 0
    {
      var obj: map<bytes, Value> := map[];
      var _ := Get();
      SkipWs();
      var p := PeekChar();
      if p == RBRACE {
        var _ := Get();
        return Return(Obj(obj));
      }
      ghost var start := Rest();
      MergeNothing(Members(start));
      while true
        invariant Valid() && i > old(i)
        invariant Merged(obj, Members(Rest())) == Members(start)
        decreases |s| - i
      {
        var kv := ParseMember();
        if kv.Raise? { return Raise(kv.error); }
        SkipWs();
        var c := Get();
        if c.Raise? { return Raise(c.error); }
        if c.value == RBRACE {
          EmplaceLast(obj, kv.value);
          obj := Emplace(obj, kv.value);
          break;
        }
        if c.value != COMMA { return Raise(ExpectedCommaOrBrace); }
        SkipWs();
        MergeTwice(obj, kv.value, Members(Rest()));
        obj := Emplace(obj, kv.value);
      }
      r := Return(Obj(obj));
    }

    /** parse: total, and the cursor never passes the end. */
    method Run() returns (r: Result<Value>)
      requires Valid() && i == 0
      modifies this
      ensures Valid() && Agrees(Parse(s), r, [])
      ensures r.Return? ==> Writes(s, r.value)
      ensures r.Raise? ==> forall v :: !Writes(s, v)
    {
      assert s[0..] == s;
      forall v ensures Parse(s) == Ok(v, []) <==> Writes(s, v) {
        ParsesIff(s, v);
      }
      SkipWs();
      r := ParseAny();
      if r.Raise? { return; }
      SkipWs();
      if i != |s| {
        return Raise(TrailingCharacters);
      }
    }
  }

  // ---- the accumulators against the grammar ----

  lemma PrependNothing(r: Parsed<bytes>)
    ensures Prepend([], r) == r
  {
    if r.Ok? { assert [] + r.value == r.value; }
  }

  lemma PrependTwice(a: bytes, b: bytes, r: Parsed<bytes>)
    ensures Prepend(a, Prepend(b, r)) == Prepend(a + b, r)
  {
    if r.Ok? { assert a + (b + r.value) == (a + b) + r.value; }
  }

  ghost function Appended(vs: seq<Value>, r: Parsed<seq<Value>>): Parsed<seq<Value>> {
    match r case Err(e) => Err(e) case Ok(ws, rest) => Ok(vs + ws, rest)
  }

  lemma AppendNothing(r: Parsed<seq<Value>>)
    ensures Appended([], r) == r
  {
    if r.Ok? { assert [] + r.value == r.value; }
  }

  lemma AppendTwice(vs: seq<Value>, v: Value, r: Parsed<seq<Value>>)
    ensures r.Ok? ==> vs + ([v] + r.value) == (vs + [v]) + r.value
  {
  }

  /** map::emplace. */
  function Emplace(m: map<bytes, Value>, kv: (bytes, Value)): map<bytes, Value> {
    if kv.0 in m then m else m[kv.0 := kv.1]
  }

  /** Fields already read win over fields read later. */
  ghost function Merged(m: map<bytes, Value>, r: Parsed<map<bytes, Value>>): Parsed<map<bytes, Value>> {
    match r case Err(e) => Err(e) case Ok(n, rest) => Ok(n + m, rest)
  }

  lemma MergeNothing(r: Parsed<map<bytes, Value>>)
    ensures Merged(map[], r) == r
  {
    if r.Ok? { assert r.value + map[] == r.value; }
  }

  lemma MergeTwice(m: map<bytes, Value>, kv: (bytes, Value), r: Parsed<map<bytes, Value>>)
    ensures r.Ok? ==> r.value[kv.0 := kv.1] + m == r.value + Emplace(m, kv)
  {
  }

  lemma EmplaceLast(m: map<bytes, Value>, kv: (bytes, Value))
    ensures map[kv.0 := kv.1] + m == Emplace(m, kv)
  {
  }
}
