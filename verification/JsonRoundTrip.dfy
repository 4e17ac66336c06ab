/** Parsing undoes printing: printed text is the text of a plain syntax tree. */
module JsonRoundTrip {
  import opened Bytes
  import opened JsonValues
  import opened JsonNumbers
  import opened JsonPrinter
  import opened JsonGrammar
  import opened JsonSyntax
  import opened JsonReading

  /** The value with every number replaced by what six decimals keep of it. */
  function Settled(v: Value): Value
    decreases v
  {
    match v
    case Num(x) => Num(SixDecimals(x))
    case Arr(a) => Arr(seq(|a|, i requires 0 <= i < |a| => Settled(a[i])))
    case Obj(m) => Obj(map k | k in m :: Settled(m[k]))
    case _ => v
  }

  /** Every number in the value is a multiple of a millionth. */
  ghost predicate AllSixDecimal(v: Value)
    decreases v
  {
    match v
    case Num(x) => IsSixDecimal(x)
    case Arr(a) => forall i :: 0 <= i < |a| ==> AllSixDecimal(a[i])
    case Obj(m) => forall k :: k in m ==> AllSixDecimal(m[k])
    case _ => true
  }

  lemma {:induction false} SettledIff(v: Value)
    ensures Settled(v) == v <==> AllSixDecimal(v)
    decreases v
  {
    match v
    case Num(x) => SixDecimalsExact(x);
    case Arr(a) =>
      forall i | 0 <= i < |a| ensures Settled(a[i]) == a[i] <==> AllSixDecimal(a[i]) {
        SettledIff(a[i]);
      }
      var b := Settled(v).items;
      if AllSixDecimal(v) {
        assert b == a;
      } else {
        var i :| 0 <= i < |a| && !AllSixDecimal(a[i]);
        assert b[i] != a[i];
      }
    case Obj(m) =>
      forall k | k in m ensures Settled(m[k]) == m[k] <==> AllSixDecimal(m[k]) {
        SettledIff(m[k]);
      }
      var n := Settled(v).fields;
      if AllSixDecimal(v) {
        assert n == m;
      } else {
        var k :| k in m && !AllSixDecimal(m[k]);
        assert n[k] != m[k];
      }
    case _ =>
  }

  // ---- the tree the printer writes ----

  function PlainPiece(c: byte): Piece {
    if c == 34 || c == 92 then Short(c)
    else if c == 8 then Short(98)
    else if c == 12 then Short(102)
    else if c == 10 then Short(110)
    else if c == 13 then Short(114)
    else if c == 9 then Short(116)
    else if c < 0x20 then Code(48, 48, HexDigit(c / 16), HexDigit(c % 16))
    else Raw(c)
  }

  function PlainPieces(s: bytes): seq<Piece> {
    if s == [] then [] else [PlainPiece(s[0])] + PlainPieces(s[1..])
  }

  function PlainNumeral(x: real): Numeral {
    Numeral(x < 0.0, Decimal(Micros(x) / MILLION), Fraction(x), None)
  }

  function Plain(v: Value): Tree
    decreases v
  {
    match v
    case Null => NullTree
    case Bool(b) => BoolTree(b)
    case Num(x) => NumTree(PlainNumeral(x))
    case Str(s) => StrTree(PlainPieces(s))
    case Arr(_) => ArrTree([], PlainItems(v, 0))
    case Obj(m) =>
      SortedKeysSpec(m.Keys);
      ObjTree([], PlainFields(v, SortedKeys(m.Keys), 0))
  }

  function PlainItems(v: Value, i: nat): (l: seq<Item>)
    requires v.Arr? && i <= |v.items|
    ensures |l| == |v.items| - i
    decreases v, |v.items| - i
  {
    if i == |v.items| then [] else [Item([], Plain(v.items[i]), [])] + PlainItems(v, i + 1)
  }

  function PlainFields(v: Value, keys: seq<bytes>, i: nat): (l: seq<Field>)
    requires v.Obj? && i <= |keys| && forall k :: k in keys ==> k in v.fields
    ensures |l| == |keys| - i
    decreases v, |keys| - i
  {
    if i == |keys| then []
    else [Field([], PlainPieces(keys[i]), [], [], Plain(v.fields[keys[i]]), [])] + PlainFields(v, keys, i + 1)
  }

  // ---- its text ----

  lemma {:induction false} EscapedText(s: bytes, t: bytes)
    ensures Escaped(s) + t == PutPieces(PlainPieces(s), t)
  {
    if s == [] {
      assert Escaped(s) + t == t;
    } else {
      EscapedText(s[1..], t);
      Regroup(Escape(s[0]), Escaped(s[1..]), t);
      assert PlainPieces(s)[1..] == PlainPieces(s[1..]);
    }
  }

  lemma QuotedText(s: bytes, t: bytes)
    ensures Quoted(s) + t == PutString(PlainPieces(s), t)
  {
    EscapedText(s, [QUOTE] + t);
    Regroup([QUOTE] + Escaped(s), [QUOTE], t);
    Regroup([QUOTE], Escaped(s), [QUOTE] + t);
  }

  lemma NumberTextIs(x: real, t: bytes)
    ensures NumberText(x) + t == PutNumeral(PlainNumeral(x), t)
  {
    var d, f := Decimal(Micros(x) / MILLION), Fraction(x);
    var g := if f == [] then [] else [DOT] + f;
    Regroup(Sign(x) + d, g, t);
    Regroup(Sign(x), d, g + t);
    assert g + t == PutFraction(f, t);
  }

  lemma {:induction false} TextIs(v: Value, t: bytes)
    ensures Text(v) + t == Put(Plain(v), t)
    decreases v, 2
  {
    match v
    case Num(x) => NumberTextIs(x, t);
    case Str(s) => QuotedText(s, t);
    case Arr(_) => ArrayTextIs(v, t);
    case Obj(_) => ObjectTextIs(v, t);
    case _ =>
  }

  /** Sequences in a row, the last ones known in another form. */
  lemma Chain(c: bytes, a: bytes, r: bytes, e: bytes, m: bytes, q: bytes)
    requires r + e == m && a + m == q
    ensures (c + (a + r)) + e == c + q
  {
  }

  lemma Around(open: byte, a: bytes, close: byte, t: bytes)
    ensures ([open] + a + [close]) + t == ([open] + a) + ([close] + t)
  {
  }

  function ItemsEnd(v: Value, i: nat, t: bytes): bytes
    requires v.Arr? && i <= |v.items|
  {
    if i == |v.items| then [RBRACKET] + t else [COMMA] + PutItems(PlainItems(v, i), t)
  }

  lemma {:induction false} ArrayTextIs(v: Value, t: bytes)
    requires v.Arr?
    ensures Text(v) + t == Put(Plain(v), t)
    decreases v, 1
  {
    Around(LBRACKET, ItemsText(v, 0), RBRACKET, t);
    if v.items == [] {
      assert ([LBRACKET] + []) + ([RBRACKET] + t) == [LBRACKET] + ([] + ([RBRACKET] + t));
    } else {
      ItemsTextIs(v, 1, t);
      ItemTextIs(v, 0, t);
      assert [] + (Text(v.items[0]) + ItemsText(v, 1)) == Text(v.items[0]) + ItemsText(v, 1);
      Chain([LBRACKET], Text(v.items[0]), ItemsText(v, 1), [RBRACKET] + t, ItemsEnd(v, 1, t), PutItems(PlainItems(v, 0), t));
    }
  }

  lemma {:induction false} ItemTextIs(v: Value, i: nat, t: bytes)
    requires v.Arr? && i < |v.items|
    ensures Text(v.items[i]) + ItemsEnd(v, i + 1, t) == PutItems(PlainItems(v, i), t)
    decreases v, 0, |v.items| - i, 0
  {
    var x, m := v.items[i], ItemsEnd(v, i + 1, t);
    TextIs(x, m);
    PutItemsCons(Item([], Plain(x), []), PlainItems(v, i + 1), t);
    assert [] + m == m;
  }

  lemma {:induction false} ItemsTextIs(v: Value, i: nat, t: bytes)
    requires v.Arr? && 1 <= i <= |v.items|
    ensures ItemsText(v, i) + ([RBRACKET] + t) == ItemsEnd(v, i, t)
    decreases v, 0, |v.items| - i, 1
  {
    if i < |v.items| {
      ItemsTextIs(v, i + 1, t);
      ItemTextIs(v, i, t);
      Chain([COMMA], Text(v.items[i]), ItemsText(v, i + 1), [RBRACKET] + t, ItemsEnd(v, i + 1, t), PutItems(PlainItems(v, i), t));
    }
  }

  ghost predicate KeysOf(v: Value, keys: seq<bytes>) {
    v.Obj? && forall k :: k in keys ==> k in v.fields
  }

  function FieldsEnd(v: Value, keys: seq<bytes>, i: nat, t: bytes): bytes
    requires KeysOf(v, keys) && i <= |keys|
  {
    if i == |keys| then [RBRACE] + t else [COMMA] + PutFields(PlainFields(v, keys, i), t)
  }

  lemma {:induction false} ObjectTextIs(v: Value, t: bytes)
    requires v.Obj?
    ensures Text(v) + t == Put(Plain(v), t)
    decreases v, 1
  {
    var keys := SortedKeys(v.fields.Keys);
    SortedKeysSpec(v.fields.Keys);
    Around(LBRACE, FieldsText(v, keys, 0), RBRACE, t);
    if keys == [] {
      assert ([LBRACE] + []) + ([RBRACE] + t) == [LBRACE] + ([] + ([RBRACE] + t));
    } else {
      FieldsTextIs(v, keys, 1, t);
      FieldTextIs(v, keys, 0, t);
      assert [] + (FieldText(v, keys[0]) + FieldsText(v, keys, 1)) == FieldText(v, keys[0]) + FieldsText(v, keys, 1);
      Chain([LBRACE], FieldText(v, keys[0]), FieldsText(v, keys, 1), [RBRACE] + t, FieldsEnd(v, keys, 1, t),
            PutFields(PlainFields(v, keys, 0), t));
    }
  }

  lemma KeyTextIs(v: Value, k: bytes, m: bytes)
    requires v.Obj? && k in v.fields && Text(v.fields[k]) + m == Put(Plain(v.fields[k]), m)
    ensures FieldText(v, k) + m == PutField(Field([], PlainPieces(k), [], [], Plain(v.fields[k]), []), m)
  {
    var x := Text(v.fields[k]);
    QuotedText(k, [COLON] + (x + m));
    assert (Quoted(k) + ([COLON] + x)) + m == Quoted(k) + ([COLON] + (x + m));
    assert [] + m == m && [] + (x + m) == x + m && [] + ([COLON] + (x + m)) == [COLON] + (x + m);
  }

  lemma {:induction false} FieldTextIs(v: Value, keys: seq<bytes>, i: nat, t: bytes)
    requires KeysOf(v, keys) && i < |keys|
    ensures FieldText(v, keys[i]) + FieldsEnd(v, keys, i + 1, t) == PutFields(PlainFields(v, keys, i), t)
    decreases v, 0, |keys| - i, 0
  {
    var k, m := keys[i], FieldsEnd(v, keys, i + 1, t);
    TextIs(v.fields[k], m);
    KeyTextIs(v, k, m);
    PutFieldsCons(Field([], PlainPieces(k), [], [], Plain(v.fields[k]), []), PlainFields(v, keys, i + 1), t);
  }

  lemma {:induction false} FieldsTextIs(v: Value, keys: seq<bytes>, i: nat, t: bytes)
    requires KeysOf(v, keys) && 1 <= i <= |keys|
    ensures FieldsText(v, keys, i) + ([RBRACE] + t) == FieldsEnd(v, keys, i, t)
    decreases v, 0, |keys| - i, 1
  {
    if i < |keys| {
      FieldsTextIs(v, keys, i + 1, t);
      FieldTextIs(v, keys, i, t);
      Chain([COMMA], FieldText(v, keys[i]), FieldsText(v, keys, i + 1), [RBRACE] + t, FieldsEnd(v, keys, i + 1, t),
            PutFields(PlainFields(v, keys, i), t));
    }
  }

  // ---- and its meaning ----

  lemma PlainPieceMeans(c: byte)
    ensures GoodPiece(PlainPiece(c)) && PieceContent(PlainPiece(c)) == [c]
  {
  }

  lemma {:induction false} PlainPiecesMean(s: bytes)
    ensures GoodPieces(PlainPieces(s)) && Content(PlainPieces(s)) == s
  {
    if s != [] {
      PlainPieceMeans(s[0]);
      PlainPiecesMean(s[1..]);
      assert PlainPieces(s)[1..] == PlainPieces(s[1..]);
      assert [s[0]] + s[1..] == s;
    }
  }

  lemma PlainNumeralMeans(x: real)
    ensures GoodNumeral(PlainNumeral(x)) && Amount(PlainNumeral(x)) == SixDecimals(x)
  {
    var n := PlainNumeral(x);
    TextDenotes(x);
    ScaledIs(n.whole, n.fraction);
    assert Size(n) == Magnitude(SixDecimals(x));
    assert Micros(x) as real / MILLION as real >= 0.0;
  }

  lemma {:induction false} PlainMeans(v: Value)
    ensures Good(Plain(v)) && Meaning(Plain(v)) == Settled(v)
    decreases v, 1
  {
    match v
    case Num(x) => PlainNumeralMeans(x);
    case Str(s) => PlainPiecesMean(s);
    case Arr(a) =>
      PlainItemsMean(v, 0);
      assert Settled(v).items[0..] == Settled(v).items;
    case Obj(m) =>
      var keys := SortedKeys(m.Keys);
      SortedKeysSpec(m.Keys);
      PlainFieldsMean(v, keys, 0);
      assert keys[0..] == keys;
      assert Emplaced(Pairs(PlainFields(v, keys, 0))) == Settled(v).fields;
    case _ =>
  }

  lemma {:induction false} PlainItemsMean(v: Value, i: nat)
    requires v.Arr? && i <= |v.items|
    ensures GoodItems(PlainItems(v, i)) && Meanings(PlainItems(v, i)) == Settled(v).items[i..]
    decreases v, 0, |v.items| - i
  {
    if i < |v.items| {
      var l := PlainItems(v, i);
      PlainMeans(v.items[i]);
      PlainItemsMean(v, i + 1);
      assert l[1..] == PlainItems(v, i + 1);
      assert Settled(v).items[i..] == [Settled(v.items[i])] + Settled(v).items[i + 1..];
    }
  }

  lemma EmplacedCons(kv: (bytes, Value), l: seq<(bytes, Value)>)
    ensures Emplaced([kv] + l) == Emplaced(l)[kv.0 := kv.1]
  {
    assert ([kv] + l)[1..] == l;
  }

  lemma {:induction false} PlainFieldsMean(v: Value, keys: seq<bytes>, i: nat)
    requires v.Obj? && i <= |keys| && forall k :: k in keys ==> k in v.fields
    ensures var l := PlainFields(v, keys, i);
            && GoodFields(l)
            && (forall k :: k in Emplaced(Pairs(l)) <==> k in keys[i..])
            && (forall k :: k in Emplaced(Pairs(l)) ==> Emplaced(Pairs(l))[k] == Settled(v.fields[k]))
    decreases v, 0, |keys| - i
  {
    if i < |keys| {
      var l, k := PlainFields(v, keys, i), keys[i];
      PlainMeans(v.fields[k]);
      PlainPiecesMean(k);
      PlainFieldsMean(v, keys, i + 1);
      assert l[1..] == PlainFields(v, keys, i + 1);
      EmplacedCons((k, Settled(v.fields[k])), Pairs(l[1..]));
      assert keys[i..] == [k] + keys[i + 1..];
    }
  }

  /** Printed strings are strict: no control byte stands for itself. */
  lemma {:induction false} PrintedStrict(s: bytes)
    ensures forall i :: 0 <= i < |Quoted(s)| ==> Quoted(s)[i] >= 0x20
  {
    if s != [] {
      PrintedStrict(s[1..]);
      var e := Escaped(s[1..]);
      assert forall i :: 0 <= i < |e| ==> e[i] == Quoted(s[1..])[i + 1];
    }
  }

  /** Parsing printed text, blanks around it allowed, gives the value with its numbers rounded to
      six decimals. */
  lemma ParsePrinted(v: Value, before: bytes, behind: bytes)
    requires Blank(before) && Blank(behind)
    ensures Parse(before + (Text(v) + behind)) == Ok(Settled(v), [])
  {
    TextIs(v, behind);
    PlainMeans(v);
    ReadsWhole(before, Plain(v), behind);
  }

  /** The round trip holds exactly for values whose numbers are multiples of a millionth. */
  lemma RoundTripIff(v: Value)
    ensures Parse(Text(v)) == Ok(v, []) <==> AllSixDecimal(v)
  {
    ParsePrinted(v, [], []);
    assert [] + (Text(v) + []) == Text(v);
    SettledIff(v);
  }

  /** Different values print differently. */
  lemma PrintingInjective(v: Value, w: Value)
    requires AllSixDecimal(v) && AllSixDecimal(w) && Text(v) == Text(w)
    ensures v == w
  {
    RoundTripIff(v);
    RoundTripIff(w);
  }

  /** The text does not depend on the order in which keys were inserted. */
  lemma PrintingIgnoresInsertionOrder(p: seq<(bytes, Value)>, q: seq<(bytes, Value)>)
    requires multiset(p) == multiset(q)
    requires forall a, b :: 0 <= a < b < |p| ==> p[a].0 != p[b].0
    requires forall a, b :: 0 <= a < b < |q| ==> q[a].0 != q[b].0
    ensures Text(Obj(Emplaced(p))) == Text(Obj(Emplaced(q)))
  {
    InsertionOrder(p, q);
  }
}
