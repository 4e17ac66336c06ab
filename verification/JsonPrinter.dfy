/** dump_string, dump_arr, dump_obj, dump and dumps. */
module JsonPrinter {
  import opened Bytes
  import opened JsonValues
  import opened JsonNumbers

  const QUOTE: byte := 34     // '"'
  const BACKSLASH: byte := 92
  const COMMA: byte := 44
  const COLON: byte := 58
  const LBRACKET: byte := 91
  const RBRACKET: byte := 93
  const LBRACE: byte := 123
  const RBRACE: byte := 125

  const TRUE: bytes := [116, 114, 117, 101]
  const FALSE: bytes := [102, 97, 108, 115, 101]
  const NULL: bytes := [110, 117, 108, 108]

  // ---- what is written ----

  function HexDigit(d: nat): byte
    requires d < 16
  {
    if d < 10 then 48 + d else 87 + d // '0'.. and 'a'..
  }

  function Escape(c: byte): (e: bytes)
    ensures e != []
  {
    if c == QUOTE then [BACKSLASH, QUOTE]
    else if c == BACKSLASH then [BACKSLASH, BACKSLASH]
    else if c == 8 then [BACKSLASH, 98]
    else if c == 12 then [BACKSLASH, 102]
    else if c == 10 then [BACKSLASH, 110]
    else if c == 13 then [BACKSLASH, 114]
    else if c == 9 then [BACKSLASH, 116]
    else if c < 0x20 then [BACKSLASH, 117, 48, 48, HexDigit(c / 16), HexDigit(c % 16)]
    else [c]
  }

  function Escaped(s: bytes): bytes {
    if s == [] then [] else Escape(s[0]) + Escaped(s[1..])
  }

  function Quoted(s: bytes): bytes {
    [QUOTE] + Escaped(s) + [QUOTE]
  }

  function Text(v: Value): bytes
    decreases v
  {
    match v
    case Null => NULL
    case Bool(b) => if b then TRUE else FALSE
    case Num(x) => NumberText(x)
    case Str(s) => Quoted(s)
    case Arr(_) => [LBRACKET] + ItemsText(v, 0) + [RBRACKET]
    case Obj(m) => [LBRACE] + FieldsText(v, SortedKeys(m.Keys), 0) + [RBRACE]
  }

  /** The items from position i on, with the commas in front of all but the first. */
  function ItemsText(v: Value, i: nat): bytes
    requires v.Arr? && i <= |v.items|
    decreases v, |v.items| - i
  {
    if i == |v.items| then []
    else (if i == 0 then [] else [COMMA]) + (Text(v.items[i]) + ItemsText(v, i + 1))
  }

  /** The fields from key i on. */
  function FieldsText(v: Value, keys: seq<bytes>, i: nat): bytes
    requires v.Obj? && i <= |keys|
    decreases v, |keys| - i
  {
    if i == |keys| then []
    else (if i == 0 then [] else [COMMA]) + (FieldText(v, keys[i]) + FieldsText(v, keys, i + 1))
  }

  function FieldText(v: Value, k: bytes): bytes
    requires v.Obj?
    decreases v, 0
  {
    Quoted(k) + ([COLON] + if k in v.fields then Text(v.fields[k]) else [])
  }

  // ---- the appending code ----

  method DumpString(out: bytes, s: bytes) returns (r: bytes)
    ensures r == out + Quoted(s)
  {
    r := out + [QUOTE];
    for i := 0 to |s|
      invariant r + Escaped(s[i..]) == out + [QUOTE] + Escaped(s)
    {
      assert s[i..][1..] == s[i + 1..];
      assert r + (Escape(s[i]) + Escaped(s[i + 1..])) == (r + Escape(s[i])) + Escaped(s[i + 1..]);
      r := r + Escape(s[i]);
    }
    assert r == out + [QUOTE] + Escaped(s);
    r := r + [QUOTE];
    assert r == out + Quoted(s);
  }

  method Dump(out: bytes, v: Value) returns (r: bytes)
    ensures r == out + Text(v)
    decreases v
  {
    match v
    case Null => r := out + NULL;
    case Bool(b) => r := out + if b then TRUE else FALSE;
    case Num(x) =>
      var s := PrintNumber(x);
      r := out + s;
    case Str(s) => r := DumpString(out, s);
    case Arr(_) => r := DumpArray(out, v);
    case Obj(_) => r := DumpObject(out, v);
  }

  method DumpArray(out: bytes, v: Value) returns (r: bytes)
    requires v.Arr?
    ensures r == out + Text(v)
    decreases v, 1
  {
    r := out + [LBRACKET];
    var first := true;
    for i := 0 to |v.items|
      invariant first == (i == 0)
      invariant r + ItemsText(v, i) == out + [LBRACKET] + ItemsText(v, 0)
    {
      ghost var r0 := r;
      if !first {
        r := r + [COMMA];
      }
      first := false;
      assert r == r0 + if i == 0 then [] else [COMMA];
      r := Dump(r, v.items[i]);
      Join(r0, if i == 0 then [] else [COMMA], Text(v.items[i]), ItemsText(v, i + 1));
    }
    Regroup(out, [LBRACKET], ItemsText(v, 0));
    r := r + [RBRACKET];
    Regroup(out, [LBRACKET] + ItemsText(v, 0), [RBRACKET]);
  }

  method DumpObject(out: bytes, v: Value) returns (r: bytes)
    requires v.Obj?
    ensures r == out + Text(v)
    decreases v, 1
  {
    r := out + [LBRACE];
    var keys := SortedKeys(v.fields.Keys);
    SortedKeysSpec(v.fields.Keys);
    var first := true;
    for i := 0 to |keys|
      invariant first == (i == 0)
      invariant r + FieldsText(v, keys, i) == out + [LBRACE] + FieldsText(v, keys, 0)
    {
      ghost var r0 := r;
      if !first {
        r := r + [COMMA];
      }
      first := false;
      assert r == r0 + if i == 0 then [] else [COMMA];
      assert keys[i] in keys;
      r := DumpField(r, v, keys[i]);
      Join(r0, if i == 0 then [] else [COMMA], FieldText(v, keys[i]), FieldsText(v, keys, i + 1));
    }
    Regroup(out, [LBRACE], FieldsText(v, keys, 0));
    r := r + [RBRACE];
    Regroup(out, [LBRACE] + FieldsText(v, keys, 0), [RBRACE]);
  }

  method DumpField(out: bytes, v: Value, k: bytes) returns (r: bytes)
    requires v.Obj? && k in v.fields
    ensures r == out + FieldText(v, k)
    decreases v, 0
  {
    r := DumpString(out, k);
    r := r + [COLON];
    r := Dump(r, v.fields[k]);
    Regroup(out + Quoted(k), [COLON], Text(v.fields[k]));
    Regroup(out, Quoted(k), [COLON] + Text(v.fields[k]));
  }

  method Dumps(v: Value) returns (r: bytes)
    ensures r == Text(v)
  {
    r := Dump([], v);
    assert [] + Text(v) == Text(v);
  }

  lemma Regroup(a: bytes, b: bytes, c: bytes)
    ensures (a + b) + c == a + (b + c)
  {
  }

  lemma Join(a: bytes, b: bytes, c: bytes, d: bytes)
    ensures ((a + b) + c) + d == a + (b + (c + d))
  {
  }
}
