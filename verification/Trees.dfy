/** Window trees and UI element trees on the wire. */
module Trees {
  import opened Bytes
  import opened Handles
  import opened JsonValues
  import opened JsonNumbers
  import opened JsonPrinter
  import opened JsonGrammar
  import opened JsonRoundTrip

  const HWND: bytes := [104, 119, 110, 100]
  const TITLE: bytes := [116, 105, 116, 108, 101]
  const CLASS_NAME: bytes := [99, 108, 97, 115, 115, 95, 110, 97, 109, 101]
  const CHILDREN: bytes := [99, 104, 105, 108, 100, 114, 101, 110]
  const AUTOMATION_ID: bytes := [97, 117, 116, 111, 109, 97, 116, 105, 111, 110, 95, 105, 100]
  const NAME: bytes := [110, 97, 109, 101]
  const CONTROL_TYPE: bytes := [99, 111, 110, 116, 114, 111, 108, 95, 116, 121, 112, 101]
  const BOUNDING_RECT: bytes := [98, 111, 117, 110, 100, 105, 110, 103, 95, 114, 101, 99, 116]
  const ENABLED: bytes := [101, 110, 97, 98, 108, 101, 100]
  const VISIBLE: bytes := [118, 105, 115, 105, 98, 108, 101]
  const LEFT: bytes := [108, 101, 102, 116]
  const TOP: bytes := [116, 111, 112]
  const RIGHT: bytes := [114, 105, 103, 104, 116]
  const BOTTOM: bytes := [98, 111, 116, 116, 111, 109]

  /** A Windows long. */
  type long = x: int | -0x8000_0000 <= x < 0x8000_0000

  datatype WindowNode = WindowNode(hwnd: u64, title: bytes, className: bytes, children: seq<WindowNode>)

  datatype Rect = Rect(left: long, top: long, right: long, bottom: long)

  datatype Element = Element(automationId: bytes, name: bytes, className: bytes, controlType: bytes,
                             bounds: Rect, enabled: bool, visible: bool, children: seq<Element>)

  // ---- the converters ----

  /** An empty list of children is left out. */
  function WithChildren(fields: map<bytes, Value>, items: seq<Value>): map<bytes, Value> {
    if items == [] then fields else fields[CHILDREN := Arr(items)]
  }

  function WindowFields(n: WindowNode): map<bytes, Value> {
    map[HWND := Str(ToText(n.hwnd)), TITLE := Str(n.title), CLASS_NAME := Str(n.className)]
  }

  function WindowJson(n: WindowNode): Value
    decreases n
  {
    Obj(WithChildren(WindowFields(n), WindowsJson(n.children)))
  }

  function WindowsJson(l: seq<WindowNode>): seq<Value>
    decreases l
  {
    if l == [] then [] else [WindowJson(l[0])] + WindowsJson(l[1..])
  }

  function RectJson(r: Rect): Value {
    Obj(map[LEFT := Num(r.left as real), TOP := Num(r.top as real),
            RIGHT := Num(r.right as real), BOTTOM := Num(r.bottom as real)])
  }

  function ElementFields(e: Element): map<bytes, Value> {
    map[AUTOMATION_ID := Str(e.automationId), NAME := Str(e.name), CLASS_NAME := Str(e.className),
        CONTROL_TYPE := Str(e.controlType), BOUNDING_RECT := RectJson(e.bounds),
        ENABLED := Bool(e.enabled), VISIBLE := Bool(e.visible)]
  }

  function ElementJson(e: Element): Value
    decreases e
  {
    Obj(WithChildren(ElementFields(e), ElementsJson(e.children)))
  }

  function ElementsJson(l: seq<Element>): seq<Value>
    decreases l
  {
    if l == [] then [] else [ElementJson(l[0])] + ElementsJson(l[1..])
  }

  // ---- reading them back ----

  function GetText(m: map<bytes, Value>, k: bytes): Option<bytes> {
    if k in m && m[k].Str? then Some(m[k].s) else None
  }

  function GetFlag(m: map<bytes, Value>, k: bytes): Option<bool> {
    if k in m && m[k].Bool? then Some(m[k].b) else None
  }

  function GetLong(m: map<bytes, Value>, k: bytes): Option<long> {
    if k in m && m[k].Num? && -2147483648.0 <= m[k].x < 2147483648.0 then Some(m[k].x.Floor) else None
  }

  function GetHandle(m: map<bytes, Value>, k: bytes): Option<u64> {
    var t := GetText(m, k);
    if t.Some? && IsHandleText(t.value) then ParseHandle(t.value) else None
  }

  /** An absent list of children is the empty one. */
  function ReadWindow(v: Value): Option<WindowNode>
    decreases v
  {
    if !v.Obj? then None
    else
      var h, t, c := GetHandle(v.fields, HWND), GetText(v.fields, TITLE), GetText(v.fields, CLASS_NAME);
      if h.None? || t.None? || c.None? then None
      else
        var w := if CHILDREN in v.fields then ReadWindowList(v.fields[CHILDREN]) else Some([]);
        if w.None? then None else Some(WindowNode(h.value, t.value, c.value, w.value))
  }

  function ReadWindowList(v: Value): Option<seq<WindowNode>>
    decreases v
  {
    if v.Arr? then ReadWindows(v.items) else None
  }

  function ReadWindows(items: seq<Value>): Option<seq<WindowNode>>
    decreases items
  {
    if items == [] then Some([])
    else
      var x, r := ReadWindow(items[0]), ReadWindows(items[1..]);
      if x.None? || r.None? then None else Some([x.value] + r.value)
  }

  function ReadRect(v: Value): Option<Rect> {
    if !v.Obj? then None
    else
      var l, t, r, b := GetLong(v.fields, LEFT), GetLong(v.fields, TOP), GetLong(v.fields, RIGHT), GetLong(v.fields, BOTTOM);
      if l.None? || t.None? || r.None? || b.None? then None else Some(Rect(l.value, t.value, r.value, b.value))
  }

  function GetRect(m: map<bytes, Value>): Option<Rect> {
    if BOUNDING_RECT in m then ReadRect(m[BOUNDING_RECT]) else None
  }

  function ReadElement(v: Value): Option<Element>
    decreases v
  {
    if !v.Obj? then None
    else
      var m := v.fields;
      var i, n, c, t := GetText(m, AUTOMATION_ID), GetText(m, NAME), GetText(m, CLASS_NAME), GetText(m, CONTROL_TYPE);
      var r, e, s := GetRect(m), GetFlag(m, ENABLED), GetFlag(m, VISIBLE);
      if i.None? || n.None? || c.None? || t.None? || r.None? || e.None? || s.None? then None
      else
        var w := if CHILDREN in v.fields then ReadElementList(v.fields[CHILDREN]) else Some([]);
        if w.None? then None
        else Some(Element(i.value, n.value, c.value, t.value, r.value, e.value, s.value, w.value))
  }

  function ReadElementList(v: Value): Option<seq<Element>>
    decreases v
  {
    if v.Arr? then ReadElements(v.items) else None
  }

  function ReadElements(items: seq<Value>): Option<seq<Element>>
    decreases items
  {
    if items == [] then Some([])
    else
      var x, r := ReadElement(items[0]), ReadElements(items[1..]);
      if x.None? || r.None? then None else Some([x.value] + r.value)
  }

  // ---- every number in them is whole ----

  lemma WholeIsSixDecimal(n: int)
    ensures IsSixDecimal(n as real)
  {
    assert n as real * MILLION as real == (n * MILLION) as real;
  }

  lemma RectSettled(r: Rect)
    ensures AllSixDecimal(RectJson(r))
  {
    WholeIsSixDecimal(r.left);
    WholeIsSixDecimal(r.top);
    WholeIsSixDecimal(r.right);
    WholeIsSixDecimal(r.bottom);
  }

  lemma ChildrenSettled(fields: map<bytes, Value>, items: seq<Value>)
    requires forall k :: k in fields ==> AllSixDecimal(fields[k])
    requires forall i :: 0 <= i < |items| ==> AllSixDecimal(items[i])
    ensures AllSixDecimal(Obj(WithChildren(fields, items)))
  {
    assert AllSixDecimal(Arr(items));
  }

  lemma {:induction false} WindowSettled(n: WindowNode)
    ensures AllSixDecimal(WindowJson(n))
    decreases n
  {
    WindowsSettled(n.children);
    ChildrenSettled(WindowFields(n), WindowsJson(n.children));
  }

  lemma {:induction false} WindowsSettled(l: seq<WindowNode>)
    ensures forall i :: 0 <= i < |WindowsJson(l)| ==> AllSixDecimal(WindowsJson(l)[i])
    decreases l
  {
    if l != [] {
      WindowSettled(l[0]);
      WindowsSettled(l[1..]);
    }
  }

  lemma {:induction false} ElementSettled(e: Element)
    ensures AllSixDecimal(ElementJson(e))
    decreases e
  {
    ElementsSettled(e.children);
    RectSettled(e.bounds);
    ChildrenSettled(ElementFields(e), ElementsJson(e.children));
  }

  lemma {:induction false} ElementsSettled(l: seq<Element>)
    ensures forall i :: 0 <= i < |ElementsJson(l)| ==> AllSixDecimal(ElementsJson(l)[i])
    decreases l
  {
    if l != [] {
      ElementSettled(l[0]);
      ElementsSettled(l[1..]);
    }
  }

  // ---- reading undoes conversion ----

  lemma ChildrenBack(fields: map<bytes, Value>, items: seq<Value>)
    requires CHILDREN !in fields
    ensures items == [] ==> CHILDREN !in WithChildren(fields, items)
    ensures items != [] ==> CHILDREN in WithChildren(fields, items) && WithChildren(fields, items)[CHILDREN] == Arr(items)
    ensures forall k :: k != CHILDREN ==> GetText(WithChildren(fields, items), k) == GetText(fields, k)
    ensures forall k :: k != CHILDREN ==> GetFlag(WithChildren(fields, items), k) == GetFlag(fields, k)
    ensures GetRect(WithChildren(fields, items)) == GetRect(fields)
  {
  }

  /** The wire form of a node, field by field. */
  lemma NodeFields(n: WindowNode)
    ensures var m := WindowFields(n);
            && CHILDREN !in m
            && GetText(m, HWND) == Some(ToText(n.hwnd)) && GetText(m, TITLE) == Some(n.title)
            && GetText(m, CLASS_NAME) == Some(n.className)
  {
  }

  /** And its children, in order. */
  lemma {:induction false} NodeChildren(l: seq<WindowNode>)
    ensures |WindowsJson(l)| == |l| && forall i :: 0 <= i < |l| ==> WindowsJson(l)[i] == WindowJson(l[i])
  {
    if l != [] {
      NodeChildren(l[1..]);
    }
  }

  lemma {:induction false} WindowBack(n: WindowNode)
    ensures ReadWindow(WindowJson(n)) == Some(n)
    decreases n
  {
    NodeFields(n);
    ChildrenBack(WindowFields(n), WindowsJson(n.children));
    HandleRoundTrip(n.hwnd);
    WindowsBack(n.children);
  }

  lemma {:induction false} WindowsBack(l: seq<WindowNode>)
    ensures ReadWindows(WindowsJson(l)) == Some(l)
    decreases l
  {
    if l != [] {
      WindowBack(l[0]);
      WindowsBack(l[1..]);
      assert WindowsJson(l)[1..] == WindowsJson(l[1..]);
      assert [l[0]] + l[1..] == l;
    }
  }

  lemma RectBack(r: Rect)
    ensures ReadRect(RectJson(r)) == Some(r)
  {
  }

  lemma FieldsBack(e: Element)
    ensures var m := ElementFields(e);
            && CHILDREN !in m
            && GetText(m, AUTOMATION_ID) == Some(e.automationId) && GetText(m, NAME) == Some(e.name)
            && GetText(m, CLASS_NAME) == Some(e.className) && GetText(m, CONTROL_TYPE) == Some(e.controlType)
            && GetRect(m) == Some(e.bounds)
            && GetFlag(m, ENABLED) == Some(e.enabled) && GetFlag(m, VISIBLE) == Some(e.visible)
  {
    RectBack(e.bounds);
  }

  lemma {:induction false} ElementBack(e: Element)
    ensures ReadElement(ElementJson(e)) == Some(e)
    decreases e
  {
    FieldsBack(e);
    ChildrenBack(ElementFields(e), ElementsJson(e.children));
    ElementsBack(e.children);
  }

  lemma {:induction false} ElementsBack(l: seq<Element>)
    ensures ReadElements(ElementsJson(l)) == Some(l)
    decreases l
  {
    if l != [] {
      ElementBack(l[0]);
      ElementsBack(l[1..]);
      assert ElementsJson(l)[1..] == ElementsJson(l[1..]);
      assert [l[0]] + l[1..] == l;
    }
  }

  /** A window tree survives the wire: converted, printed, parsed and read it is the same tree. */
  lemma WindowWire(n: WindowNode)
    ensures Parse(Text(WindowJson(n))).Ok? && ReadWindow(Parse(Text(WindowJson(n))).value) == Some(n)
  {
    WindowSettled(n);
    RoundTripIff(WindowJson(n));
    WindowBack(n);
  }

  /** And so does a UI element tree. */
  lemma ElementWire(e: Element)
    ensures Parse(Text(ElementJson(e))).Ok? && ReadElement(Parse(Text(ElementJson(e))).value) == Some(e)
  {
    ElementSettled(e);
    RoundTripIff(ElementJson(e));
    ElementBack(e);
  }

  /** Two trees with the same text are the same tree. */
  lemma WireInjective(n: WindowNode, m: WindowNode)
    requires Text(WindowJson(n)) == Text(WindowJson(m))
    ensures n == m
  {
    WindowWire(n);
    WindowWire(m);
  }
}
