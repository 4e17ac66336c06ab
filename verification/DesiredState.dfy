/** window.ensureVisible and window.ensureForeground over whole runs of dispatched requests. */
module DesiredState {
  import opened Bytes
  import opened Handles
  import opened JsonValues
  import opened Trees
  import opened Forest

  const ENSURE_VISIBLE: bytes := [119, 105, 110, 100, 111, 119, 46, 101, 110, 115, 117, 114, 101, 86, 105, 115, 105, 98, 108, 101]
  const ENSURE_FOREGROUND: bytes := [119, 105, 110, 100, 111, 119, 46, 101, 110, 115, 117, 114, 101, 70, 111, 114, 101, 103, 114, 111, 117, 110, 100]

  /** What the fake backend holds. */
  datatype Desktop = Desktop(windows: Windows, foreground: u64, injected: seq<bytes>, elements: map<u64, seq<Element>>)

  /** A dispatched request. All handlers but the two ensure handlers leave windows and
      foreground alone; injected is what they append to the list of injected events. */
  datatype Request = Request(verb: bytes, params: map<bytes, Value>, injected: seq<bytes>)

  datatype Reply = Changed(changed: bool) | BadRequest | Other

  // ---- the backend ----

  function EnsureVisible(d: Desktop, h: u64, v: bool): Desktop {
    if h in d.windows then d.(windows := d.windows[h := d.windows[h].(visible := v)]) else d
  }

  function VisibleChanges(d: Desktop, h: u64, v: bool): bool {
    h in d.windows && d.windows[h].visible != v
  }

  // ---- the handlers ----

  type Quirks = bytes -> Option<u64>

  /** The window and visibility an ensureVisible request asks for; none if it is refused. */
  function VisibleTarget(r: Request, q: Quirks): Option<(u64, bool)> {
    var t, v := GetText(r.params, HWND), GetFlag(r.params, VISIBLE);
    if r.verb != ENSURE_VISIBLE || t.None? || v.None? then None
    else
      var h := ParseHwnd(t.value, q);
      if h.None? then None else Some((h.value, v.value))
  }

  function ForegroundTarget(r: Request, q: Quirks): Option<u64> {
    var t := GetText(r.params, HWND);
    if r.verb != ENSURE_FOREGROUND || t.None? then None else ParseHwnd(t.value, q)
  }

  function Step(d: Desktop, r: Request, q: Quirks): Desktop {
    var a, f := VisibleTarget(r, q), ForegroundTarget(r, q);
    if a.Some? then EnsureVisible(d, a.value.0, a.value.1)
    else if f.Some? then d.(foreground := f.value)
    else if r.verb == ENSURE_VISIBLE || r.verb == ENSURE_FOREGROUND then d
    else d.(injected := d.injected + r.injected)
  }

  function ReplyTo(d: Desktop, r: Request, q: Quirks): Reply {
    var a, f := VisibleTarget(r, q), ForegroundTarget(r, q);
    if a.Some? then Changed(VisibleChanges(d, a.value.0, a.value.1))
    else if f.Some? then Changed(d.foreground != f.value)
    else if r.verb == ENSURE_VISIBLE || r.verb == ENSURE_FOREGROUND then BadRequest
    else Other
  }

  // ---- what a request asks for ----

  /** ensureVisible with a readable handle and a boolean does what it says, on that window only. */
  lemma EnsureVisibleDoes(d: Desktop, r: Request, q: Quirks, t: bytes, h: u64, v: bool)
    requires r.verb == ENSURE_VISIBLE && IsHandleText(t) && ParseHandle(t) == Some(h)
    requires HWND in r.params && r.params[HWND] == Str(t) && VISIBLE in r.params && r.params[VISIBLE] == Bool(v)
    ensures var e := Step(d, r, q);
            && e.windows.Keys == d.windows.Keys && e.foreground == d.foreground
            && e.injected == d.injected && e.elements == d.elements
            && (forall k :: k in d.windows && k != h ==> e.windows[k] == d.windows[k])
            && (h in d.windows ==> e.windows[h] == d.windows[h].(visible := v))
    ensures ReplyTo(d, r, q) == Changed(h in d.windows && d.windows[h].visible != v)
  {
  }

  lemma EnsureForegroundDoes(d: Desktop, r: Request, q: Quirks, t: bytes, h: u64)
    requires r.verb == ENSURE_FOREGROUND && IsHandleText(t) && ParseHandle(t) == Some(h)
    requires HWND in r.params && r.params[HWND] == Str(t)
    ensures Step(d, r, q) == Desktop(d.windows, h, d.injected, d.elements)
    ensures ReplyTo(d, r, q) == Changed(d.foreground != h)
  {
  }

  /** The text of any handle is readable. */
  lemma ShowsAsAsked(d: Desktop, r: Request, q: Quirks, h: u64, v: bool)
    requires r.verb == ENSURE_VISIBLE && h in d.windows
    requires HWND in r.params && r.params[HWND] == Str(ToText(h)) && VISIBLE in r.params && r.params[VISIBLE] == Bool(v)
    ensures Step(d, r, q).windows[h].visible == v && ReplyTo(d, r, q) == Changed(d.windows[h].visible != v)
  {
    HandleRoundTrip(h);
    EnsureVisibleDoes(d, r, q, ToText(h), h, v);
  }

  /** A text parse_hwnd refuses whatever the library does: no prefix, no digit, or more than 64 bits. */
  ghost predicate Unreadable(t: bytes) {
    !(PREFIX <= t) || t == PREFIX || (IsHandleText(t) && HexNumber(t[2..]) >= TWO64)
  }

  /** A missing, ill-typed or unreadable parameter: refused, and nothing changes. */
  lemma EnsureRefused(d: Desktop, r: Request, q: Quirks)
    requires r.verb == ENSURE_VISIBLE || r.verb == ENSURE_FOREGROUND
    requires || HWND !in r.params || !r.params[HWND].Str? || Unreadable(r.params[HWND].s)
             || (r.verb == ENSURE_VISIBLE && (VISIBLE !in r.params || !r.params[VISIBLE].Bool?))
    ensures Step(d, r, q) == d && ReplyTo(d, r, q) == BadRequest
  {
  }

  // ---- runs ----

  function Run(d: Desktop, l: seq<Request>, q: Quirks): Desktop {
    if l == [] then d else Step(Run(d, l[..|l| - 1], q), l[|l| - 1], q)
  }

  /** The visibility the run last asked for on h. */
  function LastVisible(l: seq<Request>, h: u64, q: Quirks): Option<bool> {
    if l == [] then None
    else
      var a := VisibleTarget(l[|l| - 1], q);
      if a.Some? && a.value.0 == h then Some(a.value.1) else LastVisible(l[..|l| - 1], h, q)
  }

  function LastForeground(l: seq<Request>, q: Quirks): Option<u64> {
    if l == [] then None
    else
      var f := ForegroundTarget(l[|l| - 1], q);
      if f.Some? then f else LastForeground(l[..|l| - 1], q)
  }

  lemma TargetsApart(r: Request, q: Quirks)
    ensures VisibleTarget(r, q).None? || ForegroundTarget(r, q).None?
  {
  }

  /** No request adds, removes or reparents a window, and a window is as visible as the run last
      asked. */
  lemma {:induction false} VisibleAfter(d: Desktop, l: seq<Request>, h: u64, q: Quirks)
    ensures Run(d, l, q).windows.Keys == d.windows.Keys
    ensures h in d.windows ==>
              Run(d, l, q).windows[h] ==
              d.windows[h].(visible := if LastVisible(l, h, q).Some? then LastVisible(l, h, q).value else d.windows[h].visible)
    decreases |l|
  {
    if l != [] {
      VisibleAfter(d, l[..|l| - 1], h, q);
      TargetsApart(l[|l| - 1], q);
    }
  }

  lemma {:induction false} ForegroundAfter(d: Desktop, l: seq<Request>, q: Quirks)
    ensures Run(d, l, q).foreground == if LastForeground(l, q).Some? then LastForeground(l, q).value else d.foreground
    decreases |l|
  {
    if l != [] {
      ForegroundAfter(d, l[..|l| - 1], q);
      TargetsApart(l[|l| - 1], q);
    }
  }

  /** A request that reports no change changes nothing. */
  lemma UnchangedIsNoOp(d: Desktop, r: Request, q: Quirks)
    ensures ReplyTo(d, r, q) == Changed(false) ==> Step(d, r, q) == d
  {
    TargetsApart(r, q);
    var a := VisibleTarget(r, q);
    if a.Some? && a.value.0 in d.windows && d.windows[a.value.0].visible == a.value.1 {
      assert d.windows[a.value.0 := d.windows[a.value.0].(visible := a.value.1)] == d.windows;
    }
  }

  lemma {:induction false} LastVisibleOf(r: Request, l: seq<Request>, h: u64, v: bool, q: Quirks)
    requires VisibleTarget(r, q) == Some((h, v))
    ensures LastVisible([r] + l, h, q) == if LastVisible(l, h, q).Some? then LastVisible(l, h, q) else Some(v)
    decreases |l|
  {
    if l == [] {
      assert [r] + l == [r];
    } else {
      LastVisibleOf(r, l[..|l| - 1], h, v, q);
      assert ([r] + l)[..|l|] == [r] + l[..|l| - 1];
    }
  }

  /** After ensureVisible(h, v) and any further requests, asking again reports no change, and
      changes nothing, exactly when those requests did not last ask for the opposite. On a window
      that does not exist it always does. */
  lemma VisibleConvergesIff(d: Desktop, r: Request, l: seq<Request>, again: Request, h: u64, v: bool, q: Quirks)
    requires VisibleTarget(r, q) == Some((h, v)) && VisibleTarget(again, q) == Some((h, v))
    ensures var e := Run(d, [r] + l, q);
            && (ReplyTo(e, again, q) == Changed(false) <==> (h in d.windows ==> LastVisible(l, h, q) != Some(!v)))
            && (ReplyTo(e, again, q) == Changed(false) ==> Step(e, again, q) == e)
  {
    VisibleAfter(d, [r] + l, h, q);
    LastVisibleOf(r, l, h, v, q);
    UnchangedIsNoOp(Run(d, [r] + l, q), again, q);
  }

  lemma {:induction false} NeverOpposite(l: seq<Request>, h: u64, v: bool, q: Quirks)
    requires forall i :: 0 <= i < |l| ==> VisibleTarget(l[i], q) != Some((h, !v))
    ensures LastVisible(l, h, q) != Some(!v)
    decreases |l|
  {
    if l != [] {
      assert VisibleTarget(l[|l| - 1], q) != Some((h, !v));
      NeverOpposite(l[..|l| - 1], h, v, q);
    }
  }

  /** In particular when none of them asked for the opposite. */
  lemma VisibleConverges(d: Desktop, r: Request, l: seq<Request>, again: Request, h: u64, v: bool, q: Quirks)
    requires VisibleTarget(r, q) == Some((h, v)) && VisibleTarget(again, q) == Some((h, v))
    requires forall i :: 0 <= i < |l| ==> VisibleTarget(l[i], q) != Some((h, !v))
    ensures var e := Run(d, [r] + l, q); ReplyTo(e, again, q) == Changed(false) && Step(e, again, q) == e
  {
    NeverOpposite(l, h, v, q);
    VisibleConvergesIff(d, r, l, again, h, v, q);
  }

  lemma {:induction false} LastForegroundOf(r: Request, l: seq<Request>, h: u64, q: Quirks)
    requires ForegroundTarget(r, q) == Some(h)
    ensures LastForeground([r] + l, q) == if LastForeground(l, q).Some? then LastForeground(l, q) else Some(h)
    decreases |l|
  {
    if l == [] {
      assert [r] + l == [r];
    } else {
      LastForegroundOf(r, l[..|l| - 1], h, q);
      assert ([r] + l)[..|l|] == [r] + l[..|l| - 1];
    }
  }

  /** The same for ensureForeground: until another handle is made foreground last. */
  lemma ForegroundConvergesIff(d: Desktop, r: Request, l: seq<Request>, again: Request, h: u64, q: Quirks)
    requires ForegroundTarget(r, q) == Some(h) && ForegroundTarget(again, q) == Some(h)
    ensures var e := Run(d, [r] + l, q);
            && (ReplyTo(e, again, q) == Changed(false) <==> LastForeground(l, q) in {None, Some(h)})
            && (ReplyTo(e, again, q) == Changed(false) ==> Step(e, again, q) == e)
  {
    TargetsApart(again, q);
    ForegroundAfter(d, [r] + l, q);
    LastForegroundOf(r, l, h, q);
  }

  // ---- find_and_invoke ----

  /** Some element of the forest has this automation id: the depth-first search of the source. */
  predicate Find(l: seq<Element>, id: bytes)
    decreases l
  {
    l != [] && (l[0].automationId == id || Find(l[0].children, id) || Find(l[1..], id))
  }

  /** The elements at path p: child positions from the root list downwards. */
  predicate At(l: seq<Element>, p: seq<nat>, id: bytes)
    decreases |p|
  {
    p != [] && p[0] < |l| && if |p| == 1 then l[p[0]].automationId == id else At(l[p[0]].children, p[1..], id)
  }

  /** The search succeeds exactly when some path leads to an element with the id. */
  lemma {:induction false} FindSound(l: seq<Element>, id: bytes) returns (p: seq<nat>)
    requires Find(l, id)
    ensures At(l, p, id)
    decreases l
  {
    if l[0].automationId == id {
      p := [0];
    } else if Find(l[0].children, id) {
      var q := FindSound(l[0].children, id);
      p := [0] + q;
      assert p[1..] == q;
    } else {
      var q := FindSound(l[1..], id);
      p := [q[0] + 1] + q[1..];
      assert p[1..] == q[1..] && l[p[0]] == l[1..][q[0]];
    }
  }

  lemma {:induction false} FindComplete(l: seq<Element>, p: seq<nat>, id: bytes)
    requires At(l, p, id)
    ensures Find(l, id)
    decreases |p|, |l|
  {
    if p[0] > 0 {
      var q := [p[0] - 1] + p[1..];
      assert q[1..] == p[1..] && l[1..][q[0]] == l[p[0]];
      FindComplete(l[1..], q, id);
    } else if |p| > 1 {
      FindComplete(l[0].children, p[1..], id);
    }
  }
}
