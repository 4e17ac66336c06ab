/** fake_backend.cpp: the object itself, its loops and its updates in place. */
module FakeBackends {
  import opened Bytes
  import opened Handles
  import opened Trees
  import opened Forest
  import opened DesiredState
  import Diff

  const INVOKE: bytes := [105, 110, 118, 111, 107, 101, 95, 117, 105, 95, 101, 108, 101, 109, 101, 110, 116, 58] // "invoke_ui_element:"

  /** The windows of a list; the first of several with one handle counts (emplace). */
  function FirstOf(l: seq<(u64, Window)>): Windows {
    if l == [] then map[] else FirstOf(l[1..])[l[0].0 := l[0].1]
  }

  lemma {:induction false} FirstOfSpec(l: seq<(u64, Window)>, i: nat)
    requires i < |l| && forall j :: 0 <= j < i ==> l[j].0 != l[i].0
    ensures l[i].0 in FirstOf(l) && FirstOf(l)[l[i].0] == l[i].1
  {
    if i > 0 {
      FirstOfSpec(l[1..], i - 1);
      assert l[1..][i - 1] == l[i];
    }
  }

  lemma {:induction false} FirstOfPush(l: seq<(u64, Window)>, x: (u64, Window))
    ensures FirstOf(l + [x]) == if x.0 in FirstOf(l) then FirstOf(l) else FirstOf(l)[x.0 := x.1]
  {
    if l == [] {
      assert l + [x] == [x];
    } else {
      FirstOfPush(l[1..], x);
      assert (l + [x])[1..] == l[1..] + [x];
    }
  }

  lemma {:induction false} SortedIncreasing(l: seq<u64>)
    requires Increasing(l)
    ensures Diff.Sorted(l) == l
  {
    if l != [] {
      SortedIncreasing(l[1..]);
      assert |l| > 1 ==> l[1..][0] in l[1..];
    }
  }

  lemma {:induction false} WithParentPush(w: Windows, l: seq<u64>, x: u64, p: u64)
    ensures WithParent(w, l + [x], p) == WithParent(w, l, p) + WithParent(w, [x], p)
  {
    if l == [] {
      assert l + [x] == [x];
    } else {
      WithParentPush(w, l[1..], x, p);
      assert (l + [x])[1..] == l[1..] + [x];
    }
  }

  /** The loop over the map reaches key number i. */
  lemma NextKey(w: Windows, keys: seq<u64>, i: nat, p: u64)
    requires i < |keys| && forall x :: x in keys ==> x in w
    ensures keys[i] in w
    ensures WithParent(w, keys[..i + 1], p) ==
            WithParent(w, keys[..i], p) + if w[keys[i]].parent == p then [keys[i]] else []
  {
    assert keys[i] in keys;
    assert keys[..i + 1] == keys[..i] + [keys[i]];
    WithParentPush(w, keys[..i], keys[i], p);
  }

  lemma {:induction false} NodesPush(w: Windows, h: u64, l: seq<u64>, x: u64)
    requires !OnCycle(w, h) && AllBelow(w, h, l + [x])
    ensures AllBelow(w, h, l) && !OnCycle(w, x)
    ensures Nodes(w, h, l + [x]) == Nodes(w, h, l) + [Node(w, x)]
    decreases |l|
  {
    assert forall y :: y in l + [x] <==> y in l || y == x;
    ChildOffCycle(w, h, x);
    if l == [] {
      assert l + [x] == [x];
    } else {
      assert (l + [x])[1..] == l[1..] + [x];
      NodesPush(w, h, l[1..], x);
    }
  }

  class FakeBackend {
    var windows: Windows
    var foreground: u64
    var injected: seq<bytes>
    var elements: map<u64, seq<Element>>

    function View(): Desktop
      reads this
    {
      Desktop(windows, foreground, injected, elements)
    }

    constructor (l: seq<(u64, Window)>)
      ensures View() == Desktop(FirstOf(l), 0, [], map[])
    {
      windows, foreground, injected, elements := map[], 0, [], map[];
      new;
      for i := 0 to |l|
        invariant View() == Desktop(FirstOf(l[..i]), 0, [], map[])
      {
        assert l[..i + 1] == l[..i] + [l[i]];
        FirstOfPush(l[..i], l[i]);
        if l[i].0 !in windows {
          windows := windows[l[i].0 := l[i].1];
        }
      }
      assert l[..|l|] == l;
    }

    /** list_children; capture_snapshot is this loop for parent 0. */
    method ListChildren(p: u64) returns (out: seq<u64>)
      ensures out == ChildrenOf(windows, p)
    {
      var keys := Ordered(windows.Keys);
      out := [];
      for i := 0 to |keys|
        invariant out == WithParent(windows, keys[..i], p)
      {
        OrderedSpec(windows.Keys);
        NextKey(windows, keys, i, p);
        if windows[keys[i]].parent == p {
          out := out + [keys[i]];
        }
      }
      assert keys[..|keys|] == keys;
      ChildrenSpec(windows, p);
      SortedIncreasing(out);
      out := Diff.Sorted(out);
    }

    method CaptureSnapshot() returns (top: seq<u64>)
      ensures top == ChildrenOf(windows, 0)
    {
      top := ListChildren(0);
    }

    /** build_node: it returns for every window on no parent cycle. */
    method BuildNode(h: u64) returns (n: WindowNode)
      requires !OnCycle(windows, h)
      ensures n == Node(windows, h)
      decreases |Below(windows, h)|, 1
    {
      var children := BuildChildren(h);
      n := WindowNode(h, TitleOf(windows, h), ClassOf(windows, h), children);
    }

    /** The loop over all windows that pushes the nodes of those with parent h. */
    method BuildChildren(h: u64) returns (out: seq<WindowNode>)
      requires !OnCycle(windows, h)
      ensures out == Node(windows, h).children
      decreases |Below(windows, h)|, 0
    {
      var keys := Ordered(windows.Keys);
      ghost var w := windows;
      ghost var done: seq<u64> := [];
      OrderedSpec(w.Keys);
      out := [];
      for i := 0 to |keys|
        invariant windows == w
        invariant done == WithParent(w, keys[..i], h) && AllBelow(w, h, done)
        invariant out == Nodes(w, h, done)
      {
        var c := keys[i];
        NextKey(w, keys, i, h);
        if windows[c].parent == h {
          ChildOffCycle(w, h, c);
          var n := BuildNode(c);
          NodesPush(w, h, done, c);
          out := out + [n];
          done := done + [c];
        }
      }
      assert keys[..|keys|] == keys;
    }

    method GetWindowTree(root: u64) returns (out: seq<WindowNode>)
      requires !OnCycle(windows, root)
      ensures out == Tree(windows, root)
    {
      if root == 0 {
        out := BuildChildren(0);
      } else {
        var n := BuildNode(root);
        out := [n];
      }
    }

    method EnsureVisible(h: u64, v: bool) returns (changed: bool)
      modifies this
      ensures View() == DesiredState.EnsureVisible(old(View()), h, v)
      ensures changed == VisibleChanges(old(View()), h, v)
    {
      if h !in windows {
        return false;
      }
      changed := windows[h].visible != v;
      windows := windows[h := windows[h].(visible := v)];
    }

    method EnsureForeground(h: u64) returns (changed: bool)
      modifies this
      ensures View() == old(View()).(foreground := h)
      ensures changed == (old(foreground) != h)
    {
      changed := foreground != h;
      foreground := h;
    }

    method InvokeUiElement(h: u64, id: bytes) returns (found: bool)
      modifies this
      ensures View() == old(View()).(injected := old(injected) + [INVOKE + id])
      ensures found <==> h in elements && Find(elements[h], id)
    {
      injected := injected + [INVOKE + id];
      found := h in elements && Find(elements[h], id);
    }

    /** CoreEngine::handle on the two ensure methods and, for every other method, the events its
        handler injects. */
    method Handle(r: Request, q: Quirks) returns (reply: Reply)
      modifies this
      ensures View() == Step(old(View()), r, q)
      ensures reply == ReplyTo(old(View()), r, q)
    {
      var t := GetText(r.params, HWND);
      if r.verb == ENSURE_VISIBLE {
        var v := GetFlag(r.params, VISIBLE);
        if t.None? || v.None? {
          return BadRequest;
        }
        var h := ParseHwnd(t.value, q);
        if h.None? {
          return BadRequest;
        }
        var changed := EnsureVisible(h.value, v.value);
        return Changed(changed);
      }
      if r.verb == ENSURE_FOREGROUND {
        if t.None? {
          return BadRequest;
        }
        var h := ParseHwnd(t.value, q);
        if h.None? {
          return BadRequest;
        }
        var changed := EnsureForeground(h.value);
        return Changed(changed);
      }
      injected := injected + r.injected;
      reply := Other;
    }
  }
}
