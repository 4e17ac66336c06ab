/** The window forest: what list_children, capture_snapshot and get_window_tree compute. */
module Forest {
  import opened Bytes
  import opened Trees
  import opened Sets

  datatype Window = Window(parent: u64, owner: u64, title: bytes, className: bytes, visible: bool)

  type Windows = map<u64, Window>

  // ---- ascending handles ----

  predicate Increasing(l: seq<u64>) {
    l == [] || ((forall x :: x in l[1..] ==> l[0] < x) && Increasing(l[1..]))
  }

  predicate Least(k: u64, s: set<u64>) {
    k in s && forall j :: j in s ==> k <= j
  }

  lemma {:induction false} LeastExists(s: set<u64>)
    requires s != {}
    ensures exists k :: Least(k, s)
  {
    var x :| x in s;
    var r := s - {x};
    assert s == r + {x};
    if r == {} {
      assert Least(x, s);
    } else {
      LeastExists(r);
      var k :| Least(k, r);
      assert Least(if x < k then x else k, s);
    }
  }

  /** The keys in the order a std::map is iterated. */
  function Ordered(s: set<u64>): seq<u64> {
    if s == {} then []
    else
      LeastExists(s);
      var k :| Least(k, s);
      [k] + Ordered(s - {k})
  }

  lemma {:induction false} OrderedSpec(s: set<u64>)
    ensures Increasing(Ordered(s))
    ensures forall x :: x in Ordered(s) <==> x in s
  {
    if s != {} {
      LeastExists(s);
      OrderedSpec(s - {Ordered(s)[0]});
    }
  }

  /** The handles in l whose window has parent p. */
  function WithParent(w: Windows, l: seq<u64>, p: u64): seq<u64> {
    if l == [] then []
    else if l[0] in w && w[l[0]].parent == p then [l[0]] + WithParent(w, l[1..], p)
    else WithParent(w, l[1..], p)
  }

  lemma {:induction false} WithParentSpec(w: Windows, l: seq<u64>, p: u64)
    requires Increasing(l)
    ensures forall x :: x in WithParent(w, l, p) <==> x in l && x in w && w[x].parent == p
    ensures Increasing(WithParent(w, l, p))
  {
    if l != [] {
      WithParentSpec(w, l[1..], p);
    }
  }

  /** The children of p; those of 0 are the top windows. */
  function ChildrenOf(w: Windows, p: u64): seq<u64> {
    WithParent(w, Ordered(w.Keys), p)
  }

  /** Exactly the windows with that parent, ascending: nothing else has this property. */
  lemma ChildrenSpec(w: Windows, p: u64)
    ensures forall x :: x in ChildrenOf(w, p) <==> x in w && w[x].parent == p
    ensures Increasing(ChildrenOf(w, p))
  {
    OrderedSpec(w.Keys);
    WithParentSpec(w, Ordered(w.Keys), p);
  }

  lemma {:induction false} IncreasingUnique(a: seq<u64>, b: seq<u64>)
    requires Increasing(a) && Increasing(b) && forall x :: x in a <==> x in b
    ensures a == b
  {
    assert a != [] ==> a[0] in b;
    assert b != [] ==> b[0] in a;
    if a != [] {
      assert a == [a[0]] + a[1..] && b == [b[0]] + b[1..];
      assert a[0] == b[0];
      forall x ensures x in a[1..] <==> x in b[1..] {
        assert x in a <==> x == a[0] || x in a[1..];
        assert x in b <==> x == b[0] || x in b[1..];
      }
      IncreasingUnique(a[1..], b[1..]);
    }
  }

  // ---- parent chains ----

  /** The window k parents above h, if the chain is that long. */
  function Up(w: Windows, h: u64, k: nat): Option<u64>
    decreases k
  {
    if k == 0 then Some(h) else if h in w then Up(w, w[h].parent, k - 1) else None
  }

  ghost predicate Reaches(w: Windows, x: u64, h: u64) {
    exists k: nat :: Up(w, x, k) == Some(h)
  }

  ghost predicate OnCycle(w: Windows, h: u64) {
    h in w && Reaches(w, w[h].parent, h)
  }

  /** The windows whose parent chain reaches h. */
  ghost function Below(w: Windows, h: u64): set<u64> {
    set x | x in w && Reaches(w, w[x].parent, h)
  }

  lemma {:induction false} UpAdd(w: Windows, h: u64, i: nat, j: nat)
    requires Up(w, h, i).Some?
    ensures Up(w, h, i + j) == Up(w, Up(w, h, i).value, j)
    decreases i
  {
    if i > 0 {
      UpAdd(w, w[h].parent, i - 1, j);
    }
  }

  /** One parent more. */
  lemma UpOne(w: Windows, x: u64, k: nat, c: u64)
    requires Up(w, x, k) == Some(c) && c in w
    ensures Up(w, x, k + 1) == Some(w[c].parent)
    ensures x in w && Up(w, w[x].parent, k) == Some(w[c].parent)
  {
    UpAdd(w, x, k, 1);
    if k > 0 {
      assert x in w;
    }
  }

  /** The window just below the end of a chain. */
  lemma UpLast(w: Windows, x: u64, k: nat, h: u64) returns (c: u64)
    requires x in w && Up(w, w[x].parent, k) == Some(h)
    ensures c in w && w[c].parent == h && Up(w, x, k) == Some(c)
  {
    assert Up(w, x, k + 1) == Some(h);
    UpPrefix(w, x, k);
    c := Up(w, x, k).value;
    UpAdd(w, x, k, 1);
    assert Up(w, c, 1) == Some(h);
    assert c in w && Up(w, w[c].parent, 0) == Some(w[c].parent);
  }

  lemma {:induction false} UpPrefix(w: Windows, x: u64, k: nat)
    requires Up(w, x, k + 1).Some?
    ensures Up(w, x, k).Some?
    decreases k
  {
    if k > 0 {
      UpPrefix(w, w[x].parent, k - 1);
    }
  }

  lemma ReachesOn(w: Windows, x: u64, c: u64)
    requires c in w && Reaches(w, x, c)
    ensures x in w && Reaches(w, w[x].parent, w[c].parent)
  {
    var k: nat :| Up(w, x, k) == Some(c);
    UpOne(w, x, k, c);
  }

  /** Below a window off every cycle there are only such windows, and fewer and fewer of them. */
  lemma ChildOffCycle(w: Windows, h: u64, c: u64)
    requires !OnCycle(w, h) && c in w && w[c].parent == h
    ensures !OnCycle(w, c) && c in Below(w, h) && Below(w, c) < Below(w, h) && |Below(w, c)| < |Below(w, h)|
  {
    if OnCycle(w, c) {
      var k: nat :| Up(w, h, k) == Some(c);
      UpOne(w, h, k, c);
      assert Reaches(w, w[h].parent, h);
      assert false;
    }
    assert Up(w, h, 0) == Some(h);
    assert c in Below(w, h) && c !in Below(w, c);
    forall x | x in Below(w, c) ensures x in Below(w, h) {
      var k: nat :| Up(w, w[x].parent, k) == Some(c);
      UpOne(w, w[x].parent, k, c);
    }
    Smaller(Below(w, c), Below(w, h));
  }

  lemma Smaller<T>(a: set<T>, b: set<T>)
    requires a < b
    ensures |a| < |b|
  {
    var x :| x in b && x !in a;
    assert a <= b - {x};
    SubsetSize(a, b - {x});
  }

  // ---- build_node ----

  function TitleOf(w: Windows, h: u64): bytes {
    if h in w then w[h].title else []
  }

  function ClassOf(w: Windows, h: u64): bytes {
    if h in w then w[h].className else []
  }

  /** build_node with calls nested at most d deep; None when that is not enough. */
  function Build(w: Windows, h: u64, d: nat): Option<WindowNode>
    decreases d, 0, 0
  {
    if d == 0 then None
    else
      var r := BuildAll(w, ChildrenOf(w, h), d - 1);
      if r.None? then None else Some(WindowNode(h, TitleOf(w, h), ClassOf(w, h), r.value))
  }

  function BuildAll(w: Windows, l: seq<u64>, d: nat): Option<seq<WindowNode>>
    decreases d, 1, |l|
  {
    if l == [] then Some([])
    else
      var x, r := Build(w, l[0], d), BuildAll(w, l[1..], d);
      if x.None? || r.None? then None else Some([x.value] + r.value)
  }

  ghost predicate AllBelow(w: Windows, h: u64, l: seq<u64>) {
    forall x :: x in l ==> x in w && w[x].parent == h
  }

  /** The tree at a window off every parent cycle. */
  ghost function Node(w: Windows, h: u64): WindowNode
    requires !OnCycle(w, h)
    decreases |Below(w, h)|, 1, 0
  {
    ChildrenSpec(w, h);
    WindowNode(h, TitleOf(w, h), ClassOf(w, h), Nodes(w, h, ChildrenOf(w, h)))
  }

  ghost function Nodes(w: Windows, h: u64, l: seq<u64>): seq<WindowNode>
    requires !OnCycle(w, h) && AllBelow(w, h, l)
    decreases |Below(w, h)|, 0, |l|
  {
    if l == [] then []
    else
      ChildOffCycle(w, h, l[0]);
      [Node(w, l[0])] + Nodes(w, h, l[1..])
  }

  lemma {:induction false} BuildIsNode(w: Windows, h: u64, d: nat)
    requires !OnCycle(w, h) && |Below(w, h)| < d
    ensures Build(w, h, d) == Some(Node(w, h))
    decreases d, 0, 0
  {
    ChildrenSpec(w, h);
    BuildAllIsNodes(w, h, ChildrenOf(w, h), d - 1);
  }

  lemma {:induction false} BuildAllIsNodes(w: Windows, h: u64, l: seq<u64>, d: nat)
    requires !OnCycle(w, h) && AllBelow(w, h, l) && |Below(w, h)| <= d
    ensures BuildAll(w, l, d) == Some(Nodes(w, h, l))
    decreases d, 1, |l|
  {
    if l != [] {
      ChildOffCycle(w, h, l[0]);
      BuildIsNode(w, l[0], d);
      BuildAllIsNodes(w, h, l[1..], d);
    }
  }

  lemma {:induction false} BuildAllMember(w: Windows, l: seq<u64>, d: nat, c: u64)
    requires BuildAll(w, l, d).Some? && c in l
    ensures Build(w, c, d).Some?
  {
    if c != l[0] {
      BuildAllMember(w, l[1..], d, c);
    }
  }

  /** A window on a cycle has a child on it. */
  lemma CycleChild(w: Windows, h: u64) returns (c: u64)
    requires OnCycle(w, h)
    ensures c in w && w[c].parent == h && OnCycle(w, c)
  {
    var k: nat :| Up(w, w[h].parent, k) == Some(h);
    c := UpLast(w, h, k, h);
    assert Up(w, w[c].parent, k) == Some(c);
  }

  lemma {:induction false} CycleNeverBuilds(w: Windows, h: u64, d: nat)
    requires OnCycle(w, h)
    ensures Build(w, h, d).None?
    decreases d
  {
    if d > 0 && BuildAll(w, ChildrenOf(w, h), d - 1).Some? {
      var c := CycleChild(w, h);
      ChildrenSpec(w, h);
      BuildAllMember(w, ChildrenOf(w, h), d - 1, c);
      CycleNeverBuilds(w, c, d - 1);
      assert false;
    }
  }

  // ---- get_window_tree ----

  /** Some depth of nested calls is enough for get_window_tree from this root. */
  ghost predicate Terminates(w: Windows, root: u64) {
    if root == 0 then exists d: nat :: BuildAll(w, ChildrenOf(w, 0), d).Some?
    else exists d: nat :: Build(w, root, d).Some?
  }

  /** get_window_tree returns exactly when its root is on no parent cycle. */
  lemma TerminatesIff(w: Windows, root: u64)
    ensures Terminates(w, root) <==> !OnCycle(w, root)
  {
    var n := |Below(w, root)|;
    if OnCycle(w, root) {
      forall d: nat ensures Build(w, root, d).None? && BuildAll(w, ChildrenOf(w, root), d).None? {
        CycleNeverBuilds(w, root, d);
        CycleNeverBuilds(w, root, d + 1);
      }
    } else {
      BuildIsNode(w, root, n + 1);
      assert BuildAll(w, ChildrenOf(w, root), n).Some?;
    }
  }

  /** With no window of handle 0 the whole forest can always be listed, cycles or not. */
  lemma WholeForestTerminates(w: Windows)
    requires 0 !in w
    ensures Terminates(w, 0)
  {
    TerminatesIff(w, 0);
  }

  ghost function Tree(w: Windows, root: u64): seq<WindowNode>
    requires !OnCycle(w, root)
  {
    if root == 0 then Node(w, 0).children else [Node(w, root)]
  }

  lemma {:induction false} BuiltIsNode(w: Windows, h: u64, d: nat)
    requires Build(w, h, d).Some?
    ensures !OnCycle(w, h) && Build(w, h, d).value == Node(w, h)
    decreases d, 0, 0
  {
    if OnCycle(w, h) {
      CycleNeverBuilds(w, h, d);
    }
    ChildrenSpec(w, h);
    BuiltAreNodes(w, h, ChildrenOf(w, h), d - 1);
  }

  lemma {:induction false} BuiltAreNodes(w: Windows, h: u64, l: seq<u64>, d: nat)
    requires !OnCycle(w, h) && AllBelow(w, h, l) && BuildAll(w, l, d).Some?
    ensures BuildAll(w, l, d).value == Nodes(w, h, l)
    decreases d, 1, |l|
  {
    if l != [] {
      BuiltIsNode(w, l[0], d);
      BuiltAreNodes(w, h, l[1..], d);
    }
  }

  /** Whatever depth of nested calls suffices, the forest returned is Tree. */
  lemma TreeIsBuilt(w: Windows, root: u64, d: nat)
    ensures root == 0 && BuildAll(w, ChildrenOf(w, 0), d).Some? ==>
              !OnCycle(w, 0) && BuildAll(w, ChildrenOf(w, 0), d).value == Tree(w, 0)
    ensures root != 0 && Build(w, root, d).Some? ==> !OnCycle(w, root) && [Build(w, root, d).value] == Tree(w, root)
  {
    if root == 0 && BuildAll(w, ChildrenOf(w, 0), d).Some? {
      BuiltIsNode(w, 0, d + 1);
    }
    if root != 0 && Build(w, root, d).Some? {
      BuiltIsNode(w, root, d);
    }
  }

  // ---- what is in it ----

  /** The handles in a tree, a parent before its children. */
  function Flat(n: WindowNode): seq<u64>
    decreases n
  {
    [n.hwnd] + FlatAll(n.children)
  }

  function FlatAll(l: seq<WindowNode>): seq<u64>
    decreases l
  {
    if l == [] then [] else Flat(l[0]) + FlatAll(l[1..])
  }

  function Roots(l: seq<WindowNode>): seq<u64> {
    if l == [] then [] else [l[0].hwnd] + Roots(l[1..])
  }

  /** Every node has its window's title and class name, or none for a handle without window, and
      exactly its window's children, in order. */
  predicate Faithful(w: Windows, n: WindowNode)
    decreases n
  {
    && (n.hwnd in w ==> n.title == w[n.hwnd].title && n.className == w[n.hwnd].className)
    && (n.hwnd !in w ==> n.title == [] && n.className == [])
    && Roots(n.children) == ChildrenOf(w, n.hwnd)
    && AllFaithful(w, n.children)
  }

  predicate AllFaithful(w: Windows, l: seq<WindowNode>)
    decreases l
  {
    l == [] || (Faithful(w, l[0]) && AllFaithful(w, l[1..]))
  }

  lemma {:induction false} NodeFaithful(w: Windows, h: u64)
    requires !OnCycle(w, h)
    ensures Faithful(w, Node(w, h))
    decreases |Below(w, h)|, 1, 0
  {
    ChildrenSpec(w, h);
    NodesFaithful(w, h, ChildrenOf(w, h));
  }

  lemma {:induction false} NodesFaithful(w: Windows, h: u64, l: seq<u64>)
    requires !OnCycle(w, h) && AllBelow(w, h, l)
    ensures AllFaithful(w, Nodes(w, h, l)) && Roots(Nodes(w, h, l)) == l
    decreases |Below(w, h)|, 0, |l|
  {
    if l != [] {
      ChildOffCycle(w, h, l[0]);
      NodeFaithful(w, l[0]);
      NodesFaithful(w, h, l[1..]);
      assert Nodes(w, h, l)[1..] == Nodes(w, h, l[1..]);
    }
  }

  /** The windows in l and all windows below them. */
  ghost function Cover(w: Windows, l: seq<u64>): set<u64> {
    set x, c | x in w && c in l && Reaches(w, x, c) :: x
  }

  lemma CoverOfOne(w: Windows, c: u64)
    requires c in w
    ensures Cover(w, [c]) == {c} + Below(w, c)
  {
    assert Up(w, c, 0) == Some(c);
    forall x | x in Cover(w, [c]) ensures x in {c} + Below(w, c) {
      var k: nat :| Up(w, x, k) == Some(c);
      if k > 0 {
        assert Up(w, w[x].parent, k - 1) == Some(c);
      }
    }
    forall x | x in Below(w, c) ensures x in Cover(w, [c]) {
      var k: nat :| Up(w, w[x].parent, k) == Some(c);
      assert Up(w, x, k + 1) == Some(c);
    }
  }

  /** Two children of a window off every cycle have no window below both. */
  lemma OneChild(w: Windows, h: u64, x: u64, b: u64, c: u64)
    requires !OnCycle(w, h) && b in w && c in w && w[b].parent == h && w[c].parent == h
    requires Reaches(w, x, b) && Reaches(w, x, c)
    ensures b == c
  {
    var i: nat :| Up(w, x, i) == Some(b);
    var j: nat :| Up(w, x, j) == Some(c);
    UpOne(w, x, i, b);
    UpOne(w, x, j, c);
    if i < j {
      NotTwice(w, h, x, i + 1, j + 1);
    } else if j < i {
      NotTwice(w, h, x, j + 1, i + 1);
    }
  }

  lemma NotTwice(w: Windows, h: u64, x: u64, i: nat, j: nat)
    requires i < j && Up(w, x, i) == Some(h) && Up(w, x, j) == Some(h)
    ensures OnCycle(w, h)
  {
    UpAdd(w, x, i, j - i);
    assert Up(w, w[h].parent, j - i - 1) == Some(h);
  }

  lemma CoverSplit(w: Windows, h: u64, l: seq<u64>)
    requires !OnCycle(w, h) && AllBelow(w, h, l) && l != [] && l[0] !in l[1..]
    ensures Cover(w, l) == Cover(w, [l[0]]) + Cover(w, l[1..])
    ensures Cover(w, [l[0]]) !! Cover(w, l[1..])
  {
    forall x | x in Cover(w, [l[0]]) && x in Cover(w, l[1..]) ensures false {
      var c :| c in l[1..] && Reaches(w, x, c);
      OneChild(w, h, x, l[0], c);
    }
    assert forall c :: c in l <==> c == l[0] || c in l[1..];
  }

  lemma {:induction false} NodesContents(w: Windows, h: u64, l: seq<u64>)
    requires !OnCycle(w, h) && AllBelow(w, h, l) && Increasing(l)
    ensures multiset(FlatAll(Nodes(w, h, l))) == multiset(Cover(w, l))
    decreases |Below(w, h)|, 0, |l|
  {
    if l == [] {
      assert Cover(w, l) == {};
    } else {
      ChildOffCycle(w, h, l[0]);
      OneNodeContents(w, l[0]);
      NodesContents(w, h, l[1..]);
      CoverSplit(w, h, l);
      DisjointSum(Cover(w, [l[0]]), Cover(w, l[1..]));
      FlatMore(Node(w, l[0]), Nodes(w, h, l[1..]));
    }
  }

  lemma {:induction false} OneNodeContents(w: Windows, c: u64)
    requires !OnCycle(w, c) && c in w
    ensures multiset(Flat(Node(w, c))) == multiset(Cover(w, [c]))
    decreases |Below(w, c)|, 2, 0
  {
    NodeContents(w, c);
    CoverOfOne(w, c);
    DisjointSum({c}, Below(w, c));
  }

  lemma FlatMore(n: WindowNode, l: seq<WindowNode>)
    ensures multiset(FlatAll([n] + l)) == multiset(Flat(n)) + multiset(FlatAll(l))
  {
    assert ([n] + l)[1..] == l;
  }

  lemma DisjointSum<T>(a: set<T>, b: set<T>)
    requires a !! b
    ensures multiset(a + b) == multiset(a) + multiset(b)
  {
  }

  /** Below a window, its whole chain of descendants hangs under its children. */
  lemma ChildrenCover(w: Windows, h: u64)
    ensures Cover(w, ChildrenOf(w, h)) == Below(w, h)
  {
    ChildrenSpec(w, h);
    forall x | x in Below(w, h) ensures x in Cover(w, ChildrenOf(w, h)) {
      var k: nat :| Up(w, w[x].parent, k) == Some(h);
      var c := UpLast(w, x, k, h);
      assert c in ChildrenOf(w, h) && Reaches(w, x, c);
    }
    forall x | x in Cover(w, ChildrenOf(w, h)) ensures x in Below(w, h) {
      var c :| c in ChildrenOf(w, h) && Reaches(w, x, c);
      ReachesOn(w, x, c);
    }
  }

  /** A tree lists its root and every window whose parent chain reaches the root, each once. */
  lemma {:induction false} NodeContents(w: Windows, h: u64)
    requires !OnCycle(w, h)
    ensures multiset(Flat(Node(w, h))) == multiset{h} + multiset(Below(w, h))
    decreases |Below(w, h)|, 1, 0
  {
    ChildrenSpec(w, h);
    NodesContents(w, h, ChildrenOf(w, h));
    ChildrenCover(w, h);
  }

  /** The forest at 0 lists every window whose parent chain reaches 0 exactly once and no other
      window; its roots are the captured top list; every node has its window's children. */
  lemma WholeForest(w: Windows)
    requires !OnCycle(w, 0)
    ensures multiset(FlatAll(Tree(w, 0))) == multiset(Below(w, 0))
    ensures Roots(Tree(w, 0)) == ChildrenOf(w, 0)
    ensures AllFaithful(w, Tree(w, 0))
  {
    ChildrenSpec(w, 0);
    NodesContents(w, 0, ChildrenOf(w, 0));
    ChildrenCover(w, 0);
    NodeFaithful(w, 0);
  }

  lemma Subtree(w: Windows, root: u64)
    requires root != 0 && !OnCycle(w, root)
    ensures multiset(FlatAll(Tree(w, root))) == multiset{root} + multiset(Below(w, root))
    ensures Roots(Tree(w, root)) == [root]
    ensures AllFaithful(w, Tree(w, root))
  {
    NodeContents(w, root);
    NodeFaithful(w, root);
    assert FlatAll(Tree(w, root)) == Flat(Node(w, root)) + [];
  }

  /** A tree with these children at every node can only hang off a window on no cycle, and is
      the one built. */
  lemma {:induction false} FaithfulUnique(w: Windows, n: WindowNode)
    requires Faithful(w, n)
    ensures !OnCycle(w, n.hwnd) && n == Node(w, n.hwnd)
    decreases n
  {
    if OnCycle(w, n.hwnd) {
      var c := CycleChild(w, n.hwnd);
      ChildrenSpec(w, n.hwnd);
      FaithfulMember(w, n.children, c);
      assert false;
    }
    ChildrenSpec(w, n.hwnd);
    FaithfulNodes(w, n.hwnd, n.children);
  }

  lemma {:induction false} FaithfulMember(w: Windows, l: seq<WindowNode>, c: u64)
    requires AllFaithful(w, l) && c in Roots(l)
    ensures !OnCycle(w, c)
    decreases l
  {
    FaithfulUnique(w, l[0]);
    if c != l[0].hwnd {
      FaithfulMember(w, l[1..], c);
    }
  }

  lemma {:induction false} FaithfulNodes(w: Windows, h: u64, l: seq<WindowNode>)
    requires AllFaithful(w, l) && !OnCycle(w, h) && AllBelow(w, h, Roots(l))
    ensures l == Nodes(w, h, Roots(l))
    decreases l
  {
    if l != [] {
      FaithfulUnique(w, l[0]);
      assert Roots(l)[1..] == Roots(l[1..]);
      FaithfulNodes(w, h, l[1..]);
    }
  }
}
