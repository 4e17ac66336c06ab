/** The eviction loop of snapshot.capture, seen on the LRU list alone. */
module Eviction {
  /** The listed ids with a positive pin count, in list order. */
  function Pinned<T(==)>(l: seq<T>, p: set<T>): (r: seq<T>)
    ensures |r| <= |l|
  {
    if l == [] then []
    else if l[0] in p then [l[0]] + Pinned(l[1..], p)
    else Pinned(l[1..], p)
  }

  /** The other listed ids, in list order. */
  function Unpinned<T(==)>(l: seq<T>, p: set<T>): (r: seq<T>)
    ensures |r| <= |l|
  {
    if l == [] then []
    else if l[0] in p then Unpinned(l[1..], p)
    else [l[0]] + Unpinned(l[1..], p)
  }

  lemma {:induction false} FilterLengths<T>(l: seq<T>, p: set<T>)
    ensures |Unpinned(l, p)| + |Pinned(l, p)| == |l|
  {
    if l != [] {
      FilterLengths(l[1..], p);
    }
  }

  lemma {:induction false} FilterMembers<T>(l: seq<T>, p: set<T>, x: T)
    ensures x in Pinned(l, p) <==> x in l && x in p
    ensures x in Unpinned(l, p) <==> x in l && x !in p
  {
    if l != [] {
      FilterMembers(l[1..], p, x);
      assert l == [l[0]] + l[1..];
    }
  }

  lemma FilterSets<T>(l: seq<T>, p: set<T>)
    ensures forall x :: x in Pinned(l, p) <==> x in l && x in p
    ensures forall x :: x in Unpinned(l, p) <==> x in l && x !in p
  {
    forall x ensures x in Pinned(l, p) <==> x in l && x in p
             ensures x in Unpinned(l, p) <==> x in l && x !in p {
      FilterMembers(l, p, x);
    }
  }

  ghost predicate NoDup<T>(l: seq<T>) {
    forall i, j :: 0 <= i < j < |l| ==> l[i] != l[j]
  }

  ghost function Elements<T>(l: seq<T>): set<T> {
    set x | x in l
  }

  // ---- the loop, one iteration at a time ----

  /** One iteration: a pinned front id goes to the back, any other front id is dropped. */
  function Iteration<T(==)>(l: seq<T>, p: set<T>): seq<T>
    requires l != []
  {
    l[1..] + if l[0] in p then [l[0]] else []
  }

  /** The list after at most n iterations of the loop guarded by |l| > max. */
  function Iterate<T(==)>(l: seq<T>, p: set<T>, max: nat, n: nat): seq<T>
    decreases n
  {
    if n == 0 || |l| <= max then l else Iterate(Iteration(l, p), p, max, n - 1)
  }

  ghost predicate LoopEnds<T>(l: seq<T>, p: set<T>, max: nat) {
    exists n: nat :: |Iterate(l, p, max, n)| <= max
  }

  // ---- the closed form ----

  /** Length of the shortest prefix of l that holds k unpinned ids. */
  function Cut<T(==)>(l: seq<T>, p: set<T>, k: nat): (c: nat)
    requires k <= |Unpinned(l, p)|
    ensures c <= |l|
  {
    if k == 0 then 0 else 1 + Cut(l[1..], p, if l[0] in p then k else k - 1)
  }

  /** Cut is that prefix length: it holds k unpinned ids and no shorter prefix does. */
  lemma {:induction false} CutSpec<T>(l: seq<T>, p: set<T>, k: nat, q: nat)
    requires k <= |Unpinned(l, p)| && q <= |l|
    ensures q == Cut(l, p, k) ==> |Unpinned(l[..q], p)| == k
    ensures q < Cut(l, p, k) ==> |Unpinned(l[..q], p)| < k
  {
    if k > 0 && q > 0 {
      CutSpec(l[1..], p, if l[0] in p then k else k - 1, q - 1);
      assert l[..q][1..] == l[1..][..q - 1];
    }
  }

  function Excess<T(==)>(l: seq<T>, max: nat): nat {
    if |l| <= max then 0 else |l| - max
  }

  /** What stays: everything behind the cut, then the pinned ids the loop passed over. */
  function Survivors<T(==)>(l: seq<T>, p: set<T>, max: nat): (r: seq<T>)
    requires |Pinned(l, p)| <= max
  {
    FilterLengths(l, p);
    var c := Cut(l, p, Excess(l, max));
    l[c..] + Pinned(l[..c], p)
  }

  /** What goes. */
  function Evicted<T(==)>(l: seq<T>, p: set<T>, max: nat): (r: seq<T>)
    requires |Pinned(l, p)| <= max
    ensures |r| == Excess(l, max)
  {
    FilterLengths(l, p);
    CutSpec(l, p, Excess(l, max), Cut(l, p, Excess(l, max)));
    Unpinned(l[..Cut(l, p, Excess(l, max))], p)
  }

  // ---- the loop refines the closed form ----

  lemma Associative<T>(x: T, a: seq<T>, b: seq<T>)
    ensures ([x] + a) + b == [x] + (a + b)
  {
  }

  lemma {:induction false} PinnedConcat<T>(a: seq<T>, b: seq<T>, p: set<T>)
    ensures Pinned(a + b, p) == Pinned(a, p) + Pinned(b, p)
  {
    if a == [] {
      assert a + b == b;
      assert Pinned(a, p) == [];
    } else {
      PinnedConcat(a[1..], b, p);
      assert (a + b)[1..] == a[1..] + b;
      Associative(a[0], Pinned(a[1..], p), Pinned(b, p));
    }
  }

  lemma {:induction false} UnpinnedConcat<T>(a: seq<T>, b: seq<T>, p: set<T>)
    ensures Unpinned(a + b, p) == Unpinned(a, p) + Unpinned(b, p)
  {
    if a == [] {
      assert a + b == b;
      assert Unpinned(a, p) == [];
    } else {
      UnpinnedConcat(a[1..], b, p);
      assert (a + b)[1..] == a[1..] + b;
      Associative(a[0], Unpinned(a[1..], p), Unpinned(b, p));
    }
  }

  lemma PinnedOfIteration<T>(l: seq<T>, p: set<T>)
    requires l != []
    ensures |Pinned(Iteration(l, p), p)| == |Pinned(l, p)|
  {
    PinnedConcat(l[1..], if l[0] in p then [l[0]] else [], p);
  }

  lemma {:induction false} PinnedOfIterate<T>(l: seq<T>, p: set<T>, max: nat, n: nat)
    ensures |Pinned(Iterate(l, p, max, n), p)| == |Pinned(l, p)|
    decreases n
  {
    if n > 0 && |l| > max {
      PinnedOfIteration(l, p);
      PinnedOfIterate(Iteration(l, p), p, max, n - 1);
    }
  }

  /** After j of the first Cut iterations the list is the rest of l, then the ids passed over. */
  lemma {:induction false} IterateRotates<T>(l: seq<T>, t: seq<T>, p: set<T>, max: nat)
    requires |Pinned(l, p)| + |t| <= max
    requires |l| + |t| >= max
    ensures |l| + |t| - max <= |Unpinned(l, p)|
    ensures var c := Cut(l, p, |l| + |t| - max);
            Iterate(l + t, p, max, c) == l[c..] + t + Pinned(l[..c], p)
    decreases |l|
  {
    var k := |l| + |t| - max;
    FilterLengths(l, p);
    if k == 0 {
      assert l[0..] + t + Pinned(l[..0], p) == l + t;
    } else {
      var t' := if l[0] in p then t + [l[0]] else t;
      assert Iteration(l + t, p) == l[1..] + t';
      IterateRotates(l[1..], t', p, max);
      var c := Cut(l, p, k);
      assert Iterate(l + t, p, max, c) == Iterate(l[1..] + t', p, max, c - 1);
      RotateStep(l, t, p, c);
    }
  }

  lemma RotateStep<T>(l: seq<T>, t: seq<T>, p: set<T>, c: nat)
    requires 0 < c <= |l|
    ensures var t' := if l[0] in p then t + [l[0]] else t;
            l[1..][c - 1..] + t' + Pinned(l[1..][..c - 1], p) == l[c..] + t + Pinned(l[..c], p)
  {
    assert l[..c][1..] == l[1..][..c - 1];
    assert l[1..][c - 1..] == l[c..];
    var q := Pinned(l[1..][..c - 1], p);
    assert (t + [l[0]]) + q == t + ([l[0]] + q);
    assert l[c..] + (t + [l[0]]) + q == l[c..] + t + ([l[0]] + q);
  }

  /** The loop ends exactly when at most max listed ids are pinned, and then in Survivors. */
  lemma LoopEndsIff<T>(l: seq<T>, p: set<T>, max: nat)
    ensures LoopEnds(l, p, max) <==> |Pinned(l, p)| <= max
    ensures |Pinned(l, p)| <= max ==>
      exists n: nat :: |Iterate(l, p, max, n)| <= max && Iterate(l, p, max, n) == Survivors(l, p, max)
  {
    if LoopEnds(l, p, max) {
      var n: nat :| |Iterate(l, p, max, n)| <= max;
      PinnedOfIterate(l, p, max, n);
    }
    if |Pinned(l, p)| <= max {
      SurvivorsLength(l, p, max);
      if |l| <= max {
        assert Iterate(l, p, max, 0) == l == Survivors(l, p, max);
      } else {
        FilterLengths(l, p);
        var c := Cut(l, p, Excess(l, max));
        IterateRotates(l, [], p, max);
        assert l + [] == l && l[c..] + [] == l[c..];
        assert Iterate(l, p, max, c) == Survivors(l, p, max);
      }
    }
  }

  lemma {:induction false} IterateStable<T>(l: seq<T>, p: set<T>, max: nat, m: nat, n: nat)
    requires |Iterate(l, p, max, m)| <= max && |Iterate(l, p, max, n)| <= max
    ensures Iterate(l, p, max, m) == Iterate(l, p, max, n)
    decreases m
  {
    if m > 0 && n > 0 && |l| > max {
      IterateStable(Iteration(l, p), p, max, m - 1, n - 1);
    }
  }

  // ---- what the closed form keeps ----

  lemma SurvivorsLength<T>(l: seq<T>, p: set<T>, max: nat)
    requires |Pinned(l, p)| <= max
    ensures |Survivors(l, p, max)| == if |l| <= max then |l| else max
  {
    FilterLengths(l, p);
    var c := Cut(l, p, Excess(l, max));
    CutSpec(l, p, Excess(l, max), c);
    FilterLengths(l[..c], p);
  }

  /** Survivors and evicted ids together are the listed ids; no pinned id is evicted. */
  lemma SurvivorsPartition<T>(l: seq<T>, p: set<T>, max: nat, x: T)
    requires |Pinned(l, p)| <= max
    ensures x in l <==> x in Survivors(l, p, max) || x in Evicted(l, p, max)
    ensures x in Evicted(l, p, max) ==> x !in p
    ensures NoDup(l) && x in Evicted(l, p, max) ==> x !in Survivors(l, p, max)
  {
    FilterLengths(l, p);
    var c := Cut(l, p, Excess(l, max));
    FilterMembers(l[..c], p, x);
    SplitMembers(l, c, x);
  }

  lemma SplitMembers<T>(l: seq<T>, c: nat, x: T)
    requires c <= |l|
    ensures x in l <==> x in l[..c] || x in l[c..]
    ensures NoDup(l) && x in l[..c] ==> x !in l[c..]
  {
    assert l == l[..c] + l[c..];
    if NoDup(l) && x in l[..c] {
      var i :| 0 <= i < c && l[i] == x;
      forall j | c <= j < |l| ensures l[j] != x {
        assert l[i] != l[j];
      }
    }
  }

  lemma SurvivorsDistinct<T>(l: seq<T>, p: set<T>, max: nat)
    requires |Pinned(l, p)| <= max && NoDup(l)
    ensures NoDup(Survivors(l, p, max))
  {
    FilterLengths(l, p);
    var c := Cut(l, p, Excess(l, max));
    NoDupPinned(l[..c], p);
    FilterSets(l[..c], p);
    NoDupConcat(l[c..], Pinned(l[..c], p));
  }

  lemma NoDupConcat<T>(a: seq<T>, b: seq<T>)
    requires NoDup(a) && NoDup(b)
    requires forall x :: x in b ==> x !in a
    ensures NoDup(a + b)
  {
    forall i, j | 0 <= i < j < |a + b| ensures (a + b)[i] != (a + b)[j] {
      if i < |a| <= j {
        assert b[j - |a|] in b;
      }
    }
  }

  lemma {:induction false} NoDupPinned<T>(l: seq<T>, p: set<T>)
    requires NoDup(l)
    ensures NoDup(Pinned(l, p))
  {
    if l != [] {
      NoDupPinned(l[1..], p);
      FilterSets(l[1..], p);
      assert l[0] !in l[1..];
    }
  }

  /** The evicted ids are the oldest unpinned ones, as many as the list was too long. */
  lemma EvictedAreOldest<T>(l: seq<T>, p: set<T>, max: nat)
    requires |Pinned(l, p)| <= max
    ensures Excess(l, max) <= |Unpinned(l, p)|
    ensures Evicted(l, p, max) == Unpinned(l, p)[..Excess(l, max)]
  {
    FilterLengths(l, p);
    var c := Cut(l, p, Excess(l, max));
    UnpinnedConcat(l[..c], l[c..], p);
    assert l[..c] + l[c..] == l;
  }

  /** A fresh unpinned id at the back stays exactly when fewer than max ids are pinned. */
  lemma NewestSurvivesIff<T>(l: seq<T>, x: T, p: set<T>, max: nat)
    requires NoDup(l + [x]) && x !in p
    requires |Pinned(l + [x], p)| <= max
    ensures x in Survivors(l + [x], p, max) <==> |Pinned(l, p)| < max
  {
    var m := l + [x];
    FilterLengths(l, p);
    PinnedConcat(l, [x], p);
    UnpinnedConcat(l, [x], p);
    assert Pinned([x], p) == [] && Unpinned([x], p) == [x];
    EvictedAreOldest(m, p, max);
    SurvivorsPartition(m, p, max, x);
    var k, u := Excess(m, max), Unpinned(l, p);
    assert Evicted(m, p, max) == (u + [x])[..k];
    FilterMembers(l, p, x);
    assert x !in l by {
      assert m[|l|] == x && forall i :: 0 <= i < |l| ==> m[i] == l[i];
    }
    if k == |u| + 1 {
      assert (u + [x])[..k] == u + [x];
    } else {
      assert (u + [x])[..k] == u[..k];
    }
  }
}
