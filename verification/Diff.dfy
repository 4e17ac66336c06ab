/** Win32Backend::poll_events and the numbering done by the events.poll handler. */
module Diff {
  import opened Bytes

  datatype EventKind = Created | Destroyed
  datatype Event = Event(number: nat, kind: EventKind, hwnd: u64)

  ghost predicate AtLeast(s: seq<u64>, m: u64) {
    forall i :: 0 <= i < |s| ==> m <= s[i]
  }

  ghost predicate Ascending(s: seq<u64>) {
    s == [] || (AtLeast(s[1..], s[0]) && Ascending(s[1..]))
  }

  lemma {:induction false} AscendingAt(s: seq<u64>, i: nat, j: nat)
    requires Ascending(s) && i <= j < |s|
    ensures s[i] <= s[j]
  {
    if i > 0 {
      AscendingAt(s[1..], i - 1, j - 1);
    } else if j > 0 {
      assert s[1..][j - 1] == s[j];
    }
  }

  lemma Split(s: seq<u64>)
    requires s != []
    ensures multiset(s) == multiset{s[0]} + multiset(s[1..])
  {
    assert s == [s[0]] + s[1..];
  }

  lemma AtLeastWithin(s: seq<u64>, t: seq<u64>, m: u64)
    requires multiset(s) <= multiset(t) && AtLeast(t, m)
    ensures AtLeast(s, m)
  {
    forall i | 0 <= i < |s| ensures m <= s[i] {
      assert s[i] in multiset(s);
      assert s[i] in t;
    }
  }

  lemma AtLeastCons(x: u64, s: seq<u64>)
    requires AtLeast(s, x) && Ascending(s)
    ensures Ascending([x] + s) && multiset([x] + s) == multiset{x} + multiset(s)
  {
    assert ([x] + s)[1..] == s;
  }

  // ---- sorted ----

  function Place(x: u64, s: seq<u64>): seq<u64> {
    if s == [] || x <= s[0] then [x] + s else [s[0]] + Place(x, s[1..])
  }

  function Sorted(s: seq<u64>): seq<u64> {
    if s == [] then [] else Place(s[0], Sorted(s[1..]))
  }

  lemma {:induction false} PlaceSpec(x: u64, s: seq<u64>)
    requires Ascending(s)
    ensures Ascending(Place(x, s))
    ensures multiset(Place(x, s)) == multiset{x} + multiset(s)
  {
    if s == [] {
    } else if x <= s[0] {
      AtLeastCons(x, s);
    } else {
      Split(s);
      PlaceSpec(x, s[1..]);
      AtLeastWithin(Place(x, s[1..]), [x] + s[1..], s[0]);
      AtLeastCons(s[0], Place(x, s[1..]));
    }
  }

  lemma {:induction false} SortedSpec(s: seq<u64>)
    ensures Ascending(Sorted(s))
    ensures multiset(Sorted(s)) == multiset(s)
  {
    if s != [] {
      Split(s);
      SortedSpec(s[1..]);
      PlaceSpec(s[0], Sorted(s[1..]));
    }
  }

  // ---- std::set_difference on two ascending ranges ----

  /** The elements of a that the merge does not match with an element of b. */
  function Difference(a: seq<u64>, b: seq<u64>): seq<u64>
    decreases |a| + |b|
  {
    if a == [] then []
    else if b == [] then a
    else if a[0] < b[0] then [a[0]] + Difference(a[1..], b)
    else if b[0] < a[0] then Difference(a, b[1..])
    else Difference(a[1..], b[1..])
  }

  /** The merge computes multiset difference. */
  lemma {:induction false} DifferenceCounts(a: seq<u64>, b: seq<u64>)
    requires Ascending(a) && Ascending(b)
    ensures multiset(Difference(a, b)) == multiset(a) - multiset(b)
    decreases |a| + |b|
  {
    if a != [] && b != [] {
      if a[0] < b[0] {
        DifferenceCounts(a[1..], b);
        Absent(a[0], b);
        TakeCounts(a, b, Difference(a[1..], b));
      } else if b[0] < a[0] {
        DifferenceCounts(a, b[1..]);
        Absent(b[0], a);
        SkipCounts(a, b, Difference(a, b[1..]));
      } else {
        DifferenceCounts(a[1..], b[1..]);
        MatchCounts(a, b, Difference(a[1..], b[1..]));
      }
    }
  }

  lemma TakeCounts(a: seq<u64>, b: seq<u64>, d: seq<u64>)
    requires a != [] && a[0] !in multiset(b) && multiset(d) == multiset(a[1..]) - multiset(b)
    ensures multiset([a[0]] + d) == multiset(a) - multiset(b)
  {
    Split(a);
    TakeOne(a[0], multiset(a[1..]), multiset(b));
  }

  lemma SkipCounts(a: seq<u64>, b: seq<u64>, d: seq<u64>)
    requires b != [] && b[0] !in multiset(a) && multiset(d) == multiset(a) - multiset(b[1..])
    ensures multiset(d) == multiset(a) - multiset(b)
  {
    Split(b);
    SkipOne(b[0], multiset(a), multiset(b[1..]));
  }

  lemma MatchCounts(a: seq<u64>, b: seq<u64>, d: seq<u64>)
    requires a != [] && b != [] && a[0] == b[0] && multiset(d) == multiset(a[1..]) - multiset(b[1..])
    ensures multiset(d) == multiset(a) - multiset(b)
  {
    Split(a);
    Split(b);
    MatchOne(a[0], multiset(a[1..]), multiset(b[1..]));
  }

  /** And its output is ascending. */
  lemma {:induction false} DifferenceAscending(a: seq<u64>, b: seq<u64>)
    requires Ascending(a) && Ascending(b)
    ensures Ascending(Difference(a, b))
    decreases |a| + |b|
  {
    if a != [] && b != [] {
      if a[0] < b[0] {
        DifferenceAscending(a[1..], b);
        DifferenceCounts(a[1..], b);
        AtLeastWithin(Difference(a[1..], b), a[1..], a[0]);
        AtLeastCons(a[0], Difference(a[1..], b));
      } else if b[0] < a[0] {
        DifferenceAscending(a, b[1..]);
      } else {
        DifferenceAscending(a[1..], b[1..]);
      }
    }
  }

  lemma Absent(x: u64, s: seq<u64>)
    requires s != [] && Ascending(s) && x < s[0]
    ensures x !in multiset(s)
  {
    assert s == [s[0]] + s[1..];
  }

  lemma TakeOne<T>(x: T, a: multiset<T>, b: multiset<T>)
    requires x !in b
    ensures (multiset{x} + a) - b == multiset{x} + (a - b)
  {
  }

  lemma SkipOne<T>(x: T, a: multiset<T>, b: multiset<T>)
    requires x !in a
    ensures a - (multiset{x} + b) == a - b
  {
  }

  lemma MatchOne<T>(x: T, a: multiset<T>, b: multiset<T>)
    ensures (multiset{x} + a) - (multiset{x} + b) == a - b
  {
  }

  method SetDifference(a: seq<u64>, b: seq<u64>) returns (r: seq<u64>)
    ensures r == Difference(a, b)
  {
    r := [];
    var i, j := 0, 0;
    while i < |a| && j < |b|
      invariant i <= |a| && j <= |b|
      invariant r + Difference(a[i..], b[j..]) == Difference(a, b)
      decreases |a| - i + |b| - j
    {
      assert a[i..][1..] == a[i + 1..] && b[j..][1..] == b[j + 1..];
      if a[i] < b[j] {
        assert r + ([a[i]] + Difference(a[i + 1..], b[j..])) == (r + [a[i]]) + Difference(a[i + 1..], b[j..]);
        r := r + [a[i]];
        i := i + 1;
      } else {
        if !(b[j] < a[i]) {
          i := i + 1;
        }
        j := j + 1;
      }
    }
    r := r + a[i..];
  }

  // ---- poll_events ----

  function Tagged(kind: EventKind, s: seq<u64>): (r: seq<Event>)
    ensures |r| == |s|
    ensures forall i :: 0 <= i < |s| ==> r[i] == Event(0, kind, s[i])
  {
    seq(|s|, i requires 0 <= i < |s| => Event(0, kind, s[i]))
  }

  function PollEvents(old_top: seq<u64>, new_top: seq<u64>): seq<Event> {
    var o, n := Sorted(old_top), Sorted(new_top);
    Tagged(Created, Difference(n, o)) + Tagged(Destroyed, Difference(o, n))
  }

  method ComputeEvents(old_top: seq<u64>, new_top: seq<u64>) returns (out: seq<Event>)
    ensures out == PollEvents(old_top, new_top)
  {
    out := [];
    var o, n := Sorted(old_top), Sorted(new_top);
    var created := SetDifference(n, o);
    for k := 0 to |created|
      invariant out == Tagged(Created, created[..k])
    {
      TaggedPush(Created, created, k);
      out := out + [Event(0, Created, created[k])];
    }
    assert created[..|created|] == created;
    var destroyed := SetDifference(o, n);
    for k := 0 to |destroyed|
      invariant out == Tagged(Created, created) + Tagged(Destroyed, destroyed[..k])
    {
      TaggedPush(Destroyed, destroyed, k);
      out := out + [Event(0, Destroyed, destroyed[k])];
    }
    assert destroyed[..|destroyed|] == destroyed;
  }

  lemma TaggedPush(kind: EventKind, s: seq<u64>, k: nat)
    requires k < |s|
    ensures Tagged(kind, s[..k + 1]) == Tagged(kind, s[..k]) + [Event(0, kind, s[k])]
  {
  }

  function Renumbered(events: seq<Event>): seq<Event> {
    seq(|events|, i requires 0 <= i < |events| => events[i].(number := i + 1))
  }

  /** The events.poll handler renumbers the events in place, from 1. */
  method NumberEvents(events: seq<Event>) returns (out: seq<Event>)
    ensures |out| == |events|
    ensures forall i :: 0 <= i < |out| ==> out[i] == events[i].(number := i + 1)
    ensures out == Renumbered(events)
  {
    out := events;
    for i := 0 to |events|
      invariant |out| == |events|
      invariant forall k :: 0 <= k < i ==> out[k] == events[k].(number := k + 1)
      invariant forall k :: i <= k < |out| ==> out[k] == events[k]
    {
      out := out[i := out[i].(number := i + 1)];
    }
  }

  // ---- what the events mean ----

  /** The handles of the events of one kind. */
  function Handles(events: seq<Event>, kind: EventKind): multiset<u64> {
    if events == [] then multiset{}
    else if events[0].kind == kind then multiset{events[0].hwnd} + Handles(events[1..], kind)
    else Handles(events[1..], kind)
  }

  lemma {:induction false} HandlesConcat(a: seq<Event>, b: seq<Event>, kind: EventKind)
    ensures Handles(a + b, kind) == Handles(a, kind) + Handles(b, kind)
  {
    if a == [] {
      assert a + b == b;
    } else {
      HandlesConcat(a[1..], b, kind);
      assert (a + b)[1..] == a[1..] + b && (a + b)[0] == a[0];
      var x, y := Handles(a[1..], kind), Handles(b, kind);
      assert multiset{a[0].hwnd} + (x + y) == (multiset{a[0].hwnd} + x) + y;
    }
  }

  lemma {:induction false} HandlesTagged(s: seq<u64>, k: EventKind, kind: EventKind)
    ensures Handles(Tagged(k, s), kind) == if k == kind then multiset(s) else multiset{}
  {
    if s != [] {
      HandlesTagged(s[1..], k, kind);
      assert Tagged(k, s)[1..] == Tagged(k, s[1..]);
      Split(s);
    }
  }

  /** Created handles are the new ones beyond the old, destroyed handles the reverse. */
  lemma EventHandles(o: seq<u64>, n: seq<u64>)
    ensures Handles(PollEvents(o, n), Created) == multiset(n) - multiset(o)
    ensures Handles(PollEvents(o, n), Destroyed) == multiset(o) - multiset(n)
  {
    var so, sn := Sorted(o), Sorted(n);
    SortedSpec(o);
    SortedSpec(n);
    DifferenceCounts(sn, so);
    DifferenceCounts(so, sn);
    var c, d := Tagged(Created, Difference(sn, so)), Tagged(Destroyed, Difference(so, sn));
    HandlesConcat(c, d, Created);
    HandlesConcat(c, d, Destroyed);
    HandlesTagged(Difference(sn, so), Created, Created);
    HandlesTagged(Difference(sn, so), Created, Destroyed);
    HandlesTagged(Difference(so, sn), Destroyed, Created);
    HandlesTagged(Difference(so, sn), Destroyed, Destroyed);
  }

  /** Replaying the events on the old windows gives the new ones; no handle is both created
      and destroyed; each block is ascending; and there are no events exactly when the two
      lists are permutations of each other. */
  lemma DiffReplays(o: seq<u64>, n: seq<u64>)
    ensures var e := PollEvents(o, n);
            && multiset(o) - Handles(e, Destroyed) + Handles(e, Created) == multiset(n)
            && Handles(e, Destroyed) <= multiset(o)
            && Handles(e, Created) !! Handles(e, Destroyed)
            && (e == [] <==> multiset(o) == multiset(n))
  {
    EventHandles(o, n);
    MultisetReplay(multiset(o), multiset(n));
    SomeHandle(PollEvents(o, n));
  }

  lemma MultisetReplay<T>(o: multiset<T>, n: multiset<T>)
    ensures o - (o - n) + (n - o) == n
    ensures o - n <= o
    ensures (n - o) !! (o - n)
    ensures o == n <==> (o - n) + (n - o) == multiset{}
  {
    if (o - n) + (n - o) == multiset{} {
      assert forall x :: ((o - n) + (n - o))[x] == 0;
    }
  }

  lemma SomeHandle(e: seq<Event>)
    ensures e == [] <==> Handles(e, Destroyed) + Handles(e, Created) == multiset{}
  {
    if e != [] {
      assert e[0].hwnd in Handles(e, e[0].kind);
      assert e[0].hwnd in Handles(e, Destroyed) + Handles(e, Created);
    }
  }

  ghost predicate OrderedPair(e: seq<Event>, i: nat, j: nat)
    requires i < |e| && j < |e|
  {
    if e[i].kind == e[j].kind then e[i].hwnd <= e[j].hwnd
    else e[i].kind == Created && e[j].kind == Destroyed
  }

  /** Created events come first, and each block is in ascending handle order. */
  lemma EventOrder(o: seq<u64>, n: seq<u64>, i: nat, j: nat)
    requires i < j < |PollEvents(o, n)|
    ensures OrderedPair(PollEvents(o, n), i, j)
  {
    SortedSpec(o);
    SortedSpec(n);
    DifferenceAscending(Sorted(n), Sorted(o));
    DifferenceAscending(Sorted(o), Sorted(n));
    BlocksOrdered(Difference(Sorted(n), Sorted(o)), Difference(Sorted(o), Sorted(n)), i, j);
  }

  lemma BlocksOrdered(c: seq<u64>, d: seq<u64>, i: nat, j: nat)
    requires Ascending(c) && Ascending(d) && i < j < |c| + |d|
    ensures OrderedPair(Tagged(Created, c) + Tagged(Destroyed, d), i, j)
  {
    if j < |c| {
      AscendingAt(c, i, j);
    } else if i >= |c| {
      AscendingAt(d, i - |c|, j - |c|);
    }
    PairOrdered(c, d, i, j);
  }

  lemma PairOrdered(c: seq<u64>, d: seq<u64>, i: nat, j: nat)
    requires i < j < |c| + |d|
    requires j < |c| ==> c[i] <= c[j]
    requires i >= |c| ==> d[i - |c|] <= d[j - |c|]
    ensures OrderedPair(Tagged(Created, c) + Tagged(Destroyed, d), i, j)
  {
  }

  /** Net change of one handle: how often created minus how often destroyed. */
  function Net(events: seq<Event>, h: u64): int {
    Handles(events, Created)[h] as int - Handles(events, Destroyed)[h] as int
  }

  lemma NetOfPoll(o: seq<u64>, n: seq<u64>, h: u64)
    ensures multiset(o)[h] + Net(PollEvents(o, n), h) == multiset(n)[h]
  {
    EventHandles(o, n);
  }

  lemma NetConcat(a: seq<Event>, b: seq<Event>, h: u64)
    ensures Net(a + b, h) == Net(a, h) + Net(b, h)
  {
    HandlesConcat(a, b, Created);
    HandlesConcat(a, b, Destroyed);
  }
}
