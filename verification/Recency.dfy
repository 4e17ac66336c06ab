/** The order of the LRU list: sorted by last touch, as long as TCP lookups allow. */
module Recency {
  import opened Ids
  import opened Eviction
  import opened Stores
  import opened Daemon
  import opened StoreSafety

  /** Listed ids have touch times, strictly increasing along the list. */
  ghost predicate SortedByTouch(l: seq<Id>, touch: map<Id, nat>) {
    && (forall i :: 0 <= i < |l| ==> l[i] in touch)
    && (forall i, j :: 0 <= i < j < |l| ==> touch[l[i]] < touch[l[j]])
  }

  ghost predicate BeforeClock(touch: map<Id, nat>, clock: nat) {
    forall id :: id in touch ==> touch[id] < clock
  }

  /** Touching ids in order and moving them to the back keeps the list sorted. */
  lemma {:induction false} TouchMoves(l: seq<Id>, moved: seq<Id>, touch: map<Id, nat>, clock: nat)
    requires SortedByTouch(l, touch) && BeforeClock(touch, clock)
    requires NoDup(l + moved)
    ensures SortedByTouch(l + moved, TouchAll(touch, clock, moved))
    ensures BeforeClock(TouchAll(touch, clock, moved), clock + |moved|)
    decreases |moved|
  {
    if moved == [] {
      assert l + moved == l;
    } else {
      var touch', l' := touch[moved[0] := clock], l + [moved[0]];
      assert l + moved == l' + moved[1..];
      assert forall i :: 0 <= i < |l| ==> l[i] != moved[0] by {
        assert forall i :: 0 <= i < |l| ==> (l + moved)[i] == l[i];
        assert (l + moved)[|l|] == moved[0];
      }
      TouchMoves(l', moved[1..], touch', clock + 1);
    }
  }

  lemma {:induction false} WithoutSorted(l: seq<Id>, x: Id, touch: map<Id, nat>)
    requires SortedByTouch(l, touch) && NoDup(l)
    ensures SortedByTouch(Without(l, x), touch)
  {
    if l != [] {
      WithoutSorted(l[1..], x, touch);
      WithoutSpec(l[1..], x);
      forall y | y in Without(l[1..], x) ensures touch[l[0]] < touch[y] {
        var i :| 0 <= i < |l[1..]| && l[1..][i] == y;
        assert l[i + 1] == y;
      }
    }
  }

  lemma SuffixSorted(l: seq<Id>, c: nat, touch: map<Id, nat>)
    requires SortedByTouch(l, touch) && c <= |l|
    ensures SortedByTouch(l[c..], touch)
  {
  }

  // ---- the steps ----

  lemma TouchAllConcat(touch: map<Id, nat>, clock: nat, x: Id, l: seq<Id>)
    ensures TouchAll(touch, clock, [x] + l) == TouchAll(touch[x := clock], clock + 1, l)
  {
    assert ([x] + l)[1..] == l;
  }

  lemma InsertSorted(st: Store, s: Snapshot, touch: map<Id, nat>, clock: nat)
    requires SortedByTouch(st.lru, touch) && BeforeClock(touch, clock) && NoDup(st.lru + [NextId(st)])
    ensures SortedByTouch(Insert(st, s).lru, touch[NextId(st) := clock])
    ensures BeforeClock(touch[NextId(st) := clock], clock + 1)
  {
    TouchMoves(st.lru, [NextId(st)], touch, clock);
    TouchAllConcat(touch, clock, NextId(st), []);
    assert [NextId(st)] + [] == [NextId(st)];
  }

  lemma EvictSorted(st: Store, max: nat, touch: map<Id, nat>, clock: nat)
    requires SortedByTouch(st.lru, touch) && BeforeClock(touch, clock) && NoDup(st.lru) && EvictionEnds(st, max)
    ensures SortedByTouch(Evict(st, max).lru, TouchAll(touch, clock, PassedOver(st, max)))
    ensures BeforeClock(TouchAll(touch, clock, PassedOver(st, max)), clock + |PassedOver(st, max)|)
  {
    var p := PinnedIds(st.pins);
    FilterLengths(st.lru, p);
    var c := Cut(st.lru, p, Excess(st.lru, max));
    SurvivorsDistinct(st.lru, p, max);
    SuffixSorted(st.lru, c, touch);
    TouchMoves(st.lru[c..], Pinned(st.lru[..c], p), touch, clock);
  }

  lemma RefreshSorted(l: seq<Id>, id: Id, touch: map<Id, nat>, clock: nat)
    requires SortedByTouch(l, touch) && BeforeClock(touch, clock) && NoDup(l)
    ensures SortedByTouch(Without(l, id) + [id], touch[id := clock])
    ensures BeforeClock(touch[id := clock], clock + 1)
  {
    WithoutSpec(l, id);
    WithoutSorted(l, id, touch);
    NoDupConcat(Without(l, id), [id]);
    TouchMoves(Without(l, id), [id], touch, clock);
    TouchAllConcat(touch, clock, id, []);
    assert [id] + [] == [id];
  }

  ghost predicate RecencyInv(w: World) {
    SortedByTouch(w.store.lru, w.hist.touch) && BeforeClock(w.hist.touch, w.hist.clock)
  }

  lemma TouchOne(touch: map<Id, nat>, clock: nat, id: Id)
    ensures TouchAll(touch, clock, [id]) == touch[id := clock]
  {
    TouchAllConcat(touch, clock, id, []);
    assert [id] + [] == [id];
  }

  lemma CaptureSorted(st: Store, s: Snapshot, max: nat, touch: map<Id, nat>, clock: nat)
    requires SortedByTouch(st.lru, touch) && BeforeClock(touch, clock) && NoDup(st.lru + [NextId(st)])
    requires EvictionEnds(Insert(st, s), max)
    ensures var touched := [NextId(st)] + PassedOver(Insert(st, s), max);
            && SortedByTouch(Evict(Insert(st, s), max).lru, TouchAll(touch, clock, touched))
            && BeforeClock(TouchAll(touch, clock, touched), clock + |touched|)
  {
    InsertSorted(st, s, touch, clock);
    EvictSorted(Insert(st, s), max, touch[NextId(st) := clock], clock + 1);
    TouchAllConcat(touch, clock, NextId(st), PassedOver(Insert(st, s), max));
  }

  /** A step that touches an id without moving it to the back: a TCP lookup of a stored id other
      than the last of the list. */
  ghost predicate LeavesBehind(w: World, a: Action) {
    && a.LookUp? && a.c in w.conns && w.conns[a.c].transport.Tcp? && LookUpHits(w, a.c)
    && w.store.lru != [] && w.store.lru[|w.store.lru| - 1] != w.conns[a.c].req.snapshotId.value
  }

  /** Touching an id of a sorted list in place keeps it sorted exactly when it is the last one. */
  lemma TouchInPlace(l: seq<Id>, id: Id, touch: map<Id, nat>, clock: nat)
    requires SortedByTouch(l, touch) && BeforeClock(touch, clock) && id in l
    ensures SortedByTouch(l, touch[id := clock]) <==> l[|l| - 1] == id
  {
    var i :| 0 <= i < |l| && l[i] == id;
    var touch' := touch[id := clock];
    if l[|l| - 1] != id {
      assert i < |l| - 1 && touch'[l[i]] == clock && touch'[l[|l| - 1]] < clock;
    } else {
      assert forall j :: 0 <= j < |l| - 1 ==> l[j] != id by {
        assert forall j :: 0 <= j < |l| - 1 ==> touch[l[j]] < touch[l[|l| - 1]];
      }
    }
  }

  lemma LookUpSorted(cfg: Config, w: World, a: Action)
    requires StoreInv(w) && RecencyInv(w) && Enabled(cfg, w, a) && a.LookUp? && LookUpHits(w, a.c)
    ensures RecencyInv(Next(cfg, w, a)) <==> !LeavesBehind(w, a)
  {
    var x, touch, clock := w.conns[a.c].req.snapshotId.value, w.hist.touch, w.hist.clock;
    TouchOne(touch, clock, x);
    assert x in w.store.lru;
    if w.conns[a.c].transport.Pipe? {
      RefreshSorted(w.store.lru, x, touch, clock);
    } else {
      TouchInPlace(w.store.lru, x, touch, clock);
    }
  }

  /** The exact condition, step by step: a step takes a sorted list to a sorted list if and only
      if it is not such a lookup. */
  lemma RecencyStepIff(cfg: Config, w: World, a: Action)
    requires StoreInv(w) && RecencyInv(w) && Enabled(cfg, w, a) && WithinCounter(Next(cfg, w, a))
    ensures RecencyInv(Next(cfg, w, a)) <==> !LeavesBehind(w, a)
  {
    CountGrows(cfg, w, a);
    if Inserts(a) {
      InsertKeepsSorted(cfg, w, a);
    } else if a.LookUp? && LookUpHits(w, a.c) {
      LookUpSorted(cfg, w, a);
    } else {
      assert Touched(cfg, w, a) == [];
    }
  }

  lemma InsertKeepsSorted(cfg: Config, w: World, a: Action)
    requires StoreInv(w) && RecencyInv(w) && Enabled(cfg, w, a) && WithinCounter(Next(cfg, w, a)) && Inserts(a)
    ensures RecencyInv(Next(cfg, w, a))
  {
    CountGrows(cfg, w, a);
    var id, touch, clock := NextId(w.store), w.hist.touch, w.hist.clock;
    NextIdIsNew(w);
    NoDupConcat(w.store.lru, [id]);
    if a.Capture? {
      CaptureSorted(w.store, a.s, cfg.maxSnapshots, touch, clock);
    } else {
      InsertSorted(w.store, a.s, touch, clock);
      TouchOne(touch, clock, id);
    }
  }

  /** No step of the run touches an id and leaves it behind. */
  ghost predicate NoneLeftBehind(cfg: Config, run: seq<Action>)
    requires Possible(cfg, run)
    decreases |run|
  {
    run == [] ||
    (NoneLeftBehind(cfg, run[..|run| - 1]) && !LeavesBehind(After(cfg, run[..|run| - 1]), run[|run| - 1]))
  }

  /** The list is sorted by last touch at every point of a run, of pipes and TCP, if and only if no
      step of it leaves a touched id behind. */
  lemma {:induction false} SortedThroughoutIff(cfg: Config, run: seq<Action>)
    requires Possible(cfg, run) && WithinCounter(After(cfg, run))
    ensures SortedThroughout(cfg, run) <==> NoneLeftBehind(cfg, run)
  {
    if run != [] {
      var w, a := After(cfg, run[..|run| - 1]), run[|run| - 1];
      CountGrows(cfg, w, a);
      StoreInvariant(cfg, run[..|run| - 1]);
      SortedThroughoutIff(cfg, run[..|run| - 1]);
      if SortedThroughout(cfg, run[..|run| - 1]) {
        RecencyStepIff(cfg, w, a);
      }
    }
  }

  ghost predicate SortedThroughout(cfg: Config, run: seq<Action>)
    requires Possible(cfg, run)
    decreases |run|
  {
    RecencyInv(After(cfg, run)) && (run != [] ==> SortedThroughout(cfg, run[..|run| - 1]))
  }

  lemma {:induction false} PipesLeaveNoneBehind(cfg: Config, run: seq<Action>)
    requires Possible(cfg, run) && Only(run, Pipe)
    ensures NoneLeftBehind(cfg, run)
  {
    if run != [] {
      PipesLeaveNoneBehind(cfg, run[..|run| - 1]);
      UsesOnly(cfg, run[..|run| - 1], Pipe);
    }
  }

  /** In particular it is always sorted in pipe-only runs. */
  lemma SortedInPipeRuns(cfg: Config, run: seq<Action>)
    requires Possible(cfg, run) && WithinCounter(After(cfg, run)) && Only(run, Pipe)
    ensures RecencyInv(After(cfg, run))
  {
    PipesLeaveNoneBehind(cfg, run);
    SortedThroughoutIff(cfg, run);
  }

  /** While the list is sorted a capture evicts the least recently touched unpinned ids: every
      evicted id was touched before every unpinned id that stays. */
  lemma EvictsLeastRecent(cfg: Config, run: seq<Action>, c: nat, s: Snapshot, gone: Id, kept: Id)
    requires Possible(cfg, run) && NoneLeftBehind(cfg, run)
    requires Enabled(cfg, After(cfg, run), Capture(c, s)) && WithinCounter(Next(cfg, After(cfg, run), Capture(c, s)))
    requires var st := Insert(After(cfg, run).store, s);
             && gone in EvictedIds(st, cfg.maxSnapshots)
             && kept in Evict(st, cfg.maxSnapshots).snaps && kept !in PinnedIds(st.pins)
    ensures var w := After(cfg, run);
            var touch := w.hist.touch[NextId(w.store) := w.hist.clock];
            gone in touch && kept in touch && touch[gone] < touch[kept]
  {
    var w := After(cfg, run);
    StoreInvariant(cfg, run);
    SortedThroughoutIff(cfg, run);
    StoreInvStep(cfg, w, Capture(c, s));
    NextIdIsNew(w);
    NoDupConcat(w.store.lru, [NextId(w.store)]);
    InsertSorted(w.store, s, w.hist.touch, w.hist.clock);
    var st := Insert(w.store, s);
    InsertConsistent(w.store, w.hist.issued, s);
    OldestFirst(st, cfg.maxSnapshots, w.hist.touch[NextId(w.store) := w.hist.clock], gone, kept);
  }

  lemma OldestFirst(st: Store, max: nat, touch: map<Id, nat>, gone: Id, kept: Id)
    requires SortedByTouch(st.lru, touch) && NoDup(st.lru) && EvictionEnds(st, max)
    requires forall id :: id in st.lru <==> id in st.snaps
    requires gone in EvictedIds(st, max) && kept in Evict(st, max).snaps && kept !in PinnedIds(st.pins)
    ensures gone in touch && kept in touch && touch[gone] < touch[kept]
  {
    var l, p := st.lru, PinnedIds(st.pins);
    FilterLengths(l, p);
    var c := Cut(l, p, Excess(l, max));
    FilterMembers(l[..c], p, gone);
    FilterMembers(l[..c], p, kept);
    SurvivorsPartition(l, p, max, kept);
    SplitMembers(l, c, kept);
    var i :| 0 <= i < c && l[i] == gone;
    var j :| c <= j < |l| && l[j] == kept;
  }
}
