/** What every run keeps of the snapshot store, and how large it gets. */
module StoreSafety {
  import opened Bytes
  import opened Ids
  import opened Eviction
  import opened Stores
  import opened Daemon

  /** The LRU list names exactly the stored ids, once each; contents are what was captured. */
  ghost predicate Consistent(st: Store, issued: map<Id, Snapshot>) {
    && NoDup(st.lru)
    && (forall id :: id in st.lru <==> id in st.snaps)
    && (forall id :: id in st.snaps ==> id in issued && st.snaps[id] == issued[id])
    && (forall id :: id in st.pins ==> id in issued)
  }

  // ---- the sections keep it ----

  lemma InsertConsistent(st: Store, issued: map<Id, Snapshot>, s: Snapshot)
    requires Consistent(st, issued) && NextId(st) !in issued
    ensures Consistent(Insert(st, s), issued[NextId(st) := s])
  {
    NoDupConcat(st.lru, [NextId(st)]);
  }

  lemma EvictConsistent(st: Store, issued: map<Id, Snapshot>, max: nat)
    requires Consistent(st, issued) && EvictionEnds(st, max)
    ensures Consistent(Evict(st, max), issued)
  {
    SurvivorsDistinct(st.lru, PinnedIds(st.pins), max);
    forall id ensures id in Evict(st, max).lru <==> id in Evict(st, max).snaps {
      SurvivorsPartition(st.lru, PinnedIds(st.pins), max, id);
    }
  }

  lemma {:induction false} WithoutSpec<T>(l: seq<T>, x: T)
    requires NoDup(l)
    ensures NoDup(Without(l, x)) && forall y :: y in Without(l, x) <==> y in l && y != x
  {
    if l != [] {
      WithoutSpec(l[1..], x);
      assert l == [l[0]] + l[1..];
      if l[0] != x {
        NoDupConcat([l[0]], Without(l[1..], x));
      }
    }
  }

  lemma PinConsistent(st: Store, issued: map<Id, Snapshot>, id: Id, refresh: bool)
    requires Consistent(st, issued) && id in st.snaps
    ensures Consistent(Pin(st, id, refresh), issued)
  {
    if refresh {
      WithoutSpec(st.lru, id);
      NoDupConcat(Without(st.lru, id), [id]);
    }
  }

  // ---- ids ----

  /** The counter and the issued ids are those of the first count issues. */
  ghost predicate Numbered(w: World) {
    && w.store.counter == CounterAt(w.hist.count)
    && forall id :: id in w.hist.issued ==> exists k: nat :: k < w.hist.count && id == IdAt(k)
  }

  lemma NextIdIsNew(w: World)
    requires Numbered(w) && w.hist.count < TWO64
    ensures NextId(w.store) !in w.hist.issued
  {
    if NextId(w.store) in w.hist.issued {
      var k: nat :| k < w.hist.count && NextId(w.store) == IdAt(k);
      IdsDistinct(k, w.hist.count);
      assert false;
    }
  }

  lemma NumberedStep(cfg: Config, w: World, a: Action)
    requires Numbered(w) && Enabled(cfg, w, a)
    ensures Numbered(Next(cfg, w, a))
  {
    CounterStep(cfg, w, a);
    IssuedStep(cfg, w, a);
  }

  lemma CounterStep(cfg: Config, w: World, a: Action)
    requires w.store.counter == CounterAt(w.hist.count) && Enabled(cfg, w, a)
    ensures StoreAfter(cfg, w, a).counter == CounterAt(HistAfter(cfg, w, a).count)
  {
    ModOfSuccessor(w.hist.count + 1, TWO64);
    ModOfSuccessor(CounterAt(w.hist.count), TWO64);
    assert CounterAt(w.hist.count) % TWO64 == CounterAt(w.hist.count);
  }

  lemma IssuedStep(cfg: Config, w: World, a: Action)
    requires Numbered(w) && Enabled(cfg, w, a)
    ensures var h := HistAfter(cfg, w, a);
            forall id :: id in h.issued ==> exists k: nat :: k < h.count && id == IdAt(k)
  {
    var h := HistAfter(cfg, w, a);
    forall id | id in h.issued ensures exists k: nat :: k < h.count && id == IdAt(k) {
      if id in w.hist.issued {
        var k: nat :| k < w.hist.count && id == IdAt(k);
        assert k < h.count;
      } else {
        assert id == NextId(w.store) == IdAt(w.hist.count);
      }
    }
  }

  // ---- the invariant over runs ----

  ghost predicate StoreInv(w: World) {
    && Numbered(w)
    && Consistent(w.store, w.hist.issued)
    && forall c :: c in w.conns ==> w.conns[c].pinned == [] || w.conns[c].pinned in w.hist.issued
  }

  lemma IssuedNonEmpty(w: World, id: Id)
    requires Numbered(w) && id in w.hist.issued
    ensures id != []
  {
    var k: nat :| k < w.hist.count && id == IdAt(k);
  }

  lemma CountGrows(cfg: Config, w: World, a: Action)
    requires Enabled(cfg, w, a)
    ensures w.hist.count <= Next(cfg, w, a).hist.count
    ensures Inserts(a) ==> w.hist.count < Next(cfg, w, a).hist.count
  {
  }

  lemma ConsistentStep(cfg: Config, w: World, a: Action)
    requires StoreInv(w) && Enabled(cfg, w, a) && WithinCounter(Next(cfg, w, a))
    ensures Consistent(StoreAfter(cfg, w, a), HistAfter(cfg, w, a).issued)
  {
    CountGrows(cfg, w, a);
    match a
    case Subscribe(_, s) =>
      NextIdIsNew(w);
      InsertConsistent(w.store, w.hist.issued, s);
    case Rebaseline(_, s) =>
      NextIdIsNew(w);
      InsertConsistent(w.store, w.hist.issued, s);
    case Capture(_, s) =>
      NextIdIsNew(w);
      InsertConsistent(w.store, w.hist.issued, s);
      EvictConsistent(Insert(w.store, s), w.hist.issued[NextId(w.store) := s], cfg.maxSnapshots);
    case LookUp(c, _) =>
      if LookUpHits(w, c) {
        PinConsistent(w.store, w.hist.issued, w.conns[c].req.snapshotId.value, w.conns[c].transport.Pipe?);
      }
    case _ =>
  }

  lemma StoreInvStep(cfg: Config, w: World, a: Action)
    requires StoreInv(w) && Enabled(cfg, w, a) && WithinCounter(Next(cfg, w, a))
    ensures StoreInv(Next(cfg, w, a))
  {
    NumberedStep(cfg, w, a);
    ConsistentStep(cfg, w, a);
    PinnedStep(cfg, w, a);
  }

  lemma PinnedStep(cfg: Config, w: World, a: Action)
    requires StoreInv(w) && Enabled(cfg, w, a)
    ensures var conns := ConnsAfter(cfg, w, a);
            forall c :: c in conns ==> conns[c].pinned == [] || conns[c].pinned in HistAfter(cfg, w, a).issued
  {
    if !a.Open? && !a.CleanUp? {
      assert ConnAfter(cfg, w, a).pinned in {[], w.conns[a.c].pinned} ||
             ConnAfter(cfg, w, a).pinned in w.store.snaps;
    }
  }

  /** In every run with at most 2^64 issued ids. */
  lemma {:induction false} StoreInvariant(cfg: Config, run: seq<Action>)
    requires Possible(cfg, run) && WithinCounter(After(cfg, run))
    ensures StoreInv(After(cfg, run))
  {
    if run != [] {
      var w, a := After(cfg, run[..|run| - 1]), run[|run| - 1];
      CountGrows(cfg, w, a);
      StoreInvariant(cfg, run[..|run| - 1]);
      StoreInvStep(cfg, w, a);
    } else {
      assert CounterAt(0) == 1;
    }
  }

  // ---- the storage bound ----

  ghost predicate Bounded(cfg: Config, w: World) {
    |w.store.lru| <= cfg.maxSnapshots + w.hist.extra
  }

  lemma {:induction false} WithoutLength<T>(l: seq<T>, x: T)
    requires NoDup(l) && x in l
    ensures |Without(l, x)| == |l| - 1
  {
    if l[0] == x {
      assert x !in l[1..];
      WithoutAbsent(l[1..], x);
    } else {
      assert x in l[1..];
      WithoutLength(l[1..], x);
    }
  }

  lemma {:induction false} WithoutAbsent<T>(l: seq<T>, x: T)
    requires x !in l
    ensures Without(l, x) == l
  {
    if l != [] {
      WithoutAbsent(l[1..], x);
    }
  }

  lemma BoundedStep(cfg: Config, w: World, a: Action)
    requires StoreInv(w) && Enabled(cfg, w, a) && Bounded(cfg, w)
    ensures Bounded(cfg, Next(cfg, w, a))
  {
    LengthStep(cfg, w, a);
  }

  lemma LengthStep(cfg: Config, w: World, a: Action)
    requires StoreInv(w) && Enabled(cfg, w, a)
    ensures a.Capture? ==> |StoreAfter(cfg, w, a).lru| <= cfg.maxSnapshots
    ensures !a.Capture? ==> |StoreAfter(cfg, w, a).lru| == |w.store.lru| + if Inserts(a) then 1 else 0
  {
    if a.Capture? {
      var st := Insert(w.store, a.s);
      SurvivorsLength(st.lru, PinnedIds(st.pins), cfg.maxSnapshots);
    } else if a.LookUp? && LookUpHits(w, a.c) {
      WithoutLength(w.store.lru, w.conns[a.c].req.snapshotId.value);
    }
  }

  lemma {:induction false} BoundedRun(cfg: Config, run: seq<Action>)
    requires Possible(cfg, run) && WithinCounter(After(cfg, run))
    ensures Bounded(cfg, After(cfg, run))
  {
    if run != [] {
      var w, a := After(cfg, run[..|run| - 1]), run[|run| - 1];
      CountGrows(cfg, w, a);
      StoreInvariant(cfg, run[..|run| - 1]);
      BoundedRun(cfg, run[..|run| - 1]);
      BoundedStep(cfg, w, a);
    }
  }

  lemma {:induction false} DistinctCount<T>(l: seq<T>)
    requires NoDup(l)
    ensures |Elements(l)| == |l|
  {
    if l != [] {
      DistinctCount(l[1..]);
      assert l[0] !in l[1..];
      assert Elements(l) == {l[0]} + Elements(l[1..]);
    }
  }

  /** The subscribes and successful polls of the run since its last capture. */
  ghost function SinceCapture(run: seq<Action>): nat {
    if run == [] || run[|run| - 1].Capture? then 0
    else SinceCapture(run[..|run| - 1]) + if run[|run| - 1].Subscribe? || run[|run| - 1].Rebaseline? then 1 else 0
  }

  lemma {:induction false} ExtraIs(cfg: Config, run: seq<Action>)
    requires Possible(cfg, run)
    ensures After(cfg, run).hist.extra == SinceCapture(run)
  {
    if run != [] {
      ExtraIs(cfg, run[..|run| - 1]);
    }
  }

  /** At all times at most max_snapshots snapshots are stored, plus the subscribe and poll
      inserts since the last capture. */
  lemma StorageBound(cfg: Config, run: seq<Action>)
    requires Possible(cfg, run) && WithinCounter(After(cfg, run))
    ensures var w := After(cfg, run);
            |w.store.snaps| == |w.store.lru| <= cfg.maxSnapshots + SinceCapture(run)
  {
    ExtraIs(cfg, run);
    StoreInvariant(cfg, run);
    BoundedRun(cfg, run);
    var st := After(cfg, run).store;
    DistinctCount(st.lru);
    assert st.snaps.Keys == Elements(st.lru);
  }
}
