/** Pin accounting: what the counts in pinned_counts mean over whole runs. */
module Pins {
  import opened Bytes
  import opened Ids
  import opened Eviction
  import opened Stores
  import opened Daemon
  import opened StoreSafety

  predicate Holds(k: Conn, id: Id) {
    k.pinned == id && !k.phase.Idle?
  }

  /** The connections whose request in flight holds the snapshot id. */
  ghost function Holders(conns: map<nat, Conn>, id: Id): set<nat> {
    set c | c in conns && Holds(conns[c], id)
  }

  ghost predicate PinInv(w: World) {
    && (forall id :: id in w.store.snaps ==>
          PinCount(w.store.pins, id) == |Holders(w.conns, id)| - w.hist.closed[id])
    && (forall c :: c in w.conns && w.conns[c].phase in {Attaching, Dispatching, LookingUp} ==> w.conns[c].pinned == [])
    && (forall id :: id in w.hist.closed ==> id in w.hist.issued)
  }

  // ---- counting holders ----

  lemma HoldersSplit(conns: map<nat, Conn>, c: nat, id: Id)
    requires c in conns
    ensures |Holders(conns, id)| == |Holders(conns - {c}, id)| + if Holds(conns[c], id) then 1 else 0
  {
    if Holds(conns[c], id) {
      assert Holders(conns, id) == Holders(conns - {c}, id) + {c};
    } else {
      assert Holders(conns, id) == Holders(conns - {c}, id);
    }
  }

  lemma HoldersReplace(conns: map<nat, Conn>, c: nat, k: Conn, id: Id)
    ensures |Holders(conns[c := k], id)| == |Holders(conns - {c}, id)| + if Holds(k, id) then 1 else 0
  {
    HoldersSplit(conns[c := k], c, id);
    assert conns[c := k] - {c} == conns - {c};
  }

  predicate PinsNow(w: World, a: Action, id: Id) {
    a.LookUp? && a.c in w.conns && LookUpHits(w, a.c) && w.conns[a.c].req.snapshotId.value == id
  }

  predicate UnpinsNow(w: World, a: Action, id: Id) {
    a.Finish? && a.c in w.conns && w.conns[a.c].pinned == id
  }

  predicate ClosesNow(w: World, a: Action, id: Id) {
    a.Close? && a.c in w.conns && ClosesPinned(w, a.c) && w.conns[a.c].pinned == id
  }

  lemma HoldsAfter(cfg: Config, w: World, a: Action, id: Id)
    requires PinInv(w) && Enabled(cfg, w, a) && id != [] && !a.Open? && !a.CleanUp? && !a.Close?
    ensures Holds(ConnAfter(cfg, w, a), id) <==>
            PinsNow(w, a, id) || (Holds(w.conns[a.c], id) && !a.Finish?)
    ensures PinsNow(w, a, id) ==> !Holds(w.conns[a.c], id)
    ensures UnpinsNow(w, a, id) ==> Holds(w.conns[a.c], id)
  {
  }

  /** Requests in flight that hold id change only by pinning and unpinning. */
  lemma HoldersStep(cfg: Config, w: World, a: Action, id: Id)
    requires PinInv(w) && Enabled(cfg, w, a) && id != []
    ensures |Holders(ConnsAfter(cfg, w, a), id)| == |Holders(w.conns, id)|
            + (if PinsNow(w, a, id) then 1 else 0) - (if UnpinsNow(w, a, id) then 1 else 0)
  {
    if a.Open? {
      HoldersReplace(w.conns, a.c, NewConn(a.t), id);
      assert w.conns - {a.c} == w.conns;
    } else if a.Close? {
      HoldersSplit(w.conns, a.c, id);
    } else if !a.CleanUp? {
      HoldersSplit(w.conns, a.c, id);
      HoldersReplace(w.conns, a.c, ConnAfter(cfg, w, a), id);
      HoldsAfter(cfg, w, a, id);
    }
  }

  /** Counts of ids that stay stored change by pinning, unpinning and closing. */
  lemma CountsStep(cfg: Config, w: World, a: Action, id: Id)
    requires StoreInv(w) && Enabled(cfg, w, a) && id != []
    requires id in w.store.snaps && id in StoreAfter(cfg, w, a).snaps
    ensures PinCount(StoreAfter(cfg, w, a).pins, id) == PinCount(w.store.pins, id)
            + (if PinsNow(w, a, id) then 1 else 0) - (if UnpinsNow(w, a, id) then 1 else 0)
            - (if ClosesNow(w, a, id) then 1 else 0)
  {
    if a.Capture? {
    } else {
      CountsElsewhere(cfg, w, a, id);
    }
  }

  lemma CountsElsewhere(cfg: Config, w: World, a: Action, id: Id)
    requires Enabled(cfg, w, a) && id != [] && !a.Capture? && id in w.store.snaps
    ensures PinCount(StoreAfter(cfg, w, a).pins, id) == PinCount(w.store.pins, id)
            + (if PinsNow(w, a, id) then 1 else 0) - (if UnpinsNow(w, a, id) then 1 else 0)
            - (if ClosesNow(w, a, id) then 1 else 0)
  {
  }

  /** Only an insert makes an id live, and then the id it issues. */
  lemma LiveAfter(cfg: Config, w: World, a: Action, id: Id)
    requires Enabled(cfg, w, a) && id in StoreAfter(cfg, w, a).snaps && id !in w.store.snaps
    ensures Inserts(a) && id == NextId(w.store)
  {
  }

  /** A new id starts without holders, closings or a count. */
  lemma NewIdUnpinned(cfg: Config, w: World, a: Action)
    requires StoreInv(w) && PinInv(w) && Enabled(cfg, w, a) && Inserts(a) && NextId(w.store) !in w.hist.issued
    ensures PinCount(StoreAfter(cfg, w, a).pins, NextId(w.store)) == 0
    ensures Holders(w.conns, NextId(w.store)) == {}
    ensures w.hist.closed[NextId(w.store)] == 0
  {
  }

  lemma AccountStep(cfg: Config, w: World, a: Action, id: Id)
    requires StoreInv(w) && PinInv(w) && Enabled(cfg, w, a) && WithinCounter(Next(cfg, w, a))
    requires id in StoreAfter(cfg, w, a).snaps
    ensures PinCount(StoreAfter(cfg, w, a).pins, id) ==
            |Holders(ConnsAfter(cfg, w, a), id)| - HistAfter(cfg, w, a).closed[id]
  {
    StoreInvStep(cfg, w, a);
    IssuedNonEmpty(Next(cfg, w, a), id);
    HoldersStep(cfg, w, a, id);
    if id in w.store.snaps {
      CountsStep(cfg, w, a, id);
    } else {
      CountGrows(cfg, w, a);
      LiveAfter(cfg, w, a, id);
      NextIdIsNew(w);
      NewIdUnpinned(cfg, w, a);
    }
  }

  lemma PinInvStep(cfg: Config, w: World, a: Action)
    requires StoreInv(w) && PinInv(w) && Enabled(cfg, w, a) && WithinCounter(Next(cfg, w, a))
    ensures PinInv(Next(cfg, w, a))
  {
    forall id | id in StoreAfter(cfg, w, a).snaps
      ensures PinCount(StoreAfter(cfg, w, a).pins, id) ==
              |Holders(ConnsAfter(cfg, w, a), id)| - HistAfter(cfg, w, a).closed[id]
    {
      AccountStep(cfg, w, a, id);
    }
    EarlyPhasesStep(cfg, w, a);
  }

  lemma EarlyPhasesStep(cfg: Config, w: World, a: Action)
    requires PinInv(w) && Enabled(cfg, w, a)
    ensures var conns := ConnsAfter(cfg, w, a);
            forall c :: c in conns && conns[c].phase in {Attaching, Dispatching, LookingUp} ==> conns[c].pinned == []
  {
  }

  lemma {:induction false} PinInvariant(cfg: Config, run: seq<Action>)
    requires Possible(cfg, run) && WithinCounter(After(cfg, run))
    ensures StoreInv(After(cfg, run)) && PinInv(After(cfg, run))
  {
    StoreInvariant(cfg, run);
    if run != [] {
      var w, a := After(cfg, run[..|run| - 1]), run[|run| - 1];
      CountGrows(cfg, w, a);
      PinInvariant(cfg, run[..|run| - 1]);
      PinInvStep(cfg, w, a);
    }
  }

  /** In every run, the count of a stored id is the number of requests in flight that hold it
      minus the number of pipe connections that closed with it as their last pinned id. */
  lemma PinAccounting(cfg: Config, run: seq<Action>, id: Id)
    requires Possible(cfg, run) && WithinCounter(After(cfg, run))
    requires id in After(cfg, run).store.snaps
    ensures var w := After(cfg, run);
            PinCount(w.store.pins, id) == |Holders(w.conns, id)| - w.hist.closed[id]
  {
    PinInvariant(cfg, run);
  }

  /** So a stored id counts as pinned exactly when more requests hold it than pipes closed on it. */
  lemma ProtectedIff(cfg: Config, run: seq<Action>, id: Id)
    requires Possible(cfg, run) && WithinCounter(After(cfg, run))
    requires id in After(cfg, run).store.snaps
    ensures var w := After(cfg, run);
            id in PinnedIds(w.store.pins) <==> |Holders(w.conns, id)| > w.hist.closed[id]
  {
    PinInvariant(cfg, run);
  }

  /** What a capture does, on values. */
  lemma EvictedWhen(st: Store, max: nat, id: Id)
    requires EvictionEnds(st, max) && NoDup(st.lru) && id in st.snaps
    ensures var p := PinnedIds(st.pins);
            Excess(st.lru, max) <= |Unpinned(st.lru, p)| &&
            (id !in Evict(st, max).snaps <==> id in Unpinned(st.lru, p)[..Excess(st.lru, max)])
  {
    EvictedAreOldest(st.lru, PinnedIds(st.pins), max);
  }

  /** In every run a capture evicts a stored id if and only if at most as many requests hold it as
      pipes closed on it, and it is among the oldest unprotected ids that are too many. */
  lemma EvictedIff(cfg: Config, run: seq<Action>, c: nat, s: Snapshot, id: Id)
    requires Possible(cfg, run) && Enabled(cfg, After(cfg, run), Capture(c, s))
    requires WithinCounter(Next(cfg, After(cfg, run), Capture(c, s))) && id in After(cfg, run).store.snaps
    ensures var w := After(cfg, run);
            var st := Insert(w.store, s);
            var p, x := PinnedIds(st.pins), Excess(st.lru, cfg.maxSnapshots);
            && x <= |Unpinned(st.lru, p)|
            && (id !in Next(cfg, w, Capture(c, s)).store.snaps <==>
                |Holders(w.conns, id)| <= w.hist.closed[id] && id in Unpinned(st.lru, p)[..x])
  {
    var w := After(cfg, run);
    var st := Insert(w.store, s);
    StoreInvariant(cfg, run);
    CountGrows(cfg, w, Capture(c, s));
    NextIdIsNew(w);
    NoDupConcat(w.store.lru, [NextId(w.store)]);
    EvictedWhen(st, cfg.maxSnapshots, id);
    ProtectedIff(cfg, run, id);
    PrefixMember(Unpinned(st.lru, PinnedIds(st.pins)), Excess(st.lru, cfg.maxSnapshots), id);
    FilterMembers(st.lru, PinnedIds(st.pins), id);
  }

  lemma PrefixMember<T>(l: seq<T>, n: nat, x: T)
    requires n <= |l|
    ensures x in l[..n] ==> x in l
  {
  }

  // ---- what is held ----

  /** A request working on the snapshot it names holds it. */
  ghost predicate HoldsNamed(k: Conn) {
    (k.phase.ReadingOld? || k.phase.Running? || k.phase.Rebasing?) && k.req.snapshotId.Some? ==>
      k.pinned == k.req.snapshotId.value && k.pinned != []
  }

  lemma HoldsNamedConn(cfg: Config, w: World, a: Action)
    requires StoreInv(w) && Enabled(cfg, w, a) && !a.Open? && !a.CleanUp? && HoldsNamed(w.conns[a.c])
    ensures HoldsNamed(ConnAfter(cfg, w, a))
  {
    if a.LookUp? && LookUpHits(w, a.c) {
      IssuedNonEmpty(w, w.conns[a.c].req.snapshotId.value);
    }
  }

  lemma {:induction false} NamedIsHeld(cfg: Config, run: seq<Action>, c: nat)
    requires Possible(cfg, run) && WithinCounter(After(cfg, run))
    ensures c in After(cfg, run).conns ==> HoldsNamed(After(cfg, run).conns[c])
  {
    if run != [] {
      var before, a := run[..|run| - 1], run[|run| - 1];
      CountGrows(cfg, After(cfg, before), a);
      NamedIsHeld(cfg, before, c);
      StoreInvariant(cfg, before);
      if !a.Open? && !a.CleanUp? && a.c == c {
        HoldsNamedConn(cfg, After(cfg, before), a);
      }
    }
  }

  // ---- runs without pipes ----

  ghost predicate TcpInv(w: World) {
    && w.hist.closed == multiset{}
    && Uses(w, Tcp)
    && (forall c :: c in w.conns && InFlight(w.conns[c]) && w.conns[c].pinned != [] ==> w.conns[c].pinned in w.store.snaps)
  }

  lemma HeldIdStays(cfg: Config, w: World, a: Action, c: nat)
    requires StoreInv(w) && PinInv(w) && TcpInv(w) && Enabled(cfg, w, a)
    requires c in w.conns && InFlight(w.conns[c]) && w.conns[c].pinned != []
    ensures w.conns[c].pinned in StoreAfter(cfg, w, a).snaps
  {
    var id := w.conns[c].pinned;
    if a.Capture? {
      HeldIsPinned(w, c);
      PinnedStays(Insert(w.store, a.s), cfg.maxSnapshots, id);
    } else {
      OnlyCaptureRemoves(cfg, w, a, id);
    }
  }

  lemma OnlyCaptureRemoves(cfg: Config, w: World, a: Action, id: Id)
    requires Enabled(cfg, w, a) && !a.Capture? && id in w.store.snaps
    ensures id in StoreAfter(cfg, w, a).snaps
  {
  }

  lemma HeldIsPinned(w: World, c: nat)
    requires PinInv(w) && TcpInv(w) && c in w.conns && InFlight(w.conns[c]) && w.conns[c].pinned != []
    ensures w.conns[c].pinned in PinnedIds(w.store.pins)
  {
    assert c in Holders(w.conns, w.conns[c].pinned);
  }

  lemma PinnedStays(st: Store, max: nat, id: Id)
    requires EvictionEnds(st, max) && id in PinnedIds(st.pins) && id in st.snaps
    ensures id in Evict(st, max).snaps
  {
    SurvivorsPartition(st.lru, PinnedIds(st.pins), max, id);
  }

  lemma TcpInvStep(cfg: Config, w: World, a: Action)
    requires StoreInv(w) && PinInv(w) && TcpInv(w) && Enabled(cfg, w, a) && (a.Open? ==> a.t == Tcp)
    ensures TcpInv(Next(cfg, w, a))
  {
    var conns := ConnsAfter(cfg, w, a);
    forall c | c in conns
      ensures InFlight(conns[c]) && conns[c].pinned != [] ==> conns[c].pinned in StoreAfter(cfg, w, a).snaps
    {
      TcpConnStep(cfg, w, a, c);
    }
    UsesStep(cfg, w, a, Tcp);
  }

  lemma TcpConnStep(cfg: Config, w: World, a: Action, c: nat)
    requires StoreInv(w) && PinInv(w) && TcpInv(w) && Enabled(cfg, w, a) && (a.Open? ==> a.t == Tcp)
    requires c in ConnsAfter(cfg, w, a)
    ensures var k := ConnsAfter(cfg, w, a)[c];
            InFlight(k) && k.pinned != [] ==> k.pinned in StoreAfter(cfg, w, a).snaps
  {
    if c in w.conns {
      if InFlight(w.conns[c]) && w.conns[c].pinned != [] {
        HeldIdStays(cfg, w, a, c);
      }
      if !a.Open? && !a.CleanUp? && a.c == c {
        HeldAfter(cfg, w, a);
      } else {
        assert ConnsAfter(cfg, w, a)[c] == w.conns[c];
      }
    }
  }

  /** A connection that holds an id after its own step held it before, or found it just now. */
  lemma HeldAfter(cfg: Config, w: World, a: Action)
    requires PinInv(w) && Enabled(cfg, w, a) && !a.Open? && !a.CleanUp?
    ensures var k, k' := w.conns[a.c], ConnAfter(cfg, w, a);
            InFlight(k') && k'.pinned != [] ==>
              || (InFlight(k) && k.pinned == k'.pinned)
              || (k'.pinned in w.store.snaps && StoreAfter(cfg, w, a).snaps == w.store.snaps)
  {
  }

  lemma {:induction false} TcpInvariant(cfg: Config, run: seq<Action>)
    requires Possible(cfg, run) && WithinCounter(After(cfg, run)) && Only(run, Tcp)
    ensures TcpInv(After(cfg, run))
  {
    if run != [] {
      var w, a := After(cfg, run[..|run| - 1]), run[|run| - 1];
      CountGrows(cfg, w, a);
      PinInvariant(cfg, run[..|run| - 1]);
      TcpInvariant(cfg, run[..|run| - 1]);
      TcpInvStep(cfg, w, a);
    }
  }

  /** In TCP-only runs no count of a stored id is negative, and a snapshot held by a request in
      flight is never evicted. */
  lemma TcpPinsProtect(cfg: Config, run: seq<Action>)
    requires Possible(cfg, run) && WithinCounter(After(cfg, run)) && Only(run, Tcp)
    ensures var w := After(cfg, run);
            && (forall id :: id in w.store.snaps ==> PinCount(w.store.pins, id) >= 0)
            && (forall c :: c in w.conns && InFlight(w.conns[c]) && w.conns[c].pinned != [] ==>
                  w.conns[c].pinned in w.store.snaps)
  {
    PinInvariant(cfg, run);
    TcpInvariant(cfg, run);
  }

  /** So in TCP-only runs the snapshot a request names stays stored while the request works on it. */
  lemma TcpNamedStays(cfg: Config, run: seq<Action>, c: nat, id: Id)
    requires Possible(cfg, run) && WithinCounter(After(cfg, run)) && Only(run, Tcp)
    requires var w := After(cfg, run);
             && c in w.conns && w.conns[c].req.snapshotId == Some(id)
             && (w.conns[c].phase.ReadingOld? || w.conns[c].phase.Running? || w.conns[c].phase.Rebasing?)
    ensures id in After(cfg, run).store.snaps
  {
    NamedIsHeld(cfg, run, c);
    TcpPinsProtect(cfg, run);
  }
}
