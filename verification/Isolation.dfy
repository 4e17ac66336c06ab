/** Snapshot ids over whole runs: what a named id means, and for how long. */
module Isolation {
  import opened Bytes
  import opened Ids
  import opened Eviction
  import opened Stores
  import opened Daemon
  import opened StoreSafety

  /** Issued once, no longer stored. */
  ghost predicate Dead(w: World, id: Id) {
    id in w.hist.issued && id !in w.store.snaps
  }

  lemma DeadStep(cfg: Config, w: World, a: Action, id: Id)
    requires StoreInv(w) && Enabled(cfg, w, a) && WithinCounter(Next(cfg, w, a)) && Dead(w, id)
    ensures Dead(Next(cfg, w, a), id)
  {
    CountGrows(cfg, w, a);
    if Inserts(a) {
      NextIdIsNew(w);
    }
  }

  lemma IssuedStable(cfg: Config, w: World, a: Action, id: Id)
    requires StoreInv(w) && Enabled(cfg, w, a) && WithinCounter(Next(cfg, w, a)) && id in w.hist.issued
    ensures id in HistAfter(cfg, w, a).issued && HistAfter(cfg, w, a).issued[id] == w.hist.issued[id]
  {
    CountGrows(cfg, w, a);
    if Inserts(a) {
      NextIdIsNew(w);
    }
  }

  /** An id that is gone stays gone, and an id keeps meaning the same capture, in every
      continuation of a run. */
  lemma {:induction false} IdLifetime(cfg: Config, run: seq<Action>, later: seq<Action>, id: Id)
    requires run <= later && Possible(cfg, later) && WithinCounter(After(cfg, later))
    ensures Possible(cfg, run)
    ensures WithinCounter(After(cfg, run))
    ensures id in After(cfg, run).hist.issued ==>
      id in After(cfg, later).hist.issued && After(cfg, later).hist.issued[id] == After(cfg, run).hist.issued[id]
    ensures Dead(After(cfg, run), id) ==> Dead(After(cfg, later), id)
    decreases |later|
  {
    if run == later {
    } else {
      var before, a := later[..|later| - 1], later[|later| - 1];
      var w := After(cfg, before);
      CountGrows(cfg, w, a);
      assert run <= before;
      IdLifetime(cfg, run, before, id);
      StoreInvariant(cfg, before);
      if id in After(cfg, run).hist.issued {
        IssuedStable(cfg, w, a, id);
      }
      if Dead(w, id) {
        DeadStep(cfg, w, a, id);
      }
    }
  }

  // ---- what a request that names a snapshot works on ----

  ghost predicate Works(k: Conn) {
    k.phase.ReadingOld? || k.phase.Running? || k.phase.Rebasing? || (k.phase.Responding? && k.phase.reply.Top?)
  }

  ghost predicate NamedSnapshot(k: Conn, issued: map<Id, Snapshot>) {
    k.req.snapshotId.Some? ==> k.req.snapshotId.value in issued && k.snap == issued[k.req.snapshotId.value]
  }

  ghost predicate ConnIsolated(k: Conn, issued: map<Id, Snapshot>) {
    && (Works(k) ==> NamedSnapshot(k, issued))
    && (k.phase.Responding? && k.phase.reply.Top? ==> k.phase.reply.list == k.snap.top)
  }

  ghost predicate IsolationInv(w: World) {
    forall c :: c in w.conns ==> ConnIsolated(w.conns[c], w.hist.issued)
  }

  lemma IsolatedConnStep(cfg: Config, w: World, a: Action)
    requires StoreInv(w) && Enabled(cfg, w, a) && !a.Open? && !a.CleanUp?
    requires ConnIsolated(w.conns[a.c], w.hist.issued)
    ensures ConnIsolated(ConnAfter(cfg, w, a), w.hist.issued)
  {
    if a.LookUp? {
    } else {
      WorksBefore(cfg, w, a);
    }
  }

  /** After the lookup a request keeps the snapshot it works on. */
  lemma WorksBefore(cfg: Config, w: World, a: Action)
    requires Enabled(cfg, w, a) && !a.Open? && !a.CleanUp? && !a.LookUp?
    ensures var k, k' := w.conns[a.c], ConnAfter(cfg, w, a);
            && (Works(k') ==> Works(k) && k'.req == k.req && k'.snap == k.snap)
            && (k'.phase.Responding? && k'.phase.reply.Top? && k' != k ==> k'.phase.reply.list == k.snap.top)
  {
  }

  lemma IsolationStep(cfg: Config, w: World, a: Action)
    requires StoreInv(w) && IsolationInv(w) && Enabled(cfg, w, a) && WithinCounter(Next(cfg, w, a))
    ensures IsolationInv(Next(cfg, w, a))
  {
    var conns, issued := ConnsAfter(cfg, w, a), HistAfter(cfg, w, a).issued;
    forall c | c in conns ensures ConnIsolated(conns[c], issued) {
      if c in w.conns && !a.Open? && !a.CleanUp? && a.c == c {
        IsolatedConnStep(cfg, w, a);
      }
      assert ConnIsolated(conns[c], w.hist.issued);
      var k := conns[c];
      if k.req.snapshotId.Some? && k.req.snapshotId.value in w.hist.issued {
        IssuedStable(cfg, w, a, k.req.snapshotId.value);
      }
    }
  }

  lemma {:induction false} IsolationInvariant(cfg: Config, run: seq<Action>)
    requires Possible(cfg, run) && WithinCounter(After(cfg, run))
    ensures IsolationInv(After(cfg, run))
  {
    if run != [] {
      var w, a := After(cfg, run[..|run| - 1]), run[|run| - 1];
      CountGrows(cfg, w, a);
      StoreInvariant(cfg, run[..|run| - 1]);
      IsolationInvariant(cfg, run[..|run| - 1]);
      IsolationStep(cfg, w, a);
    }
  }

  /** The lookup of an id finds exactly what was captured under it, or reports E_BAD_SNAPSHOT when
      it is gone or was never issued. */
  lemma LookUpExact(cfg: Config, run: seq<Action>, c: nat, s: Snapshot, id: Id)
    requires Possible(cfg, run) && WithinCounter(After(cfg, run))
    requires Enabled(cfg, After(cfg, run), LookUp(c, s))
    requires After(cfg, run).conns[c].req.snapshotId == Some(id)
    ensures var w := After(cfg, run);
            var k := Next(cfg, w, LookUp(c, s)).conns[c];
            if Dead(w, id) || id !in w.hist.issued then k.phase == Responding(Failed(E_BAD_SNAPSHOT))
            else k.phase == ReadingOld && k.snap == w.hist.issued[id]
  {
    StoreInvariant(cfg, run);
  }

  /** A window.listTop response for a named snapshot is the list captured under that id,
      whatever the other connections did meanwhile. */
  lemma ListTopAnswer(cfg: Config, run: seq<Action>, c: nat, id: Id)
    requires Possible(cfg, run) && WithinCounter(After(cfg, run))
    requires var w := After(cfg, run);
             && c in w.conns && w.conns[c].req.snapshotId == Some(id)
             && w.conns[c].phase.Responding? && w.conns[c].phase.reply.Top?
    ensures var w := After(cfg, run);
            id in w.hist.issued && w.conns[c].phase.reply.list == w.hist.issued[id].top
  {
    IsolationInvariant(cfg, run);
  }

  /** Once a lookup of an issued id failed, every later lookup of it fails. */
  lemma BadSnapshotForever(cfg: Config, run: seq<Action>, later: seq<Action>, id: Id, c: nat, s: Snapshot)
    requires run <= later && Possible(cfg, later) && WithinCounter(After(cfg, later))
    requires Possible(cfg, run) && Dead(After(cfg, run), id)
    requires Enabled(cfg, After(cfg, later), LookUp(c, s)) && After(cfg, later).conns[c].req.snapshotId == Some(id)
    ensures Next(cfg, After(cfg, later), LookUp(c, s)).conns[c].phase == Responding(Failed(E_BAD_SNAPSHOT))
  {
    IdLifetime(cfg, run, later, id);
    LookUpExact(cfg, later, c, s, id);
  }

  /** A capture's own id is stored afterwards exactly when fewer than max_snapshots listed ids
      were pinned. */
  lemma CaptureSurvivesIff(cfg: Config, run: seq<Action>, c: nat, s: Snapshot)
    requires Possible(cfg, run) && Enabled(cfg, After(cfg, run), Capture(c, s))
    requires WithinCounter(Next(cfg, After(cfg, run), Capture(c, s)))
    ensures var w := After(cfg, run);
            NextId(w.store) in Next(cfg, w, Capture(c, s)).store.snaps <==>
            |Pinned(w.store.lru, PinnedIds(w.store.pins))| < cfg.maxSnapshots
  {
    var w := After(cfg, run);
    StoreInvariant(cfg, run);
    StoreInvStep(cfg, w, Capture(c, s));
    NextIdIsNew(w);
    var id, p := NextId(w.store), PinnedIds(w.store.pins);
    assert id !in p;
    NoDupConcat(w.store.lru, [id]);
    NewestSurvivesIff(w.store.lru, id, p, cfg.maxSnapshots);
    assert Insert(w.store, s).lru == w.store.lru + [id];
  }
}
