/** Reachable states that show the conditions of the other modules cannot be dropped. */
module Witnesses {
  import opened Bytes
  import opened Ids
  import opened Eviction
  import opened Stores
  import opened Diff
  import opened Daemon
  import opened StoreSafety
  import opened Pins
  import opened Replay
  import opened Recency

  // ---- from steps to runs ----

  /** A set of worlds that no step leaves. */
  ghost predicate Closed(cfg: Config, R: iset<World>) {
    forall w, a :: w in R && Enabled(cfg, w, a) ==> Next(cfg, w, a) in R
  }

  /** Closed, started, and issuing only new ids. */
  ghost predicate Proper(cfg: Config, R: iset<World>) {
    && Closed(cfg, R) && INIT in R
    && forall w :: w in R && w.hist.count < TWO64 ==> NextId(w.store) !in w.store.snaps
  }

  /** The same with the whole invariant of the store. */
  ghost predicate Sane(cfg: Config, R: iset<World>) {
    && Closed(cfg, R) && INIT in R
    && forall w :: w in R && WithinCounter(w) ==> StoreInv(w)
  }

  ghost function Reachable(cfg: Config): iset<World> {
    iset run | Possible(cfg, run) :: After(cfg, run)
  }

  lemma Extend(cfg: Config, run: seq<Action>, a: Action)
    requires Possible(cfg, run) && Enabled(cfg, After(cfg, run), a)
    ensures Possible(cfg, run + [a]) && After(cfg, run + [a]) == Next(cfg, After(cfg, run), a)
  {
    assert (run + [a])[..|run|] == run;
  }

  /** The worlds that runs end in are such a set. */
  lemma ReachableProper(cfg: Config)
    ensures Proper(cfg, Reachable(cfg))
  {
    assert Possible(cfg, []) && After(cfg, []) == INIT;
    forall w, a | w in Reachable(cfg) && Enabled(cfg, w, a) ensures Next(cfg, w, a) in Reachable(cfg) {
      var run :| Possible(cfg, run) && After(cfg, run) == w;
      Extend(cfg, run, a);
    }
    forall w | w in Reachable(cfg) && w.hist.count < TWO64 ensures NextId(w.store) !in w.store.snaps {
      var run :| Possible(cfg, run) && After(cfg, run) == w;
      StoreInvariant(cfg, run);
      NextIdIsNew(w);
    }
  }

  lemma ReachableSane(cfg: Config)
    ensures Sane(cfg, Reachable(cfg))
  {
    ReachableProper(cfg);
    forall w | w in Reachable(cfg) && WithinCounter(w) ensures StoreInv(w) {
      var run :| Possible(cfg, run) && After(cfg, run) == w;
      StoreInvariant(cfg, run);
    }
  }

  ghost predicate SameShared(w: World, v: World) {
    && v.store == w.store && v.sessions == w.sessions
    && v.hist.count == w.hist.count && v.hist.issued == w.hist.issued && v.hist.chains == w.hist.chains
    && v.hist.touch == w.hist.touch && v.hist.clock == w.hist.clock
  }

  /** Steps that leave the shared state alone. */
  ghost predicate Quiet(w: World, a: Action) {
    || a.Open? || a.Receive? || a.Proceed? || a.ReadOld? || a.Handle?
    || (a.Attach? && a.c in w.conns && w.conns[a.c].req.sessionId.None?)
    || (a.LookUp? && a.c in w.conns && w.conns[a.c].req.snapshotId.None?)
    || (a.Finish? && a.c in w.conns && w.conns[a.c].pinned == [])
  }

  lemma Go(cfg: Config, R: iset<World>, w: World, a: Action) returns (v: World)
    requires Closed(cfg, R) && w in R && Enabled(cfg, w, a) && Quiet(w, a)
    ensures v in R && SameShared(w, v) && v.conns == ConnsAfter(cfg, w, a)
  {
    v := Next(cfg, w, a);
  }

  lemma Do(cfg: Config, R: iset<World>, w: World, a: Action) returns (v: World)
    requires Closed(cfg, R) && w in R && Enabled(cfg, w, a)
    ensures v in R && v.conns == ConnsAfter(cfg, w, a) && v.store == StoreAfter(cfg, w, a)
    ensures v.hist.count == (if Inserts(a) then w.hist.count + 1 else w.hist.count)
    ensures v.hist.issued == (if Inserts(a) then w.hist.issued[NextId(w.store) := a.s] else w.hist.issued)
    ensures v.hist.chains == ChainsAfter(w, a)
  {
    v := Next(cfg, w, a);
  }

  /** The same for a step that touches one id. */
  lemma DoTouch(cfg: Config, R: iset<World>, w: World, a: Action, id: Id) returns (v: World)
    requires Closed(cfg, R) && w in R && Enabled(cfg, w, a) && Touched(cfg, w, a) == [id]
    ensures v in R && v.conns == ConnsAfter(cfg, w, a) && v.store == StoreAfter(cfg, w, a)
    ensures v.hist.count == (if Inserts(a) then w.hist.count + 1 else w.hist.count)
    ensures v.hist.issued == (if Inserts(a) then w.hist.issued[NextId(w.store) := a.s] else w.hist.issued)
    ensures v.hist.touch == w.hist.touch[id := w.hist.clock] && v.hist.clock == w.hist.clock + 1
  {
    v := Next(cfg, w, a);
    TouchOne(w.hist.touch, w.hist.clock, id);
  }

  // ---- missed events ----

  const SUBSCRIBE: Request := Request(SubscribeM, None, None, None)
  const POLL: Request := Request(PollM, None, None, None)

  ghost predicate IdleOn(w: World, c: nat, b: Id) {
    && c in w.conns && w.conns[c].transport == Pipe && w.conns[c].phase == Idle
    && w.conns[c].session.last == b && b != [] && b in w.store.snaps && b in w.hist.chains
  }

  /** A new pipe connection subscribes while the windows are d. */
  lemma Subscribed(cfg: Config, R: iset<World>, d: Snapshot) returns (w: World, b: Id)
    requires Closed(cfg, R) && INIT in R
    ensures w in R && w.hist.count == 1
    ensures IdleOn(w, 0, b) && w.store.snaps[b] == d && w.hist.chains[b] == Chain(d, [])
  {
    w := Go(cfg, R, INIT, Open(0, Pipe));
    w := Go(cfg, R, w, Receive(0, SUBSCRIBE));
    w := Go(cfg, R, w, Attach(0, 0));
    b := NextId(w.store);
    w := Do(cfg, R, w, Subscribe(0, d));
    w := Go(cfg, R, w, Finish(0));
  }

  /** Any new pipe connection can subscribe. */
  lemma SubscribeOne(cfg: Config, R: iset<World>, u: World, c: nat, s: Snapshot) returns (w: World)
    requires Closed(cfg, R) && u in R && c !in u.conns
    ensures w in R && w.store == Insert(u.store, s) && w.conns - {c} == u.conns && c in w.conns
    ensures w.hist.count == u.hist.count + 1 && w.hist.issued == u.hist.issued[NextId(u.store) := s]
    ensures w.hist.touch == u.hist.touch[NextId(u.store) := u.hist.clock] && w.hist.clock == u.hist.clock + 1
  {
    w := AboutToSubscribe(cfg, R, u, c);
    w := DoTouch(cfg, R, w, Subscribe(c, s), NextId(w.store));
    assert w.conns - {c} == u.conns;
  }

  lemma AboutToSubscribe(cfg: Config, R: iset<World>, u: World, c: nat) returns (w: World)
    requires Closed(cfg, R) && u in R && c !in u.conns
    ensures w in R && SameShared(u, w) && w.conns - {c} == u.conns && Asks(w, c, SubscribeM)
  {
    w := Go(cfg, R, u, Open(c, Pipe));
    assert w.conns - {c} == u.conns;
    w := Go(cfg, R, w, Receive(c, SUBSCRIBE));
    assert w.conns - {c} == u.conns;
    w := Go(cfg, R, w, Attach(c, 0));
    assert w.conns - {c} == u.conns;
  }

  ghost predicate Polling(w: World, c: nat, b: Id, p: Phase) {
    && c in w.conns && w.conns[c].transport == Pipe && w.conns[c].phase == p && w.conns[c].req == POLL
    && w.conns[c].session.last == b && w.conns[c].pinned == []
  }

  lemma PollStarts(cfg: Config, R: iset<World>, u: World, c: nat, b: Id) returns (w: World)
    requires Closed(cfg, R) && u in R && IdleOn(u, c, b)
    ensures w in R && SameShared(u, w) && Polling(w, c, b, LookingUp)
  {
    w := Go(cfg, R, u, Receive(c, POLL));
    w := Go(cfg, R, w, Attach(c, 0));
    w := Go(cfg, R, w, Proceed(c));
  }

  /** It diffs its baseline against d. */
  lemma PollDiffs(cfg: Config, R: iset<World>, u: World, c: nat, b: Id, d: Snapshot) returns (w: World)
    requires Closed(cfg, R) && u in R && Polling(u, c, b, LookingUp) && b != [] && b in u.store.snaps
    ensures w in R && SameShared(u, w)
    ensures Polling(w, c, b, Rebasing(PollEvents(u.store.snaps[b].top, d.top)))
    ensures w.conns[c].snap == d && w.conns[c].old_snap == Some(u.store.snaps[b])
  {
    w := Go(cfg, R, u, LookUp(c, d));
    w := Go(cfg, R, w, ReadOld(c));
    w := Go(cfg, R, w, Handle(c, CoreOk));
  }

  lemma PollStores(cfg: Config, R: iset<World>, u: World, c: nat, b: Id, events: seq<Event>, e: Snapshot) returns (w: World, n: Id)
    requires Closed(cfg, R) && u in R && Polling(u, c, b, Rebasing(events)) && b in u.hist.chains
    requires u.conns[c].old_snap.Some? && NextId(u.store) !in u.store.snaps
    ensures w in R && IdleOn(w, c, n) && w.hist.count == u.hist.count + 1 && w.store.snaps[n] == e
    ensures w.hist.chains[n] ==
            Chain(u.hist.chains[b].base, u.hist.chains[b].polls + [PollRecord(u.conns[c].snap, events, e)])
  {
    n := NextId(u.store);
    w := Do(cfg, R, u, Rebaseline(c, e));
    w := Go(cfg, R, w, Finish(c));
  }

  /** A whole poll: it diffs its baseline against d and stores e as the next baseline. */
  lemma PollRound(cfg: Config, R: iset<World>, u: World, c: nat, b: Id, d: Snapshot, e: Snapshot) returns (w: World, n: Id)
    requires Proper(cfg, R) && u in R && IdleOn(u, c, b) && u.hist.count < TWO64
    ensures w in R && IdleOn(w, c, n) && w.hist.count == u.hist.count + 1 && w.store.snaps[n] == e
    ensures w.hist.chains[n] ==
            Chain(u.hist.chains[b].base,
                  u.hist.chains[b].polls + [PollRecord(d, PollEvents(u.store.snaps[b].top, d.top), e)])
  {
    w := PollStarts(cfg, R, u, c, b);
    w := PollDiffs(cfg, R, w, c, b, d);
    w, n := PollStores(cfg, R, w, c, b, PollEvents(u.store.snaps[b].top, d.top), e);
  }

  lemma SilentPolls(d: Snapshot, e: Snapshot, polls: seq<PollRecord>)
    requires polls == [PollRecord(d, [], e), PollRecord(e, [], e)]
    ensures AllEvents(polls) == [] && ReplayAll(multiset(d.top), polls) == multiset(d.top)
  {
    var m, one := multiset(d.top), polls[..1];
    assert one[..0] == [];
    assert AllEvents(one) == [] && AllEvents(polls) == AllEvents(one) + [];
    assert ReplayAll(m, one) == m && ReplayAll(m, polls) == ReplayAll(m, one);
  }

  ghost predicate Unaware(w: World, b: Id, d: Snapshot, e: Snapshot) {
    && w.hist.count == 3 && b in w.hist.chains
    && var ch := w.hist.chains[b];
       && ch.base == d && ch.polls != [] && LastPoll(ch).diffed == e
       && AllEvents(ch.polls) == [] && ReplayAll(multiset(d.top), ch.polls) == multiset(d.top)
  }

  lemma TwoPolls(cfg: Config, R: iset<World>, d: Snapshot, e: Snapshot) returns (w: World, b: Id)
    requires Proper(cfg, R)
    ensures w in R && w.hist.count == 3 && b in w.hist.chains
    ensures w.hist.chains[b] ==
            Chain(d, [] + [PollRecord(d, PollEvents(d.top, d.top), e)] + [PollRecord(e, PollEvents(e.top, e.top), e)])
  {
    w, b := Subscribed(cfg, R, d);
    w, b := PollRound(cfg, R, w, 0, b, d, e);
    w, b := PollRound(cfg, R, w, 0, b, e, e);
  }

  lemma TwoSilentPolls(cfg: Config, R: iset<World>, d: Snapshot, e: Snapshot) returns (w: World, b: Id)
    requires Proper(cfg, R)
    ensures w in R && Unaware(w, b, d, e)
  {
    w, b := TwoPolls(cfg, R, d, e);
    DiffReplays(d.top, d.top);
    DiffReplays(e.top, e.top);
    SilentPolls(d, e, w.hist.chains[b].polls);
  }

  /** Whatever window lists d and e: a session that subscribes at d, whose first poll diffs d but
      stores e, and whose second poll diffs e, is told of no event at all. Replaying what it was
      told gives d, which it is not when d and e are not permutations of each other. */
  lemma MissedEvents(cfg: Config, d: Snapshot, e: Snapshot)
    ensures exists w, b :: w in Reachable(cfg) && Unaware(w, b, d, e)
  {
    ReachableProper(cfg);
    var w, b := TwoSilentPolls(cfg, Reachable(cfg), d, e);
  }

  // ---- an unprotected snapshot ----

  const CAPTURE: Request := Request(CaptureM, None, None, None)

  function Naming(id: Id): Request {
    Request(ListTopM, None, Some(id), None)
  }

  ghost predicate Reading(w: World, c: nat, id: Id, p: Phase) {
    && c in w.conns && w.conns[c].transport == Pipe && w.conns[c].phase == p
    && w.conns[c].req == Naming(id) && w.conns[c].pinned == id
  }

  lemma Named(cfg: Config, R: iset<World>, u: World, c: nat, id: Id) returns (w: World)
    requires Closed(cfg, R) && u in R && c !in u.conns
    ensures w in R && SameShared(u, w) && w.conns - {c} == u.conns && At(w, c, Dispatching)
    ensures w.conns[c].transport == Pipe && w.conns[c].req == Naming(id)
  {
    w := Go(cfg, R, u, Open(c, Pipe));
    assert w.conns - {c} == u.conns;
    w := Go(cfg, R, w, Receive(c, Naming(id)));
    assert w.conns - {c} == u.conns;
    w := Go(cfg, R, w, Attach(c, 0));
    assert w.conns - {c} == u.conns;
  }

  /** A new pipe connection looks a stored id up and holds it. */
  lemma Held(cfg: Config, R: iset<World>, u: World, c: nat, id: Id) returns (w: World)
    requires Closed(cfg, R) && u in R && c !in u.conns && id in u.store.snaps
    ensures w in R && w.store == Pin(u.store, id, true) && w.hist.count == u.hist.count && w.hist.issued == u.hist.issued
    ensures Reading(w, c, id, ReadingOld) && w.conns - {c} == u.conns
  {
    w := Named(cfg, R, u, c, id);
    w := Go(cfg, R, w, Proceed(c));
    assert w.conns - {c} == u.conns;
    w := Do(cfg, R, w, LookUp(c, Snapshot([])));
    assert w.conns - {c} == u.conns;
  }

  lemma Answers(cfg: Config, R: iset<World>, u: World, c: nat, id: Id) returns (w: World)
    requires Closed(cfg, R) && u in R && Reading(u, c, id, ReadingOld)
    ensures w in R && SameShared(u, w) && w.conns - {c} == u.conns - {c}
    ensures c in w.conns && w.conns[c].phase.Responding? && w.conns[c].transport == Pipe && w.conns[c].pinned == id
  {
    w := Go(cfg, R, u, ReadOld(c));
    assert w.conns - {c} == u.conns - {c};
    w := Go(cfg, R, w, Handle(c, CoreOk));
    assert w.conns - {c} == u.conns - {c};
  }

  /** It answers, and its connection ends. */
  lemma Dropped(cfg: Config, R: iset<World>, u: World, c: nat, id: Id) returns (w: World)
    requires Closed(cfg, R) && u in R && Reading(u, c, id, ReadingOld) && id != []
    ensures w in R && w.store == Unpin(Unpin(u.store, id), id)
    ensures w.hist.count == u.hist.count && w.hist.issued == u.hist.issued && w.conns == u.conns - {c}
  {
    w := Answers(cfg, R, u, c, id);
    w := Do(cfg, R, w, Finish(c));
    assert w.conns - {c} == u.conns - {c};
    w := Do(cfg, R, w, Close(c));
  }

  /** From any state: a pipe connection that comes, names a stored id and goes leaves the id's
      count one lower than it found it, and everything else but the recency order as it was. */
  lemma VisitLosesOne(cfg: Config, R: iset<World>, u: World, c: nat, id: Id) returns (w: World)
    requires Closed(cfg, R) && u in R && c !in u.conns && id in u.store.snaps && id != []
    ensures w in R && PinCount(w.store.pins, id) == PinCount(u.store.pins, id) - 1
    ensures forall j :: j != id ==> PinCount(w.store.pins, j) == PinCount(u.store.pins, j)
    ensures w.store.snaps == u.store.snaps && w.store.counter == u.store.counter && w.conns == u.conns
    ensures w.store.lru == Without(u.store.lru, id) + [id]
    ensures w.hist.count == u.hist.count && w.hist.issued == u.hist.issued
  {
    w := Held(cfg, R, u, c, id);
    w := Dropped(cfg, R, w, c, id);
  }

  /** A new connection is about to capture. */
  lemma ReadyToCapture(cfg: Config, R: iset<World>, u: World, c: nat) returns (w: World)
    requires Closed(cfg, R) && u in R && c !in u.conns
    ensures w in R && SameShared(u, w) && w.conns - {c} == u.conns && Asks(w, c, CaptureM)
  {
    w := Go(cfg, R, u, Open(c, Pipe));
    assert w.conns - {c} == u.conns;
    w := Go(cfg, R, w, Receive(c, CAPTURE));
    assert w.conns - {c} == u.conns;
    w := Go(cfg, R, w, Attach(c, 0));
    assert w.conns - {c} == u.conns;
  }

  lemma NothingPinned(l: seq<Id>)
    ensures Pinned(l, {}) == [] && Unpinned(l, {}) == l
  {
    if l != [] {
      NothingPinned(l[1..]);
    }
  }

  /** With nothing protected a capture that overfills the list by x ids evicts its first x. */
  lemma OldestGo(st: Store, s: Snapshot, max: nat)
    requires PinnedIds(st.pins) == {}
    ensures EvictionEnds(Insert(st, s), max)
    ensures var l := Insert(st, s).lru;
            var x := Excess(l, max);
            EvictedIds(Insert(st, s), max) == Elements(l[..x]) && Evict(Insert(st, s), max).lru == l[x..]
  {
    var l := Insert(st, s).lru;
    NothingPinned(l);
    EvictedAreOldest(l, {}, max);
    var c := Cut(l, {}, Excess(l, max));
    CutSpec(l, {}, Excess(l, max), c);
    NothingPinned(l[..c]);
  }

  lemma NonePinned(pins: map<Id, int>)
    requires forall j :: PinCount(pins, j) <= 0
    ensures PinnedIds(pins) == {}
  {
    forall j ensures j !in PinnedIds(pins) {
      assert PinCount(pins, j) <= 0;
    }
  }

  /** A capture by a new connection that finds room, or that evicts the oldest id. */
  lemma CaptureUnprotected(cfg: Config, R: iset<World>, u: World, c: nat) returns (w: World)
    requires Closed(cfg, R) && u in R && c !in u.conns && PinnedIds(u.store.pins) == {}
    ensures w in R && w.hist.count == u.hist.count + 1 && w.hist.issued == u.hist.issued[NextId(u.store) := Snapshot([])]
    ensures EvictionEnds(Insert(u.store, Snapshot([])), cfg.maxSnapshots)
    ensures w.store == Evict(Insert(u.store, Snapshot([])), cfg.maxSnapshots)
    ensures c in w.conns && w.conns - {c} == u.conns
  {
    w := ReadyToCapture(cfg, R, u, c);
    OldestGo(w.store, Snapshot([]), cfg.maxSnapshots);
    w := Do(cfg, R, w, Capture(c, Snapshot([])));
    assert w.conns - {c} == u.conns;
  }

  lemma ConnsBelow(conns: map<nat, Conn>, c: nat)
    requires forall d :: d in conns - {c} ==> d < c
    ensures forall d :: d in conns ==> d < c + 1
  {
    forall d | d in conns ensures d < c + 1 {
      assert d == c || d in conns - {c};
    }
  }

  /** The first stored snapshot. */
  lemma FirstStored(cfg: Config, R: iset<World>) returns (w: World, id: Id)
    requires Closed(cfg, R) && INIT in R
    ensures w in R && id != [] && id in w.store.snaps && w.store.lru == [id] && w.store.pins == map[]
    ensures w.hist.count == 1 && id in w.hist.issued && forall c :: c in w.conns ==> c < 1
  {
    id := NextId(INIT.store);
    w := SubscribeOne(cfg, R, INIT, 0, Snapshot([]));
    ConnsBelow(w.conns, 0);
    assert w.store.lru == [] + [id] == [id];
  }

  /** n snapshots are stored, none protected; connection 2 holds the oldest of them. */
  ghost predicate Exposed(w: World, id: Id, n: nat) {
    && w.hist.count == n && id in w.hist.issued && |w.store.lru| == n && n >= 1 && w.store.lru[0] == id
    && PinnedIds(w.store.pins) == {} && Reading(w, 2, id, ReadingOld)
    && forall c :: c in w.conns ==> c < n + 2
  }

  /** After one pipe connection has come and gone, another one holds the id unprotected. */
  lemma HeldUnprotected(cfg: Config, R: iset<World>) returns (w: World, id: Id)
    requires Closed(cfg, R) && INIT in R
    ensures w in R && Exposed(w, id, 1)
  {
    var v;
    v, id := FirstStored(cfg, R);
    assert forall j :: PinCount(v.store.pins, j) == 0;
    var u := VisitLosesOne(cfg, R, v, 1, id);
    assert PinCount(u.store.pins, id) == -1 && forall j :: j != id ==> PinCount(u.store.pins, j) == 0;
    assert Without([id], id) == [];
    assert u.store.lru == [id];
    w := Held(cfg, R, u, 2, id);
    ConnsBelow(w.conns, 2);
    forall j ensures PinCount(w.store.pins, j) <= 0 {
      assert j != id ==> PinCount(w.store.pins, j) == PinCount(u.store.pins, j);
    }
    NonePinned(w.store.pins);
  }

  lemma ExposeMore(cfg: Config, R: iset<World>, u: World, id: Id, n: nat) returns (w: World)
    requires Closed(cfg, R) && u in R && Exposed(u, id, n) && n < cfg.maxSnapshots
    ensures w in R && Exposed(w, id, n + 1)
  {
    w := CaptureUnprotected(cfg, R, u, n + 2);
    OldestGo(u.store, Snapshot([]), cfg.maxSnapshots);
    var l := Insert(u.store, Snapshot([])).lru;
    assert l[..0] == [] && l[0..] == l;
    assert w.store.pins == u.store.pins;
    assert w.conns[2] == (w.conns - {n + 2})[2];
    ConnsBelow(w.conns, n + 2);
  }

  lemma {:induction false} ExposeAll(cfg: Config, R: iset<World>, n: nat) returns (w: World, id: Id)
    requires Closed(cfg, R) && INIT in R && n >= 1 && (n == 1 || n <= cfg.maxSnapshots)
    ensures w in R && Exposed(w, id, n)
  {
    if n == 1 {
      w, id := HeldUnprotected(cfg, R);
    } else {
      w, id := ExposeAll(cfg, R, n - 1);
      w := ExposeMore(cfg, R, w, id, n - 1);
    }
  }

  lemma ThenEvicted(cfg: Config, R: iset<World>, u: World, id: Id, n: nat) returns (w: World)
    requires Closed(cfg, R) && u in R && Exposed(u, id, n) && n >= cfg.maxSnapshots
    ensures w in R && w.hist.count == n + 1 && id in w.hist.issued
    ensures Reading(w, 2, id, ReadingOld) && id !in w.store.snaps
  {
    w := CaptureUnprotected(cfg, R, u, n + 2);
    OldestGo(u.store, Snapshot([]), cfg.maxSnapshots);
    var l := Insert(u.store, Snapshot([])).lru;
    assert l[..Excess(l, cfg.maxSnapshots)][0] == id;
    assert w.conns[2] == (w.conns - {n + 2})[2];
  }

  /** With pipes, pinning does not protect, whatever the limit: a request in flight holds an id
      and captures evict it, after one earlier pipe connection came and went. */
  lemma HeldYetEvicted(cfg: Config) returns (w: World, id: Id)
    ensures w in Reachable(cfg) && w.hist.count <= cfg.maxSnapshots + 2
    ensures Holders(w.conns, id) != {} && id in w.hist.issued && id !in w.store.snaps
  {
    ReachableProper(cfg);
    var n := if cfg.maxSnapshots == 0 then 1 else cfg.maxSnapshots;
    w, id := ExposeAll(cfg, Reachable(cfg), n);
    w := ThenEvicted(cfg, Reachable(cfg), w, id, n);
    assert 2 in Holders(w.conns, id);
  }

  // ---- the order of the list broken ----

  /** A TCP connection looks the older of two ids up. */
  lemma TcpLooksUp(cfg: Config, R: iset<World>, u: World, c: nat, id: Id) returns (w: World)
    requires Closed(cfg, R) && u in R && c !in u.conns && id in u.store.snaps
    ensures w in R && w.store.lru == u.store.lru && w.hist.touch == u.hist.touch[id := u.hist.clock]
    ensures w.hist.count == u.hist.count
  {
    w := Go(cfg, R, u, Open(c, Tcp));
    w := Go(cfg, R, w, Receive(c, Naming(id)));
    w := Go(cfg, R, w, Attach(c, 0));
    w := Go(cfg, R, w, Proceed(c));
    w := DoTouch(cfg, R, w, LookUp(c, Snapshot([])), id);
  }

  lemma OutOfOrder(cfg: Config, R: iset<World>) returns (w: World)
    requires Proper(cfg, R)
    ensures w in R && w.hist.count == 2 && !RecencyInv(w)
  {
    var s := Snapshot([]);
    var a := NextId(INIT.store);
    var u := SubscribeOne(cfg, R, INIT, 0, s);
    assert a in u.store.snaps && u.hist.touch[a] == 0;
    var b := NextId(u.store);
    assert b != a;
    ConnsBelow(u.conns, 0);
    var v := SubscribeOne(cfg, R, u, 1, s);
    assert v.store.lru == [a, b] && v.hist.touch[b] == 1 && v.hist.clock == 2;
    ConnsBelow(v.conns, 1);
    w := TcpLooksUp(cfg, R, v, 2, a);
    assert w.store.lru[0] == a && w.store.lru[1] == b && w.hist.touch[a] == 2 && w.hist.touch[b] == 1;
  }

  /** Whatever the configuration, some run with a TCP connection leaves the list unsorted. */
  lemma OrderBroken(cfg: Config)
    ensures exists w :: w in Reachable(cfg) && WithinCounter(w) && !RecencyInv(w)
  {
    ReachableProper(cfg);
    var w := OutOfOrder(cfg, Reachable(cfg));
  }

  // ---- a capture that does not return ----

  /** m snapshots are stored, the last j of the list pinned, none with a negative count. */
  ghost predicate Filled(w: World, m: nat, j: nat) {
    w.hist.count == m && PinnedBehind(w.store, m, j) && forall c :: c in w.conns ==> c < m + j
  }

  ghost predicate PinnedBehind(st: Store, m: nat, j: nat) {
    && |st.lru| == m && j <= m
    && (forall id :: PinCount(st.pins, id) >= 0)
    && (forall i :: m - j <= i < m ==> PinCount(st.pins, st.lru[i]) > 0)
  }

  /** Subscribing evicts nothing. */
  lemma {:induction false} Fill(cfg: Config, R: iset<World>, m: nat) returns (w: World)
    requires Closed(cfg, R) && INIT in R
    ensures w in R && Filled(w, m, 0)
  {
    if m == 0 {
      w := INIT;
    } else {
      var u := Fill(cfg, R, m - 1);
      w := SubscribeOne(cfg, R, u, m - 1, Snapshot([]));
      ConnsBelow(w.conns, m - 1);
    }
  }

  lemma WithoutFront(l: seq<Id>)
    requires NoDup(l) && l != []
    ensures Without(l, l[0]) == l[1..]
  {
    WithoutAbsent(l[1..], l[0]);
  }

  lemma PinFront(st: Store, m: nat, j: nat)
    requires PinnedBehind(st, m, j) && j < m && NoDup(st.lru)
    ensures PinnedBehind(Pin(st, st.lru[0], true), m, j + 1)
  {
    var l, v := st.lru, Pin(st, st.lru[0], true);
    WithoutFront(l);
    assert v.lru == l[1..] + [l[0]];
    forall id ensures PinCount(v.pins, id) >= PinCount(st.pins, id) {
    }
    forall i | m - (j + 1) <= i < m ensures PinCount(v.pins, v.lru[i]) > 0 {
      assert i < m - 1 ==> v.lru[i] == l[i + 1];
    }
  }

  lemma FrontStored(w: World)
    requires StoreInv(w) && w.store.lru != []
    ensures NoDup(w.store.lru) && w.store.lru[0] in w.store.snaps
  {
    assert w.store.lru[0] in w.store.lru;
  }

  /** One more request holds the front of the list, which moves to its back. */
  lemma FillPins(cfg: Config, R: iset<World>, u: World, m: nat, j: nat) returns (w: World)
    requires Closed(cfg, R) && u in R && StoreInv(u) && Filled(u, m, j) && j < m
    ensures w in R && Filled(w, m, j + 1)
  {
    FrontStored(u);
    PinFront(u.store, m, j);
    w := Held(cfg, R, u, m + j, u.store.lru[0]);
    ConnsBelow(w.conns, m + j);
  }

  lemma {:induction false} PinMany(cfg: Config, R: iset<World>, m: nat, j: nat) returns (w: World)
    requires Sane(cfg, R) && j <= m <= TWO64
    ensures w in R && Filled(w, m, j)
  {
    if j == 0 {
      w := Fill(cfg, R, m);
    } else {
      var u := PinMany(cfg, R, m, j - 1);
      w := FillPins(cfg, R, u, m, j - 1);
    }
  }

  lemma {:induction false} AllPinned(l: seq<Id>, p: set<Id>)
    requires forall i :: 0 <= i < |l| ==> l[i] in p
    ensures Pinned(l, p) == l
  {
    if l != [] {
      AllPinned(l[1..], p);
    }
  }

  lemma NeverEnds(st: Store, s: Snapshot, max: nat)
    requires |st.lru| == max + 1 && forall i :: 0 <= i < |st.lru| ==> PinCount(st.pins, st.lru[i]) > 0
    ensures !EvictionEnds(Insert(st, s), max)
  {
    var p := PinnedIds(st.pins);
    AllPinned(st.lru, p);
    PinnedConcat(st.lru, [NextId(st)], p);
  }

  lemma Stuck(cfg: Config, R: iset<World>, s: Snapshot) returns (w: World, c: nat)
    requires Sane(cfg, R) && cfg.maxSnapshots < TWO64
    ensures w in R && w.hist.count == cfg.maxSnapshots + 1
    ensures Asks(w, c, CaptureM) && !EvictionEnds(Insert(w.store, s), cfg.maxSnapshots)
  {
    var m := cfg.maxSnapshots + 1;
    var u := PinMany(cfg, R, m, m);
    c := m + m;
    w := ReadyToCapture(cfg, R, u, c);
    NeverEnds(w.store, s, cfg.maxSnapshots);
  }

  /** For every limit a 64-bit size can hold, some run brings a capture request to an eviction loop
      that never ends: subscribers fill the store and lookups in flight pin all of it. */
  lemma CaptureHangs(cfg: Config, s: Snapshot)
    requires cfg.maxSnapshots < TWO64
    ensures exists w, c :: w in Reachable(cfg) && WithinCounter(w) && Asks(w, c, CaptureM) &&
              !LoopEnds(Insert(w.store, s).lru, PinnedIds(w.store.pins), cfg.maxSnapshots)
  {
    ReachableSane(cfg);
    var w, c := Stuck(cfg, Reachable(cfg), s);
    LoopEndsIff(Insert(w.store, s).lru, PinnedIds(w.store.pins), cfg.maxSnapshots);
  }
}
