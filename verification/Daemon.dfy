/** The daemon as a step system. One action is one section under the mutex (or the local code
    between two sections) of one connection's handler; a run is any interleaving of actions.
    The pipe handler (handle_client) and the TCP handler (handle_socket_client) share the steps
    and differ where a transport is tested. */
module Daemon {
  import opened Bytes
  import opened Ids
  import opened Eviction
  import opened Stores
  import opened Diff

  datatype Config = Config(maxSnapshots: nat, maxSessions: nat, ttl: int)

  datatype Transport = Pipe | Tcp

  datatype Method = SubscribeM | UnsubscribeM | TerminateM | CaptureM | PollM | ListTopM | OtherM

  /** A parsed request; a parameter is Some when it is present and a string. */
  datatype Request = Request(verb: Method, sessionId: Option<bytes>, snapshotId: Option<Id>, oldId: Option<Id>)

  datatype ErrorCode = E_BAD_REQUEST | E_TOO_MANY_SESSIONS | E_ACCESS_DENIED | E_BAD_SNAPSHOT | E_CORE | E_TIMEOUT

  datatype Reply = Done | Issued(id: Id) | Top(list: seq<u64>) | Events(events: seq<Event>) | Failed(code: ErrorCode)

  /** Where a handler stands in its loop. */
  datatype Phase =
    | Idle                            // blocked in the read of the next message
    | Attaching                       // request parsed, session not attached yet
    | Dispatching                     // before the method-specific branches
    | LookingUp                       // before the snapshot_id lookup
    | ReadingOld                      // before the old_snapshot_id lookup
    | Running                         // inside core.handle
    | Rebasing(events: seq<Event>)    // successful poll, events not numbered, new baseline not stored yet
    | Responding(reply: Reply)        // response ready, snapshot still pinned

  datatype Conn = Conn(transport: Transport, session: ClientSession, pinned: Id, phase: Phase,
                       req: Request, snap: Snapshot, old_snap: Option<Snapshot>)

  const NO_REQUEST: Request := Request(OtherM, None, None, None)
  const NO_SNAPSHOT: Snapshot := Snapshot([])

  function NewConn(t: Transport): Conn {
    Conn(t, NEW_CLIENT, [], Idle, NO_REQUEST, NO_SNAPSHOT, None)
  }

  /** One successful poll: the capture it diffed, what it reported, the capture stored next. */
  datatype PollRecord = PollRecord(diffed: Snapshot, events: seq<Event>, latest: Snapshot)

  /** How a baseline came about: a first baseline and the polls since. */
  datatype Chain = Chain(base: Snapshot, polls: seq<PollRecord>)

  /** Bookkeeping for stating properties. The steps write it and never read it. */
  datatype History = History(
    count: nat,                   // ids issued so far
    issued: map<Id, Snapshot>,    // what was captured under each id
    closed: multiset<Id>,         // ids last pinned by a pipe connection that closed
    extra: nat,                   // subscribe and poll inserts since the last capture
    touch: map<Id, nat>,          // time of the last touch of each id
    clock: nat,
    chains: map<Id, Chain>)       // lineage of each baseline

  datatype World = World(store: Store, sessions: Table, conns: map<nat, Conn>, hist: History)

  const INIT: World := World(EMPTY, map[], map[], History(0, map[], multiset{}, 0, map[], 0, map[]))

  datatype Outcome = CoreOk | CoreError | CoreTimeout

  datatype Action =
    | Open(c: nat, t: Transport)
    | Receive(c: nat, r: Request)
    | Reject(c: nat)                      // malformed or unauthenticated request
    | Attach(c: nat, now: int)
    | Subscribe(c: nat, s: Snapshot)
    | Unsubscribe(c: nat)
    | Terminate(c: nat)
    | Capture(c: nat, s: Snapshot)
    | Deny(c: nat)                        // read-only mode
    | Proceed(c: nat)
    | LookUp(c: nat, s: Snapshot)         // s is captured when no snapshot_id is given
    | ReadOld(c: nat)
    | Handle(c: nat, outcome: Outcome)
    | Rebaseline(c: nat, s: Snapshot)
    | Finish(c: nat)                      // response written, snapshot unpinned
    | Close(c: nat)                       // read failed
    | CleanUp(now: int)

  // ---- when a step can happen ----

  predicate At(w: World, c: nat, p: Phase) {
    c in w.conns && w.conns[c].phase == p
  }

  predicate Asks(w: World, c: nat, m: Method) {
    At(w, c, Dispatching) && w.conns[c].req.verb == m
  }

  predicate Enabled(cfg: Config, w: World, a: Action) {
    match a
    case Open(c, _) => c !in w.conns
    case Receive(c, _) => At(w, c, Idle)
    case Reject(c) => At(w, c, Attaching)
    case Attach(c, _) => At(w, c, Attaching)
    case Subscribe(c, _) => Asks(w, c, SubscribeM)
    case Unsubscribe(c) => Asks(w, c, UnsubscribeM)
    case Terminate(c) => Asks(w, c, TerminateM)
    case Capture(c, s) => Asks(w, c, CaptureM) && EvictionEnds(Insert(w.store, s), cfg.maxSnapshots)
    case Deny(c) => Asks(w, c, OtherM)
    case Proceed(c) => Asks(w, c, PollM) || Asks(w, c, ListTopM) || Asks(w, c, OtherM)
    case LookUp(c, _) => At(w, c, LookingUp)
    case ReadOld(c) => At(w, c, ReadingOld)
    case Handle(c, o) => At(w, c, Running) && (o.CoreOk? && w.conns[c].req.verb.PollM? ==> w.conns[c].old_snap.Some?)
    case Rebaseline(c, _) => c in w.conns && w.conns[c].phase.Rebasing?
    case Finish(c) => c in w.conns && w.conns[c].phase.Responding?
    case Close(c) => At(w, c, Idle)
    case CleanUp(_) => true
  }

  // ---- what a step does to the store ----

  predicate LookUpHits(w: World, c: nat)
    requires c in w.conns
  {
    var r := w.conns[c].req;
    r.snapshotId.Some? && r.snapshotId.value in w.store.snaps
  }

  ghost function StoreAfter(cfg: Config, w: World, a: Action): Store
    requires Enabled(cfg, w, a)
  {
    match a
    case Subscribe(_, s) => Insert(w.store, s)
    case Rebaseline(_, s) => Insert(w.store, s)
    case Capture(_, s) => Evict(Insert(w.store, s), cfg.maxSnapshots)
    case LookUp(c, _) =>
      if LookUpHits(w, c) then Pin(w.store, w.conns[c].req.snapshotId.value, w.conns[c].transport.Pipe?) else w.store
    case Finish(c) =>
      if w.conns[c].pinned != [] then Unpin(w.store, w.conns[c].pinned) else w.store
    case Close(c) =>
      if ClosesPinned(w, c) then Unpin(w.store, w.conns[c].pinned) else w.store
    case _ => w.store
  }

  /** The pipe handler unpins once more when its connection ends after a request that pinned. */
  predicate ClosesPinned(w: World, c: nat)
    requires c in w.conns
  {
    w.conns[c].transport.Pipe? && w.conns[c].pinned != []
  }

  // ---- what a step does to the session table ----

  predicate Refused(cfg: Config, w: World, c: nat)
    requires c in w.conns
  {
    var k := w.conns[c];
    && k.transport.Tcp? && k.req.sessionId.Some?
    && |w.sessions| >= cfg.maxSessions && k.req.sessionId.value !in w.sessions
  }

  function TableAfter(cfg: Config, w: World, a: Action): Table
    requires Enabled(cfg, w, a)
  {
    match a
    case Attach(c, now) =>
      if w.conns[c].req.sessionId.Some? && !Refused(cfg, w, c)
      then AttachTable(w.sessions, w.conns[c].req.sessionId.value, now) else w.sessions
    case Subscribe(c, _) => SubscribeTable(w.sessions, w.conns[c].session.id, NextId(w.store))
    case Unsubscribe(c) => UnsubscribeTable(w.sessions, w.conns[c].session.id)
    case Terminate(c) => TerminateTable(w.sessions, w.conns[c].session.id)
    case Rebaseline(c, _) => RebaseTable(w.sessions, w.conns[c].session.id, NextId(w.store))
    case CleanUp(now) => Sweep(w.sessions, now, cfg.ttl)
    case _ => w.sessions
  }

  // ---- what a step does to its own connection ----

  /** The snapshot the third lookup finds: the named one, or a poll's stored baseline. */
  function OldSnapshot(w: World, c: nat): Option<Snapshot>
    requires c in w.conns
  {
    var k := w.conns[c];
    if k.req.oldId.Some? then Find(w.store, k.req.oldId.value)
    else if k.req.verb.PollM? && k.session.last != [] then Find(w.store, k.session.last)
    else None
  }

  function Find(st: Store, id: Id): Option<Snapshot> {
    if id in st.snaps then Some(st.snaps[id]) else None
  }

  function ConnAfter(cfg: Config, w: World, a: Action): Conn
    requires Enabled(cfg, w, a) && !a.Open? && !a.CleanUp?
  {
    var k := w.conns[a.c];
    match a
    case Receive(_, r) =>
      k.(phase := Attaching, req := r, pinned := [], session := if k.transport.Tcp? then NEW_CLIENT else k.session)
    case Reject(_) => k.(phase := Responding(Failed(E_BAD_REQUEST)))
    case Attach(c, _) =>
      if Refused(cfg, w, c) then k.(phase := Responding(Failed(E_TOO_MANY_SESSIONS)))
      else if k.req.sessionId.Some?
      then k.(phase := Dispatching, session := AttachClient(w.sessions, k.session, k.req.sessionId.value))
      else k.(phase := Dispatching)
    case Subscribe(_, _) =>
      k.(phase := Responding(Issued(NextId(w.store))), session := k.session.(subscribed := true, last := NextId(w.store)))
    case Unsubscribe(_) => k.(phase := Responding(Done), session := k.session.(subscribed := false, last := []))
    case Terminate(_) => k.(phase := LookingUp, session := k.session.(id := []))
    case Capture(_, _) => k.(phase := Responding(Issued(NextId(w.store))))
    case Deny(_) => k.(phase := Responding(Failed(E_ACCESS_DENIED)))
    case Proceed(_) => k.(phase := LookingUp)
    case LookUp(c, s) =>
      if k.req.snapshotId.None? then k.(phase := ReadingOld, snap := s)
      else if LookUpHits(w, c)
      then k.(phase := ReadingOld, snap := w.store.snaps[k.req.snapshotId.value], pinned := k.req.snapshotId.value)
      else k.(phase := Responding(Failed(E_BAD_SNAPSHOT)))
    case ReadOld(c) => k.(phase := Running, old_snap := OldSnapshot(w, c))
    case Handle(_, o) =>
      if o.CoreTimeout? then k.(phase := Responding(Failed(E_TIMEOUT)))
      else if o.CoreError? then k.(phase := Responding(Failed(E_CORE)))
      else if k.req.verb.PollM? then k.(phase := Rebasing(PollEvents(k.old_snap.value.top, k.snap.top)))
      else if k.req.verb.ListTopM? then k.(phase := Responding(Top(k.snap.top)))
      else k.(phase := Responding(Done))
    case Rebaseline(_, _) =>
      k.(phase := Responding(Events(Renumbered(k.phase.events))), session := k.session.(last := NextId(w.store)))
    case Finish(_) => k.(phase := Idle, pinned := if k.transport.Pipe? then k.pinned else [])
    case Close(_) => k
  }

  function ConnsAfter(cfg: Config, w: World, a: Action): map<nat, Conn>
    requires Enabled(cfg, w, a)
  {
    match a
    case Open(c, t) => w.conns[c := NewConn(t)]
    case Close(c) => w.conns - {c}
    case CleanUp(_) => w.conns
    case _ => w.conns[a.c := ConnAfter(cfg, w, a)]
  }

  // ---- what a step adds to the history ----

  predicate Inserts(a: Action) {
    a.Subscribe? || a.Rebaseline? || a.Capture?
  }

  /** Touch the ids of a list one after the other. */
  function TouchAll(touch: map<Id, nat>, clock: nat, l: seq<Id>): map<Id, nat>
    decreases |l|
  {
    if l == [] then touch else TouchAll(touch[l[0] := clock], clock + 1, l[1..])
  }

  /** The pinned ids an eviction moves to the back. */
  ghost function PassedOver(st: Store, max: nat): seq<Id>
    requires EvictionEnds(st, max)
  {
    var p := PinnedIds(st.pins);
    FilterLengths(st.lru, p);
    Pinned(st.lru[..Cut(st.lru, p, Excess(st.lru, max))], p)
  }

  /** The ids a step touches, in order: created, looked up, or passed over while pinned. */
  ghost function Touched(cfg: Config, w: World, a: Action): seq<Id>
    requires Enabled(cfg, w, a)
  {
    match a
    case Subscribe(_, _) => [NextId(w.store)]
    case Rebaseline(_, _) => [NextId(w.store)]
    case Capture(_, s) => [NextId(w.store)] + PassedOver(Insert(w.store, s), cfg.maxSnapshots)
    case LookUp(c, _) => if LookUpHits(w, c) then [w.conns[c].req.snapshotId.value] else []
    case _ => []
  }

  /** The lineage a successful poll hands to its new baseline. */
  function Extended(w: World, c: nat, latest: Snapshot): Chain
    requires c in w.conns && w.conns[c].phase.Rebasing? && w.conns[c].old_snap.Some?
  {
    var k := w.conns[c];
    var rec := PollRecord(k.snap, k.phase.events, latest);
    if k.req.oldId.None? && k.session.last in w.hist.chains
    then Chain(w.hist.chains[k.session.last].base, w.hist.chains[k.session.last].polls + [rec])
    else Chain(k.old_snap.value, [rec])
  }

  function ChainsAfter(w: World, a: Action): map<Id, Chain> {
    match a
    case Subscribe(_, s) => w.hist.chains[NextId(w.store) := Chain(s, [])]
    case Rebaseline(c, s) =>
      if c in w.conns && w.conns[c].phase.Rebasing? && w.conns[c].old_snap.Some?
      then w.hist.chains[NextId(w.store) := Extended(w, c, s)] else w.hist.chains
    case _ => w.hist.chains
  }

  ghost function HistAfter(cfg: Config, w: World, a: Action): History
    requires Enabled(cfg, w, a)
  {
    var h := w.hist;
    var t := Touched(cfg, w, a);
    History(
      if Inserts(a) then h.count + 1 else h.count,
      if Inserts(a) then h.issued[NextId(w.store) := a.s] else h.issued,
      if a.Close? && ClosesPinned(w, a.c) then h.closed + multiset{w.conns[a.c].pinned} else h.closed,
      if a.Capture? then 0 else if Inserts(a) then h.extra + 1 else h.extra,
      TouchAll(h.touch, h.clock, t),
      h.clock + |t|,
      ChainsAfter(w, a))
  }

  ghost function Next(cfg: Config, w: World, a: Action): World
    requires Enabled(cfg, w, a)
  {
    World(StoreAfter(cfg, w, a), TableAfter(cfg, w, a), ConnsAfter(cfg, w, a), HistAfter(cfg, w, a))
  }

  // ---- runs ----

  ghost predicate Possible(cfg: Config, run: seq<Action>)
    decreases |run|, 0
  {
    run == [] || (Possible(cfg, run[..|run| - 1]) && Enabled(cfg, After(cfg, run[..|run| - 1]), run[|run| - 1]))
  }

  /** The world a possible run ends in. */
  ghost function After(cfg: Config, run: seq<Action>): World
    requires Possible(cfg, run)
    decreases |run|, 1
  {
    if run == [] then INIT else Next(cfg, After(cfg, run[..|run| - 1]), run[|run| - 1])
  }

  ghost predicate Only(run: seq<Action>, t: Transport) {
    forall i :: 0 <= i < |run| && run[i].Open? ==> run[i].t == t
  }

  /** The ids still unused: the counter has not come round. */
  ghost predicate WithinCounter(w: World) {
    w.hist.count <= TWO64
  }

  ghost predicate InFlight(k: Conn) {
    !k.phase.Idle?
  }

  ghost predicate Uses(w: World, t: Transport) {
    forall c :: c in w.conns ==> w.conns[c].transport == t
  }

  lemma TransportStep(cfg: Config, w: World, a: Action)
    requires Enabled(cfg, w, a) && !a.Open? && !a.CleanUp?
    ensures ConnAfter(cfg, w, a).transport == w.conns[a.c].transport
  {
  }

  lemma UsesStep(cfg: Config, w: World, a: Action, t: Transport)
    requires Uses(w, t) && Enabled(cfg, w, a) && (a.Open? ==> a.t == t)
    ensures Uses(Next(cfg, w, a), t)
  {
    if !a.Open? && !a.CleanUp? {
      TransportStep(cfg, w, a);
    }
  }

  lemma {:induction false} UsesOnly(cfg: Config, run: seq<Action>, t: Transport)
    requires Possible(cfg, run) && Only(run, t)
    ensures Uses(After(cfg, run), t)
  {
    if run != [] {
      UsesOnly(cfg, run[..|run| - 1], t);
      UsesStep(cfg, After(cfg, run[..|run| - 1]), run[|run| - 1], t);
    }
  }
}
