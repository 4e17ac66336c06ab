/** The bound of SessionLimit is attained, for every limit and every number of requests in flight. */
module SessionWitness {
  import opened Bytes
  import opened Stores
  import opened Daemon
  import opened SessionLimit

  // ---- from steps to runs ----

  /** Worlds that TCP steps with at most n requests in flight do not leave. */
  ghost predicate ClosedWithin(cfg: Config, R: iset<World>, n: nat) {
    forall w, a :: w in R && Enabled(cfg, w, a) && (a.Open? ==> a.t == Tcp) && |InFlightSet(ConnsAfter(cfg, w, a))| <= n
                   ==> Next(cfg, w, a) in R
  }

  ghost predicate TcpRun(cfg: Config, run: seq<Action>, n: nat) {
    Possible(cfg, run) && Only(run, Tcp) && AtMostInFlight(cfg, run, n)
  }

  ghost function TcpWorlds(cfg: Config, n: nat): iset<World> {
    iset run | TcpRun(cfg, run, n) :: After(cfg, run)
  }

  lemma ExtendTcp(cfg: Config, run: seq<Action>, n: nat, a: Action)
    requires TcpRun(cfg, run, n) && Enabled(cfg, After(cfg, run), a) && (a.Open? ==> a.t == Tcp)
    requires |InFlightSet(ConnsAfter(cfg, After(cfg, run), a))| <= n
    ensures TcpRun(cfg, run + [a], n) && After(cfg, run + [a]) == Next(cfg, After(cfg, run), a)
  {
    assert (run + [a])[..|run|] == run;
  }

  lemma TcpWorldsClosed(cfg: Config, n: nat)
    ensures INIT in TcpWorlds(cfg, n) && ClosedWithin(cfg, TcpWorlds(cfg, n), n)
  {
    assert InFlightSet(INIT.conns) == {};
    assert TcpRun(cfg, [], n) && After(cfg, []) == INIT;
    forall w, a | w in TcpWorlds(cfg, n) && Enabled(cfg, w, a) && (a.Open? ==> a.t == Tcp) &&
                  |InFlightSet(ConnsAfter(cfg, w, a))| <= n
      ensures Next(cfg, w, a) in TcpWorlds(cfg, n)
    {
      var run :| TcpRun(cfg, run, n) && After(cfg, run) == w;
      ExtendTcp(cfg, run, n, a);
    }
  }

  // ---- n connections, numbered ----

  /** The connections are those numbered below m. */
  ghost predicate Upto(conns: map<nat, Conn>, m: nat) {
    forall c: nat :: c in conns <==> c < m
  }

  lemma {:induction false} SmallSet(s: set<nat>, n: nat)
    requires forall c :: c in s ==> c < n
    ensures |s| <= n
    decreases n
  {
    if n > 0 {
      SmallSet(s - {n - 1}, n - 1);
    } else {
      assert s == {};
    }
  }

  lemma Act(cfg: Config, R: iset<World>, n: nat, w: World, a: Action) returns (v: World)
    requires ClosedWithin(cfg, R, n) && w in R && Enabled(cfg, w, a) && (a.Open? ==> a.t == Tcp)
    requires forall c: nat :: c in ConnsAfter(cfg, w, a) ==> c < n
    ensures v in R && v.conns == ConnsAfter(cfg, w, a) && v.sessions == TableAfter(cfg, w, a)
  {
    SmallSet(InFlightSet(ConnsAfter(cfg, w, a)), n);
    v := Next(cfg, w, a);
  }

  function Key(i: nat): bytes {
    Decimal(i)
  }

  lemma KeysApart(i: nat, j: nat)
    requires Key(i) == Key(j)
    ensures i == j
  {
    DecimalRoundTrip(i);
    DecimalRoundTrip(j);
  }

  // ---- requests whose session is swept under them ----

  /** Connection i is about to subscribe for session i. */
  ghost predicate Waiting(w: World, i: nat) {
    && i in w.conns && w.conns[i].transport == Tcp && w.conns[i].phase == Dispatching
    && w.conns[i].req.verb == SubscribeM && w.conns[i].session.id == Key(i)
  }

  function Late(ttl: int): int {
    (if ttl < 0 then 1 else ttl + 1) * NANOS
  }

  lemma LateExpires(s: PersistentSession, ttl: int)
    requires s.lastActivity == 0
    ensures Expired(s, Late(ttl), ttl)
  {
    QuotientUnique(Late(ttl), NANOS, if ttl < 0 then 1 else ttl + 1, 0);
  }

  /** Connection m, idle, sends a request for a session that does not exist yet and attaches. */
  lemma Joins(cfg: Config, R: iset<World>, n: nat, u: World, m: nat, verb: Method, key: bytes) returns (w: World)
    requires ClosedWithin(cfg, R, n) && u in R && m < n && Upto(u.conns, m + 1)
    requires u.conns[m].transport == Tcp && u.conns[m].phase == Idle
    requires key !in u.sessions && |u.sessions| < cfg.maxSessions
    ensures w in R && Upto(w.conns, m + 1) && w.sessions == u.sessions[key := PersistentSession([], false, 0)]
    ensures var k := w.conns[m];
            k.transport == Tcp && k.phase == Dispatching && k.req.verb == verb && k.session.id == key && k.pinned == []
    ensures forall i: nat :: i < m ==> w.conns[i] == u.conns[i]
  {
    w := Act(cfg, R, n, u, Receive(m, Request(verb, Some(key), None, None)));
    w := Act(cfg, R, n, w, Attach(m, 0));
  }

  /** One more request attaches; its session then expires. */
  lemma WaitOne(cfg: Config, R: iset<World>, n: nat, u: World, m: nat) returns (w: World)
    requires ClosedWithin(cfg, R, n) && u in R && m < n && cfg.maxSessions >= 1
    requires Upto(u.conns, m) && u.sessions == map[]
    ensures w in R && Upto(w.conns, m + 1) && w.sessions == map[] && Waiting(w, m)
    ensures forall i: nat :: i < m ==> w.conns[i] == u.conns[i]
  {
    w := Act(cfg, R, n, u, Open(m, Tcp));
    w := Joins(cfg, R, n, w, m, SubscribeM, Key(m));
    LateExpires(w.sessions[Key(m)], cfg.ttl);
    w := Act(cfg, R, n, w, CleanUp(Late(cfg.ttl)));
  }

  lemma {:induction false} WaitMany(cfg: Config, R: iset<World>, n: nat, m: nat) returns (w: World)
    requires ClosedWithin(cfg, R, n) && INIT in R && m <= n && cfg.maxSessions >= 1
    ensures w in R && Upto(w.conns, m) && w.sessions == map[]
    ensures forall i: nat :: i < m ==> Waiting(w, i)
  {
    if m == 0 {
      w := INIT;
    } else {
      var u := WaitMany(cfg, R, n, m - 1);
      w := WaitOne(cfg, R, n, u, m - 1);
      forall i: nat | i < m ensures Waiting(w, i) {
        assert i < m - 1 ==> Waiting(u, i);
      }
    }
  }

  // ---- the table fills up to its limit ----

  ghost predicate Between(t: Table, a: nat, b: nat) {
    forall k :: k in t ==> exists i: nat :: a <= i < b && k == Key(i)
  }

  lemma NewBehind(t: Table, a: nat, b: nat)
    requires Between(t, a, b)
    ensures Key(b) !in t
  {
    if Key(b) in t {
      var i: nat :| a <= i < b && Key(b) == Key(i);
      KeysApart(b, i);
      assert false;
    }
  }

  lemma BetweenMore(t: Table, a: nat, b: nat, s: PersistentSession)
    requires Between(t, a, b) && a <= b
    ensures Between(t[Key(b) := s], a, b + 1)
  {
    var t' := t[Key(b) := s];
    forall k | k in t' ensures exists i: nat :: a <= i < b + 1 && k == Key(i) {
      if k != Key(b) {
        var i: nat :| a <= i < b && k == Key(i);
        assert i < b + 1;
      }
    }
  }

  /** Connection m, idle, makes one more session and is idle again. */
  lemma FillOne(cfg: Config, R: iset<World>, n: nat, u: World, m: nat, j: nat) returns (w: World)
    requires ClosedWithin(cfg, R, n) && u in R && m < n && Upto(u.conns, m + 1)
    requires u.conns[m].transport == Tcp && u.conns[m].phase == Idle
    requires Between(u.sessions, n, n + j) && |u.sessions| == j < cfg.maxSessions
    ensures w in R && Upto(w.conns, m + 1) && w.conns[m].transport == Tcp && w.conns[m].phase == Idle
    ensures Between(w.sessions, n, n + j + 1) && |w.sessions| == j + 1
    ensures forall i: nat :: i < m ==> w.conns[i] == u.conns[i]
  {
    NewBehind(u.sessions, n, n + j);
    BetweenMore(u.sessions, n, n + j, PersistentSession([], false, 0));
    w := Joins(cfg, R, n, u, m, UnsubscribeM, Key(n + j));
    w := Leaves(cfg, R, n, w, m);
  }

  /** An unsubscribe request for a session just made changes nothing and ends. */
  lemma Leaves(cfg: Config, R: iset<World>, n: nat, u: World, m: nat) returns (w: World)
    requires ClosedWithin(cfg, R, n) && u in R && m < n && Upto(u.conns, m + 1)
    requires var k := u.conns[m];
             && k.transport == Tcp && k.phase == Dispatching && k.req.verb == UnsubscribeM && k.pinned == []
             && k.session.id in u.sessions && u.sessions[k.session.id] == PersistentSession([], false, 0)
    ensures w in R && Upto(w.conns, m + 1) && w.conns[m].transport == Tcp && w.conns[m].phase == Idle
    ensures w.sessions == u.sessions
    ensures forall i: nat :: i < m ==> w.conns[i] == u.conns[i]
  {
    w := Act(cfg, R, n, u, Unsubscribe(m));
    assert w.sessions == u.sessions;
    w := Act(cfg, R, n, w, Finish(m));
  }

  lemma {:induction false} FillMany(cfg: Config, R: iset<World>, n: nat, u: World, m: nat, j: nat) returns (w: World)
    requires ClosedWithin(cfg, R, n) && u in R && m < n && Upto(u.conns, m + 1)
    requires u.conns[m].transport == Tcp && u.conns[m].phase == Idle && u.sessions == map[] && j <= cfg.maxSessions
    ensures w in R && Upto(w.conns, m + 1) && w.conns[m].transport == Tcp && w.conns[m].phase == Idle
    ensures Between(w.sessions, n, n + j) && |w.sessions| == j
    ensures forall i: nat :: i < m ==> w.conns[i] == u.conns[i]
    decreases j
  {
    if j == 0 {
      w := u;
    } else {
      var v := FillMany(cfg, R, n, u, m, j - 1);
      w := FillOne(cfg, R, n, v, m, j - 1);
    }
  }

  // ---- and the waiting requests write their sessions back ----

  /** The sessions of index below m, and some of index n and above. */
  ghost predicate BackTo(t: Table, m: nat, n: nat) {
    forall k :: k in t ==> exists i: nat :: (i < m || n <= i) && k == Key(i)
  }

  lemma NewBack(t: Table, m: nat, n: nat, s: PersistentSession)
    requires BackTo(t, m, n) && m < n
    ensures Key(m) !in t && BackTo(t[Key(m) := s], m + 1, n)
  {
    if Key(m) in t {
      var i: nat :| (i < m || n <= i) && Key(m) == Key(i);
      KeysApart(m, i);
      assert false;
    }
    var t' := t[Key(m) := s];
    forall k | k in t' ensures exists i: nat :: (i < m + 1 || n <= i) && k == Key(i) {
      if k != Key(m) {
        var i: nat :| (i < m || n <= i) && k == Key(i);
        assert i < m + 1 || n <= i;
      }
    }
  }

  lemma KeyNonEmpty(i: nat)
    ensures Key(i) != []
  {
  }

  lemma WriteOne(cfg: Config, R: iset<World>, n: nat, u: World, m: nat) returns (w: World)
    requires ClosedWithin(cfg, R, n) && u in R && m < n && Upto(u.conns, n) && BackTo(u.sessions, m, n)
    requires Waiting(u, m)
    ensures w in R && Upto(w.conns, n) && BackTo(w.sessions, m + 1, n) && |w.sessions| == |u.sessions| + 1
    ensures forall i: nat :: i < n && i != m ==> w.conns[i] == u.conns[i]
  {
    var e := Entry(u.sessions, Key(m)).(subscribed := true, last := NextId(u.store));
    NewBack(u.sessions, m, n, e);
    KeyNonEmpty(m);
    w := Act(cfg, R, n, u, Subscribe(m, Snapshot([])));
    assert w.sessions == u.sessions[Key(m) := e];
  }

  lemma {:induction false} WriteBack(cfg: Config, R: iset<World>, n: nat, u: World, m: nat) returns (w: World)
    requires ClosedWithin(cfg, R, n) && u in R && m < n && Upto(u.conns, n) && BackTo(u.sessions, 0, n)
    requires forall i: nat :: i < n - 1 ==> Waiting(u, i)
    ensures w in R && Upto(w.conns, n) && BackTo(w.sessions, m, n) && |w.sessions| == |u.sessions| + m
    ensures forall i: nat :: m <= i < n - 1 ==> Waiting(w, i)
    decreases m
  {
    if m == 0 {
      w := u;
    } else {
      var v := WriteBack(cfg, R, n, u, m - 1);
      w := WriteOne(cfg, R, n, v, m - 1);
      forall i: nat | m <= i < n - 1 ensures Waiting(w, i) {
        assert Waiting(v, i);
      }
    }
  }

  lemma BetweenIsBack(t: Table, n: nat, b: nat)
    requires Between(t, n, b)
    ensures BackTo(t, 0, n)
  {
    forall k | k in t ensures exists i: nat :: (i < 0 || n <= i) && k == Key(i) {
      var i: nat :| n <= i < b && k == Key(i);
      assert i < 0 || n <= i;
    }
  }

  lemma Attained(cfg: Config, R: iset<World>, n: nat) returns (w: World)
    requires ClosedWithin(cfg, R, n) && INIT in R && n >= 1 && cfg.maxSessions >= 1
    ensures w in R && |w.sessions| == cfg.maxSessions + n - 1
  {
    var v := WaitMany(cfg, R, n, n - 1);
    var u := Act(cfg, R, n, v, Open(n - 1, Tcp));
    assert Upto(u.conns, n);
    w := FillMany(cfg, R, n, u, n - 1, cfg.maxSessions);
    BetweenIsBack(w.sessions, n, n + cfg.maxSessions);
    forall i: nat | i < n - 1 ensures Waiting(w, i) {
      assert Waiting(v, i);
    }
    w := WriteBack(cfg, R, n, w, n - 1);
  }

  /** For every limit of at least one and every n of at least one, some TCP run with at most n
      requests in flight brings the table to max_sessions + n - 1 entries. */
  lemma SessionBoundAttained(cfg: Config, n: nat) returns (run: seq<Action>)
    requires n >= 1 && cfg.maxSessions >= 1
    ensures Possible(cfg, run) && Only(run, Tcp) && AtMostInFlight(cfg, run, n)
    ensures |After(cfg, run).sessions| == cfg.maxSessions + n - 1
  {
    TcpWorldsClosed(cfg, n);
    var w := Attained(cfg, TcpWorlds(cfg, n), n);
    run :| TcpRun(cfg, run, n) && After(cfg, run) == w;
  }
}
