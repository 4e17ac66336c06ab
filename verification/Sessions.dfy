/** What the session table holds, told from the run alone; when a session is swept; and that the
    next poll of a session compares against what its last subscribe or poll captured. */
module Sessions {
  import opened Bytes
  import opened Ids
  import opened Stores
  import opened Daemon
  import opened StoreSafety
  import opened Isolation
  import opened Baselines

  // ---- the ledger of a session ----

  /** A request that names the session. */
  ghost predicate Names(w: World, a: Action, key: bytes) {
    a.Attach? && a.c in w.conns && w.conns[a.c].req.sessionId == Some(key)
  }

  /** A step of a handler attached to the session; the empty key is no session. */
  ghost predicate Acts(w: World, a: Action, key: bytes) {
    key != [] && !a.CleanUp? && a.c in w.conns && w.conns[a.c].session.id == key
  }

  /** Idle for longer than the time to live, counted in whole seconds. */
  predicate TooLong(idle: int, ttl: int) {
    if ttl >= 0 then idle >= (ttl + 1) * 1_000_000_000 else idle > ttl * 1_000_000_000
  }

  /** The session exists: named by an accepted request or written back, and neither terminated nor
      swept since. */
  ghost predicate Present(cfg: Config, run: seq<Action>, key: bytes)
    requires Possible(cfg, run)
    decreases |run|, 0
  {
    run != [] &&
    var before, a := run[..|run| - 1], run[|run| - 1];
    var w := After(cfg, before);
    if Names(w, a, key) then
      Present(cfg, before, key) || w.conns[a.c].transport.Pipe? || |w.sessions| < cfg.maxSessions
    else if Acts(w, a, key) && (a.Subscribe? || a.Rebaseline?) then true
    else if Acts(w, a, key) && a.Terminate? then false
    else if a.CleanUp? then Present(cfg, before, key) && !TooLong(a.now - Seen(cfg, before, key), cfg.ttl)
    else Present(cfg, before, key)
  }

  /** When a request last named the session; zero for one written back after it was gone. */
  ghost function Seen(cfg: Config, run: seq<Action>, key: bytes): int
    requires Possible(cfg, run)
    decreases |run|, 1
  {
    if run == [] || !Present(cfg, run, key) then 0
    else
      var before, a := run[..|run| - 1], run[|run| - 1];
      if Names(After(cfg, before), a, key) then a.now else Seen(cfg, before, key)
  }

  /** The id issued to the last subscribe or successful poll of the session; none behind an
      unsubscribe. */
  ghost function LastId(cfg: Config, run: seq<Action>, key: bytes): Id
    requires Possible(cfg, run)
    decreases |run|
  {
    if run == [] || !Present(cfg, run, key) then []
    else
      var before, a := run[..|run| - 1], run[|run| - 1];
      var w := After(cfg, before);
      if Acts(w, a, key) && (a.Subscribe? || a.Rebaseline?) then IdAt(w.hist.count)
      else if Acts(w, a, key) && a.Unsubscribe? then []
      else LastId(cfg, before, key)
  }

  /** Subscribed, and not unsubscribed since. */
  ghost predicate Listening(cfg: Config, run: seq<Action>, key: bytes)
    requires Possible(cfg, run)
    decreases |run|
  {
    run != [] && Present(cfg, run, key) &&
    var before, a := run[..|run| - 1], run[|run| - 1];
    var w := After(cfg, before);
    if Acts(w, a, key) && a.Subscribe? then true
    else if Acts(w, a, key) && a.Unsubscribe? then false
    else Listening(cfg, before, key)
  }

  lemma ExpiredIs(s: PersistentSession, now: int, ttl: int)
    ensures Expired(s, now, ttl) <==> TooLong(now - s.lastActivity, ttl)
  {
    var x := now - s.lastActivity;
    if x >= 0 {
      Seconds(x, ttl);
    } else {
      Seconds(-x, -ttl - 1);
    }
  }

  lemma Seconds(x: nat, n: int)
    ensures x / NANOS > n <==> x >= (n + 1) * NANOS
  {
    var q := x / NANOS;
    assert q * NANOS <= x < (q + 1) * NANOS;
    if q > n {
      assert (n + 1) * NANOS <= q * NANOS;
    } else {
      assert (q + 1) * NANOS <= (n + 1) * NANOS;
    }
  }

  // ---- one step ----

  const NO_ENTRY: PersistentSession := PersistentSession([], false, 0)

  function EntryIn(t: Table, key: bytes): PersistentSession {
    if key in t then t[key] else NO_ENTRY
  }

  lemma NamedStep(cfg: Config, w: World, a: Action, key: bytes)
    requires Enabled(cfg, w, a) && Names(w, a, key)
    ensures var t := TableAfter(cfg, w, a);
            && (key in t <==> key in w.sessions || w.conns[a.c].transport.Pipe? || |w.sessions| < cfg.maxSessions)
            && (key in t ==> t[key] == EntryIn(w.sessions, key).(lastActivity := a.now))
  {
  }

  lemma ActedStep(cfg: Config, w: World, a: Action, key: bytes)
    requires Enabled(cfg, w, a) && Acts(w, a, key) && (a.Subscribe? || a.Rebaseline? || a.Unsubscribe? || a.Terminate?)
    ensures var t, e := TableAfter(cfg, w, a), EntryIn(w.sessions, key);
            && (a.Subscribe? ==> key in t && t[key] == PersistentSession(NextId(w.store), true, e.lastActivity))
            && (a.Rebaseline? ==> key in t && t[key] == PersistentSession(NextId(w.store), e.subscribed, e.lastActivity))
            && (a.Unsubscribe? ==> (key in t <==> key in w.sessions)
                                   && (key in t ==> t[key] == PersistentSession([], false, e.lastActivity)))
            && (a.Terminate? ==> key !in t)
  {
  }

  /** A sweep removes an entry if and only if it was idle for too long, and keeps the others as they
      are. */
  lemma SweptStep(cfg: Config, w: World, a: Action, key: bytes)
    requires Enabled(cfg, w, a) && a.CleanUp?
    ensures var t := TableAfter(cfg, w, a);
            && (key in t <==> key in w.sessions && !TooLong(a.now - w.sessions[key].lastActivity, cfg.ttl))
            && (key in t ==> t[key] == w.sessions[key])
  {
    if key in w.sessions {
      ExpiredIs(w.sessions[key], a.now, cfg.ttl);
    }
  }

  lemma OtherStep(cfg: Config, w: World, a: Action, key: bytes)
    requires Enabled(cfg, w, a) && !Names(w, a, key) && !a.CleanUp?
    requires !(Acts(w, a, key) && (a.Subscribe? || a.Rebaseline? || a.Unsubscribe? || a.Terminate?))
    ensures var t := TableAfter(cfg, w, a);
            (key in t <==> key in w.sessions) && (key in t ==> t[key] == w.sessions[key])
  {
  }

  // ---- whole runs ----

  ghost predicate Matches(cfg: Config, run: seq<Action>, key: bytes)
    requires Possible(cfg, run)
  {
    var t := After(cfg, run).sessions;
    && (key in t <==> Present(cfg, run, key))
    && EntryIn(t, key) == PersistentSession(LastId(cfg, run, key), Listening(cfg, run, key), Seen(cfg, run, key))
  }

  lemma {:induction false} NumberedRun(cfg: Config, run: seq<Action>)
    requires Possible(cfg, run)
    ensures Numbered(After(cfg, run))
  {
    if run != [] {
      NumberedRun(cfg, run[..|run| - 1]);
      NumberedStep(cfg, After(cfg, run[..|run| - 1]), run[|run| - 1]);
    }
  }

  /** The table is the ledger: in every run a session exists, with that baseline, flag and time, if
      and only if the run says so. */
  lemma {:induction false} TableIsLedger(cfg: Config, run: seq<Action>, key: bytes)
    requires Possible(cfg, run)
    ensures Matches(cfg, run, key)
  {
    if run != [] {
      var before, a := run[..|run| - 1], run[|run| - 1];
      var w := After(cfg, before);
      TableIsLedger(cfg, before, key);
      NumberedRun(cfg, before);
      if Names(w, a, key) {
        NamedStep(cfg, w, a, key);
      } else if a.CleanUp? {
        SweptStep(cfg, w, a, key);
      } else if Acts(w, a, key) && (a.Subscribe? || a.Rebaseline? || a.Unsubscribe? || a.Terminate?) {
        ActedStep(cfg, w, a, key);
      } else {
        OtherStep(cfg, w, a, key);
      }
    }
  }

  lemma PresentIs(cfg: Config, run: seq<Action>, key: bytes)
    requires Possible(cfg, run)
    ensures key in After(cfg, run).sessions <==> Present(cfg, run, key)
  {
    TableIsLedger(cfg, run, key);
  }

  /** The time a sweep goes by is that of the last request that named the session. */
  lemma SeenIs(cfg: Config, run: seq<Action>, key: bytes)
    requires Possible(cfg, run) && key in After(cfg, run).sessions
    ensures After(cfg, run).sessions[key].lastActivity == Seen(cfg, run, key)
  {
    TableIsLedger(cfg, run, key);
  }

  /** A TCP request is refused if and only if it names a session that does not exist while as many
      as are allowed do; a pipe request never is. */
  lemma RefusedIff(cfg: Config, run: seq<Action>, c: nat, now: int)
    requires Possible(cfg, run) && Enabled(cfg, After(cfg, run), Attach(c, now))
    ensures var w := After(cfg, run);
            var r := w.conns[c].req.sessionId;
            Next(cfg, w, Attach(c, now)).conns[c].phase == Responding(Failed(E_TOO_MANY_SESSIONS)) <==>
            w.conns[c].transport.Tcp? && r.Some? && !Present(cfg, run, r.value) && |w.sessions| >= cfg.maxSessions
  {
    var r := After(cfg, run).conns[c].req.sessionId;
    if r.Some? {
      PresentIs(cfg, run, r.value);
    }
  }

  // ---- what a handler knows of its session ----

  /** After a subscribe or a successful poll the handler and the table have the same new baseline,
      which means the capture just made. */
  lemma BothRenewed(cfg: Config, run: seq<Action>, a: Action)
    requires Possible(cfg, run) && Enabled(cfg, After(cfg, run), a) && (a.Subscribe? || a.Rebaseline?)
    ensures var w, v := After(cfg, run), Next(cfg, After(cfg, run), a);
            var b, key := v.conns[a.c].session.last, w.conns[a.c].session.id;
            && b == IdAt(w.hist.count) && v.hist.issued == w.hist.issued[b := a.s]
            && (key != [] ==> key in v.sessions && v.sessions[key].last == b)
            && (a.Subscribe? ==> v.conns[a.c].session.subscribed && (key != [] ==> v.sessions[key].subscribed))
  {
    NumberedRun(cfg, run);
  }

  /** Unsubscribing takes the baseline from the handler and the table. */
  lemma BothCleared(cfg: Config, run: seq<Action>, c: nat)
    requires Possible(cfg, run) && Enabled(cfg, After(cfg, run), Unsubscribe(c))
    ensures var w, v := After(cfg, run), Next(cfg, After(cfg, run), Unsubscribe(c));
            var key := w.conns[c].session.id;
            && v.conns[c].session == ClientSession(key, [], false) && Doomed(v, c)
            && (key != [] && key in v.sessions ==> v.sessions[key].last == [] && !v.sessions[key].subscribed)
  {
  }

  /** Terminating removes the session and detaches the handler. */
  lemma Terminated(cfg: Config, run: seq<Action>, c: nat)
    requires Possible(cfg, run) && Enabled(cfg, After(cfg, run), Terminate(c))
    ensures var w, v := After(cfg, run), Next(cfg, After(cfg, run), Terminate(c));
            && v.conns[c].session.id == [] && v.conns[c].session.last == w.conns[c].session.last
            && (w.conns[c].session.id != [] ==> w.conns[c].session.id !in v.sessions)
            && (forall k :: k in w.sessions && k != w.conns[c].session.id ==> k in v.sessions && v.sessions[k] == w.sessions[k])
  {
  }

  /** Naming a session that exists recovers it. */
  lemma Recovered(cfg: Config, w: World, a: Action, key: bytes)
    requires Enabled(cfg, w, a) && Names(w, a, key) && key in w.sessions
    ensures var k := ConnAfter(cfg, w, a);
            && k.session == ClientSession(key, w.sessions[key].last, w.sessions[key].subscribed)
            && k.phase == Dispatching && k.req == w.conns[a.c].req && k.transport == w.conns[a.c].transport
  {
  }

  /** Naming one that does not exist makes it; a pipe handler brings its own baseline along. */
  lemma Created(cfg: Config, w: World, a: Action, key: bytes)
    requires Enabled(cfg, w, a) && Names(w, a, key) && key !in w.sessions
    requires w.conns[a.c].transport.Pipe? || |w.sessions| < cfg.maxSessions
    ensures var k := ConnAfter(cfg, w, a);
            && k.session == ClientSession(key, w.conns[a.c].session.last, w.conns[a.c].session.subscribed)
            && k.phase == Dispatching && k.req == w.conns[a.c].req
  {
  }

  // ---- from one poll to the next ----

  /** A step that changes or ends the session. */
  ghost predicate Touches(cfg: Config, w: World, a: Action, key: bytes) {
    || (Acts(w, a, key) && (a.Subscribe? || a.Rebaseline? || a.Unsubscribe? || a.Terminate?))
    || (a.CleanUp? && key in w.sessions && TooLong(a.now - w.sessions[key].lastActivity, cfg.ttl))
  }

  ghost predicate Untouched(cfg: Config, run: seq<Action>, later: seq<Action>, key: bytes)
    requires run <= later && Possible(cfg, later)
    decreases |later|
  {
    run == later ||
    (Untouched(cfg, run, later[..|later| - 1], key) &&
     !Touches(cfg, After(cfg, later[..|later| - 1]), later[|later| - 1], key))
  }

  lemma {:induction false} PrefixPossible(cfg: Config, run: seq<Action>, later: seq<Action>)
    requires run <= later && Possible(cfg, later)
    ensures Possible(cfg, run) && After(cfg, run).hist.count <= After(cfg, later).hist.count
    decreases |later|
  {
    if run != later {
      var before := later[..|later| - 1];
      assert run <= before;
      PrefixPossible(cfg, run, before);
      CountGrows(cfg, After(cfg, before), later[|later| - 1]);
    }
  }

  lemma {:induction false} EntryKept(cfg: Config, run: seq<Action>, later: seq<Action>, key: bytes)
    requires run <= later && Possible(cfg, later) && Possible(cfg, run) && Untouched(cfg, run, later, key)
    requires key in After(cfg, run).sessions
    ensures var t, u := After(cfg, run).sessions, After(cfg, later).sessions;
            key in u && u[key].last == t[key].last && u[key].subscribed == t[key].subscribed
    decreases |later|
  {
    if run != later {
      var before, a := later[..|later| - 1], later[|later| - 1];
      var w := After(cfg, before);
      assert run <= before;
      EntryKept(cfg, run, before, key);
      if Names(w, a, key) {
        NamedStep(cfg, w, a, key);
      } else if a.CleanUp? {
        SweptStep(cfg, w, a, key);
      } else {
        OtherStep(cfg, w, a, key);
      }
    }
  }

  /** A handler that has not read its next request, and up to reading the old snapshot works on r
      with baseline b. */
  ghost predicate HandlerWorks(k: Conn, r: Request, b: Id) {
    && !k.phase.Attaching?
    && (k.phase in {Dispatching, LookingUp, ReadingOld} ==> k.req == r && k.session.last == b)
  }

  ghost predicate WorksOn(w: World, d: nat, r: Request, b: Id) {
    d in w.conns ==> HandlerWorks(w.conns[d], r, b)
  }

  lemma WorksConn(cfg: Config, w: World, a: Action, r: Request, b: Id)
    requires Enabled(cfg, w, a) && !a.CleanUp? && !a.Open? && !a.Close? && !a.Receive?
    requires HandlerWorks(w.conns[a.c], r, b) && r.verb.PollM?
    ensures HandlerWorks(ConnAfter(cfg, w, a), r, b)
  {
    var k, k' := w.conns[a.c], ConnAfter(cfg, w, a);
    if a.Proceed? || a.LookUp? || a.Terminate? {
      assert k.phase in {Dispatching, LookingUp} && k'.req == k.req && k'.session.last == k.session.last;
    } else {
      assert !(k'.phase in {Attaching, Dispatching, LookingUp, ReadingOld});
    }
  }

  lemma WorksStep(cfg: Config, w: World, a: Action, d: nat, r: Request, b: Id)
    requires Enabled(cfg, w, a) && WorksOn(w, d, r, b) && r.verb.PollM? && !(a.Receive? && a.c == d)
    ensures WorksOn(Next(cfg, w, a), d, r, b)
  {
    if a.CleanUp? || a.c != d {
    } else if !a.Open? && !a.Close? {
      WorksConn(cfg, w, a, r, b);
    }
  }

  ghost predicate NoReceive(run: seq<Action>, later: seq<Action>, d: nat) {
    forall i :: |run| <= i < |later| ==> !(later[i].Receive? && later[i].c == d)
  }

  lemma {:induction false} WorksRun(cfg: Config, run: seq<Action>, later: seq<Action>, d: nat, r: Request, b: Id)
    requires run <= later && Possible(cfg, later) && Possible(cfg, run) && NoReceive(run, later, d)
    requires WorksOn(After(cfg, run), d, r, b) && r.verb.PollM?
    ensures WorksOn(After(cfg, later), d, r, b)
    decreases |later|
  {
    if run != later {
      var before, a := later[..|later| - 1], later[|later| - 1];
      assert run <= before && NoReceive(run, before, d);
      assert !(later[|later| - 1].Receive? && later[|later| - 1].c == d);
      WorksRun(cfg, run, before, d, r, b);
      WorksStep(cfg, After(cfg, before), a, d, r, b);
    }
  }

  /** The step that stored baseline b, seen from any later point at which b is still stored. */
  lemma StoredCapture(cfg: Config, run: seq<Action>, a: Action, later: seq<Action>)
    requires run + [a] <= later && Possible(cfg, later) && WithinCounter(After(cfg, later)) && (a.Subscribe? || a.Rebaseline?)
    ensures Possible(cfg, run) && Possible(cfg, run + [a]) && Enabled(cfg, After(cfg, run), a)
    ensures After(cfg, run + [a]) == Next(cfg, After(cfg, run), a)
    ensures var b := IdAt(After(cfg, run).hist.count);
            b in After(cfg, later).store.snaps ==> After(cfg, later).store.snaps[b] == a.s
  {
    PrefixPossible(cfg, run + [a], later);
    assert (run + [a])[..|run|] == run;
    BothRenewed(cfg, run, a);
    IdLifetime(cfg, run + [a], later, IdAt(After(cfg, run).hist.count));
    StoreInvariant(cfg, later);
  }

  /** The next poll of a persistent session compares against what its last subscribe or successful
      poll captured, on whatever connection it comes: after step a of a handler attached to key, and
      any steps that do not touch the session, a request that names key and polls without
      old_snapshot_id reads exactly the capture of a, as long as that is stored. */
  lemma SessionPollReads(cfg: Config, run: seq<Action>, a: Action, mid: seq<Action>, d: nat, now: int, later: seq<Action>, key: bytes)
    requires Possible(cfg, later) && WithinCounter(After(cfg, later))
    requires run + [a] <= mid && mid + [Attach(d, now)] <= later
    requires Possible(cfg, run) && Possible(cfg, mid) && (a.Subscribe? || a.Rebaseline?) && Acts(After(cfg, run), a, key)
    requires Untouched(cfg, run + [a], mid, key) && NoReceive(mid + [Attach(d, now)], later, d)
    requires d in After(cfg, mid).conns && After(cfg, mid).conns[d].req.sessionId == Some(key) && Implicit(After(cfg, mid).conns[d])
    requires Enabled(cfg, After(cfg, later), ReadOld(d)) && IdAt(After(cfg, run).hist.count) in After(cfg, later).store.snaps
    ensures Next(cfg, After(cfg, later), ReadOld(d)).conns[d].old_snap == Some(a.s)
  {
    var b := IdAt(After(cfg, run).hist.count);
    assert run + [a] <= later;
    StoredCapture(cfg, run, a, later);
    BothRenewed(cfg, run, a);
    EntryKept(cfg, run + [a], mid, key);
    AttachedWorks(cfg, mid, d, now, later, key, b);
  }

  lemma AttachedWorks(cfg: Config, mid: seq<Action>, d: nat, now: int, later: seq<Action>, key: bytes, b: Id)
    requires Possible(cfg, later) && Possible(cfg, mid) && mid + [Attach(d, now)] <= later
    requires NoReceive(mid + [Attach(d, now)], later, d)
    requires d in After(cfg, mid).conns && After(cfg, mid).conns[d].req.sessionId == Some(key) && Implicit(After(cfg, mid).conns[d])
    requires key in After(cfg, mid).sessions && After(cfg, mid).sessions[key].last == b && b != []
    requires Enabled(cfg, After(cfg, later), ReadOld(d))
    ensures Next(cfg, After(cfg, later), ReadOld(d)).conns[d].old_snap == Find(After(cfg, later).store, b)
  {
    var named := mid + [Attach(d, now)];
    var w := After(cfg, mid);
    PrefixPossible(cfg, named, later);
    assert named[..|mid|] == mid;
    Recovered(cfg, w, Attach(d, now), key);
    WorksRun(cfg, named, later, d, w.conns[d].req, b);
  }

  // ---- a pipe connection on its own ----

  /** A step that gives pipe connection c another baseline or ends it. */
  ghost predicate Moves(w: World, a: Action, c: nat) {
    && !a.CleanUp? && a.c == c && c in w.conns
    && (a.Subscribe? || a.Unsubscribe? || a.Rebaseline? || a.Close? || (a.Attach? && w.conns[c].req.sessionId.Some?))
  }

  ghost predicate Unmoved(cfg: Config, run: seq<Action>, later: seq<Action>, c: nat)
    requires run <= later && Possible(cfg, later)
    decreases |later|
  {
    run == later ||
    (Unmoved(cfg, run, later[..|later| - 1], c) && !Moves(After(cfg, later[..|later| - 1]), later[|later| - 1], c))
  }

  ghost predicate PipeOn(w: World, c: nat, b: Id) {
    c in w.conns && w.conns[c].transport == Pipe && w.conns[c].session.last == b
  }

  lemma PipeStep(cfg: Config, w: World, a: Action, c: nat, b: Id)
    requires Enabled(cfg, w, a) && PipeOn(w, c, b) && !Moves(w, a, c)
    ensures PipeOn(Next(cfg, w, a), c, b)
  {
    if !a.CleanUp? && a.c == c {
      TransportStep(cfg, w, a);
      assert ConnAfter(cfg, w, a).session.last == b;
    }
  }

  lemma {:induction false} PipeRun(cfg: Config, run: seq<Action>, later: seq<Action>, c: nat, b: Id)
    requires run <= later && Possible(cfg, later) && Possible(cfg, run) && Unmoved(cfg, run, later, c)
    requires PipeOn(After(cfg, run), c, b)
    ensures PipeOn(After(cfg, later), c, b)
    decreases |later|
  {
    if run != later {
      var before, a := later[..|later| - 1], later[|later| - 1];
      assert run <= before;
      PipeRun(cfg, run, before, c, b);
      PipeStep(cfg, After(cfg, before), a, c, b);
    }
  }

  /** The same for a pipe connection without a session: over any number of its requests. */
  lemma PipePollReads(cfg: Config, run: seq<Action>, a: Action, later: seq<Action>)
    requires Possible(cfg, later) && WithinCounter(After(cfg, later)) && run + [a] <= later
    requires Possible(cfg, run) && (a.Subscribe? || a.Rebaseline?) && Unmoved(cfg, run + [a], later, a.c)
    requires a.c in After(cfg, run).conns && After(cfg, run).conns[a.c].transport == Pipe
    requires Enabled(cfg, After(cfg, later), ReadOld(a.c)) && Implicit(After(cfg, later).conns[a.c])
    requires IdAt(After(cfg, run).hist.count) in After(cfg, later).store.snaps
    ensures Next(cfg, After(cfg, later), ReadOld(a.c)).conns[a.c].old_snap == Some(a.s)
  {
    StoredCapture(cfg, run, a, later);
    BothRenewed(cfg, run, a);
    PipeRun(cfg, run + [a], later, a.c, IdAt(After(cfg, run).hist.count));
    PipeReads(cfg, After(cfg, later), a.c, IdAt(After(cfg, run).hist.count));
  }

  lemma PipeReads(cfg: Config, w: World, c: nat, b: Id)
    requires Enabled(cfg, w, ReadOld(c)) && Implicit(w.conns[c]) && w.conns[c].session.last == b && b != []
    ensures Next(cfg, w, ReadOld(c)).conns[c].old_snap == Find(w.store, b)
  {
  }
}
