/** Event baselines: every subscribed session has one, and what happens when it is evicted. */
module Baselines {
  import opened Bytes
  import opened Ids
  import opened Stores
  import opened Daemon
  import opened StoreSafety
  import opened Isolation

  /** A session's baseline: present when subscribed, and an id that was handed out as one. */
  ghost predicate Sound(last: Id, subscribed: bool, chains: map<Id, Chain>) {
    && (subscribed ==> last != [])
    && (last != [] ==> last in chains)
  }

  ghost predicate BaselineInv(w: World) {
    && (forall c :: c in w.conns ==> Sound(w.conns[c].session.last, w.conns[c].session.subscribed, w.hist.chains))
    && (forall k :: k in w.sessions ==> Sound(w.sessions[k].last, w.sessions[k].subscribed, w.hist.chains))
    && (forall id :: id in w.hist.chains ==> id in w.hist.issued)
    && (forall c :: c in w.conns && w.conns[c].phase.Rebasing? ==> w.conns[c].old_snap.Some? && w.conns[c].req.verb.PollM?)
  }

  lemma ChainsGrow(cfg: Config, w: World, a: Action)
    requires BaselineInv(w) && Enabled(cfg, w, a)
    ensures w.hist.chains.Keys <= ChainsAfter(w, a).Keys
    ensures a.Subscribe? || a.Rebaseline? ==> NextId(w.store) in ChainsAfter(w, a)
  {
  }

  lemma ConnBaselineStep(cfg: Config, w: World, a: Action)
    requires BaselineInv(w) && Enabled(cfg, w, a) && !a.Open? && !a.CleanUp?
    ensures var k := ConnAfter(cfg, w, a); Sound(k.session.last, k.session.subscribed, ChainsAfter(w, a))
  {
    ChainsGrow(cfg, w, a);
  }

  lemma RebasingStep(cfg: Config, w: World, a: Action)
    requires BaselineInv(w) && Enabled(cfg, w, a) && !a.Open? && !a.CleanUp?
    ensures var k := ConnAfter(cfg, w, a); k.phase.Rebasing? ==> k.old_snap.Some? && k.req.verb.PollM?
  {
  }

  lemma TableBaselineStep(cfg: Config, w: World, a: Action)
    requires BaselineInv(w) && Enabled(cfg, w, a)
    ensures var t := TableAfter(cfg, w, a);
            forall k :: k in t ==> Sound(t[k].last, t[k].subscribed, ChainsAfter(w, a))
  {
    ChainsGrow(cfg, w, a);
  }

  lemma BaselineStep(cfg: Config, w: World, a: Action)
    requires BaselineInv(w) && Enabled(cfg, w, a)
    ensures BaselineInv(Next(cfg, w, a))
  {
    ChainsGrow(cfg, w, a);
    TableBaselineStep(cfg, w, a);
    ConnsBaselineStep(cfg, w, a);
  }

  lemma ConnsBaselineStep(cfg: Config, w: World, a: Action)
    requires BaselineInv(w) && Enabled(cfg, w, a)
    ensures var conns := ConnsAfter(cfg, w, a);
            forall c :: c in conns ==>
              && Sound(conns[c].session.last, conns[c].session.subscribed, ChainsAfter(w, a))
              && (conns[c].phase.Rebasing? ==> conns[c].old_snap.Some? && conns[c].req.verb.PollM?)
  {
    ChainsGrow(cfg, w, a);
    if !a.Open? && !a.CleanUp? {
      ConnBaselineStep(cfg, w, a);
      RebasingStep(cfg, w, a);
    }
  }

  lemma {:induction false} BaselineInvariant(cfg: Config, run: seq<Action>)
    requires Possible(cfg, run)
    ensures BaselineInv(After(cfg, run))
  {
    if run != [] {
      BaselineInvariant(cfg, run[..|run| - 1]);
      BaselineStep(cfg, After(cfg, run[..|run| - 1]), run[|run| - 1]);
    }
  }

  /** In every interleaving a subscribed session, in a handler or in the table, has a non-empty
      baseline id that was issued. */
  lemma SubscribedHasBaseline(cfg: Config, run: seq<Action>)
    requires Possible(cfg, run)
    ensures var w := After(cfg, run);
            && (forall c :: c in w.conns && w.conns[c].session.subscribed ==>
                  w.conns[c].session.last != [] && w.conns[c].session.last in w.hist.issued)
            && (forall k :: k in w.sessions && w.sessions[k].subscribed ==>
                  w.sessions[k].last != [] && w.sessions[k].last in w.hist.issued)
  {
    BaselineInvariant(cfg, run);
  }

  // ---- polls whose baseline is gone ----

  /** A poll that relies on the session's baseline. */
  ghost predicate Implicit(k: Conn) {
    k.req.verb.PollM? && k.req.oldId.None?
  }

  /** There is nothing to compare against: no baseline, or one that is gone. */
  ghost predicate Gone(w: World, b: Id) {
    b == [] || Dead(w, b)
  }

  /** No poll that read its baseline earlier is under way. */
  ghost predicate NothingRead(k: Conn) {
    Implicit(k) ==> !k.phase.Rebasing? && (k.phase.Running? ==> k.old_snap.None?)
  }

  /** Connection c, if it is open, is without a baseline. */
  ghost predicate Doomed(w: World, c: nat) {
    c in w.conns ==> Gone(w, w.conns[c].session.last) && NothingRead(w.conns[c])
  }

  /** What gives connection c a baseline: subscribing, a successful poll with an explicit
      old_snapshot_id, or attaching a session whose baseline is stored. */
  ghost predicate Escapes(w: World, a: Action, c: nat) {
    && !a.CleanUp? && a.c == c && c in w.conns
    && (|| a.Subscribe?
        || (a.Rebaseline? && w.conns[c].req.oldId.Some?)
        || (a.Attach? && Recovers(w, w.conns[c].req)))
  }

  ghost predicate Recovers(w: World, r: Request) {
    && r.sessionId.Some? && r.sessionId.value in w.sessions
    && w.sessions[r.sessionId.value].last in w.store.snaps
  }

  /** A baseline that is not stored is gone. */
  lemma UnstoredIsGone(w: World, b: Id)
    requires BaselineInv(w) && (b != [] ==> b in w.hist.chains) && b !in w.store.snaps
    ensures Gone(w, b)
  {
  }

  lemma GoneIsUnstored(w: World, b: Id)
    requires StoreInv(w) && Gone(w, b)
    ensures b !in w.store.snaps
  {
    if b == [] && b in w.store.snaps {
      IssuedNonEmpty(w, b);
    }
  }

  lemma GoneStep(cfg: Config, w: World, a: Action, b: Id)
    requires StoreInv(w) && Enabled(cfg, w, a) && WithinCounter(Next(cfg, w, a)) && Gone(w, b)
    ensures Gone(Next(cfg, w, a), b)
  {
    if b != [] {
      DeadStep(cfg, w, a, b);
    }
  }

  /** The steps of c itself. */
  lemma DoomedConn(cfg: Config, w: World, a: Action)
    requires StoreInv(w) && BaselineInv(w) && Enabled(cfg, w, a) && !a.CleanUp? && !a.Open? && !a.Close?
    requires Doomed(w, a.c) && !Escapes(w, a, a.c)
    ensures Gone(w, ConnAfter(cfg, w, a).session.last) && NothingRead(ConnAfter(cfg, w, a))
  {
    GoneIsUnstored(w, w.conns[a.c].session.last);
    ReadsNothing(cfg, w, a);
    StaysGone(cfg, w, a);
  }

  lemma ReadsNothing(cfg: Config, w: World, a: Action)
    requires Enabled(cfg, w, a) && !a.CleanUp? && !a.Open? && !a.Close?
    requires NothingRead(w.conns[a.c]) && w.conns[a.c].session.last !in w.store.snaps
    ensures NothingRead(ConnAfter(cfg, w, a))
  {
  }

  lemma StaysGone(cfg: Config, w: World, a: Action)
    requires BaselineInv(w) && Enabled(cfg, w, a) && !a.CleanUp? && !a.Open? && !a.Close?
    requires Doomed(w, a.c) && !Escapes(w, a, a.c)
    ensures Gone(w, ConnAfter(cfg, w, a).session.last)
  {
    var r := w.conns[a.c].req;
    if a.Attach? && r.sessionId.Some? && r.sessionId.value in w.sessions {
      UnstoredIsGone(w, w.sessions[r.sessionId.value].last);
    }
  }

  lemma DoomedStep(cfg: Config, w: World, a: Action, c: nat)
    requires StoreInv(w) && BaselineInv(w) && Enabled(cfg, w, a) && WithinCounter(Next(cfg, w, a))
    requires Doomed(w, c) && !Escapes(w, a, c)
    ensures Doomed(Next(cfg, w, a), c)
  {
    if c in ConnsAfter(cfg, w, a) {
      if a.CleanUp? || a.c != c {
        GoneStep(cfg, w, a, w.conns[c].session.last);
      } else if !a.Open? {
        DoomedConn(cfg, w, a);
        GoneStep(cfg, w, a, ConnAfter(cfg, w, a).session.last);
      }
    }
  }

  /** No step of the continuation gives c a baseline. */
  ghost predicate NoEscape(cfg: Config, run: seq<Action>, later: seq<Action>, c: nat)
    requires run <= later && Possible(cfg, later)
    decreases |later|
  {
    run == later ||
    (NoEscape(cfg, run, later[..|later| - 1], c) && !Escapes(After(cfg, later[..|later| - 1]), later[|later| - 1], c))
  }

  /** An implicit poll of c is not about to answer with events, and whatever core.handle does
      with it is a failure. */
  ghost predicate CannotSucceed(cfg: Config, w: World, c: nat) {
    c in w.conns && Implicit(w.conns[c]) ==>
      && !w.conns[c].phase.Rebasing?
      && (forall o :: Enabled(cfg, w, Handle(c, o)) ==>
            var p := ConnAfter(cfg, w, Handle(c, o)).phase; p.Responding? && p.reply.Failed?)
  }

  lemma DoomedCannotSucceed(cfg: Config, w: World, c: nat)
    requires Doomed(w, c)
    ensures CannotSucceed(cfg, w, c)
  {
  }

  lemma {:induction false} DoomedRun(cfg: Config, run: seq<Action>, later: seq<Action>, c: nat)
    requires run <= later && Possible(cfg, later) && WithinCounter(After(cfg, later))
    requires Possible(cfg, run) && Doomed(After(cfg, run), c) && NoEscape(cfg, run, later, c)
    ensures Doomed(After(cfg, later), c)
    decreases |later|
  {
    if run != later {
      var before, a := later[..|later| - 1], later[|later| - 1];
      var w := After(cfg, before);
      assert run <= before;
      CountGrows(cfg, w, a);
      DoomedRun(cfg, run, before, c);
      StoreInvariant(cfg, before);
      BaselineInvariant(cfg, before);
      DoomedStep(cfg, w, a, c);
    }
  }

  /** Once a connection's baseline is gone, all its implicit polls fail, over any number of
      requests and in every interleaving, until it gets another baseline. */
  lemma PollsFailUntilRenewed(cfg: Config, run: seq<Action>, later: seq<Action>, c: nat)
    requires run <= later && Possible(cfg, later) && WithinCounter(After(cfg, later))
    requires Possible(cfg, run) && Doomed(After(cfg, run), c) && NoEscape(cfg, run, later, c)
    ensures CannotSucceed(cfg, After(cfg, later), c)
  {
    DoomedRun(cfg, run, later, c);
    DoomedCannotSucceed(cfg, After(cfg, later), c);
  }

  /** Attaching a persistent session leaves the connection without a baseline exactly when the
      session's own is not stored. */
  lemma AttachDoomsIff(cfg: Config, run: seq<Action>, c: nat, now: int, key: bytes)
    requires Possible(cfg, run) && WithinCounter(After(cfg, run))
    requires var w := After(cfg, run);
             Enabled(cfg, w, Attach(c, now)) && w.conns[c].req.sessionId == Some(key) && key in w.sessions
    ensures var w := After(cfg, run);
            Doomed(Next(cfg, w, Attach(c, now)), c) <==> w.sessions[key].last !in w.store.snaps
  {
    var w := After(cfg, run);
    StoreInvariant(cfg, run);
    BaselineInvariant(cfg, run);
    var b := w.sessions[key].last;
    if b in w.store.snaps {
      IssuedNonEmpty(w, b);
    } else {
      UnstoredIsGone(w, b);
    }
  }

  /** The read before core.handle decides: a poll without old_snapshot_id gets a snapshot to diff
      against exactly when its session's baseline is stored at that moment. */
  lemma BaselineReadIff(cfg: Config, run: seq<Action>, c: nat)
    requires Possible(cfg, run) && WithinCounter(After(cfg, run))
    requires Enabled(cfg, After(cfg, run), ReadOld(c)) && Implicit(After(cfg, run).conns[c])
    ensures var w := After(cfg, run);
            var k, b := Next(cfg, w, ReadOld(c)).conns[c], w.conns[c].session.last;
            && (k.old_snap.Some? <==> b != [] && !Dead(w, b))
            && (k.old_snap.Some? ==> b in w.hist.issued && k.old_snap.value == w.hist.issued[b])
  {
    StoreInvariant(cfg, run);
    BaselineInvariant(cfg, run);
  }

  /** The stored baseline of a persistent session changes only by a subscribe, unsubscribe or
      successful poll of a connection attached to it, or with the entry itself. */
  lemma TableBaselineChanges(cfg: Config, w: World, a: Action, key: bytes)
    requires Enabled(cfg, w, a) && key in w.sessions && key in TableAfter(cfg, w, a)
    requires TableAfter(cfg, w, a)[key].last != w.sessions[key].last
    ensures (a.Subscribe? || a.Unsubscribe? || a.Rebaseline?) && w.conns[a.c].session.id == key
  {
  }

  // ---- persistent sessions ----

  /** Session key is without a baseline in the table and in every handler attached to it: a handler
      polls with its own copy, and a successful poll would write the table. */
  ghost predicate SessionDoomed(w: World, key: bytes) {
    && (key in w.sessions ==> Gone(w, w.sessions[key].last))
    && (forall c :: c in w.conns && w.conns[c].session.id == key ==> Doomed(w, c))
  }

  /** What gives the session a baseline: a subscribe or a successful explicit poll of a handler
      attached to it, or its creation by a pipe handler that brings a stored baseline along. The
      empty key stands for no session; terminating a session gets a handler there. */
  ghost predicate Renews(w: World, a: Action, key: bytes) {
    && !a.CleanUp? && a.c in w.conns
    && var k := w.conns[a.c];
       || (a.Subscribe? && k.session.id == key)
       || (a.Rebaseline? && k.session.id == key && k.req.oldId.Some?)
       || (a.Attach? && k.req.sessionId == Some(key) && key !in w.sessions && k.session.last in w.store.snaps)
       || (a.Terminate? && key == [] && k.session.last in w.store.snaps)
  }

  lemma EntryStep(cfg: Config, w: World, a: Action, key: bytes)
    requires StoreInv(w) && BaselineInv(w) && Enabled(cfg, w, a)
    requires SessionDoomed(w, key) && !Renews(w, a, key) && key in TableAfter(cfg, w, a)
    ensures Gone(w, TableAfter(cfg, w, a)[key].last)
  {
    if a.Rebaseline? && w.conns[a.c].session.id == key {
      assert Doomed(w, a.c);
    }
  }

  lemma AttachedStep(cfg: Config, w: World, a: Action, key: bytes)
    requires StoreInv(w) && BaselineInv(w) && Enabled(cfg, w, a) && !a.CleanUp? && !a.Open? && !a.Close?
    requires SessionDoomed(w, key) && !Renews(w, a, key) && ConnAfter(cfg, w, a).session.id == key
    ensures Gone(w, ConnAfter(cfg, w, a).session.last) && NothingRead(ConnAfter(cfg, w, a))
  {
    var k := w.conns[a.c];
    if a.Attach? && k.req.sessionId == Some(key) {
      AttachedGone(cfg, w, a, key);
    } else if a.Receive? && k.transport.Tcp? {
    } else if a.Terminate? && key == [] {
      UnstoredIsGone(w, k.session.last);
    } else {
      assert k.session.id == key;
      DoomedConn(cfg, w, a);
    }
  }

  lemma AttachedGone(cfg: Config, w: World, a: Action, key: bytes)
    requires BaselineInv(w) && Enabled(cfg, w, a) && a.Attach? && w.conns[a.c].req.sessionId == Some(key)
    requires SessionDoomed(w, key) && !Renews(w, a, key) && ConnAfter(cfg, w, a).session.id == key
    ensures Gone(w, ConnAfter(cfg, w, a).session.last) && NothingRead(ConnAfter(cfg, w, a))
  {
    if Refused(cfg, w, a.c) {
      assert w.conns[a.c].session.id == key;
      assert Doomed(w, a.c);
    } else if key !in w.sessions {
      UnstoredIsGone(w, w.conns[a.c].session.last);
    }
  }

  lemma SessionStep(cfg: Config, w: World, a: Action, key: bytes)
    requires StoreInv(w) && BaselineInv(w) && Enabled(cfg, w, a) && WithinCounter(Next(cfg, w, a))
    requires SessionDoomed(w, key) && !Renews(w, a, key)
    ensures SessionDoomed(Next(cfg, w, a), key)
  {
    var v := Next(cfg, w, a);
    if key in v.sessions {
      EntryStep(cfg, w, a, key);
      GoneStep(cfg, w, a, v.sessions[key].last);
    }
    forall c | c in v.conns && v.conns[c].session.id == key ensures Doomed(v, c) {
      if a.CleanUp? || a.c != c {
        assert Doomed(w, c);
        GoneStep(cfg, w, a, w.conns[c].session.last);
      } else if !a.Open? {
        AttachedStep(cfg, w, a, key);
        GoneStep(cfg, w, a, v.conns[c].session.last);
      }
    }
  }

  ghost predicate NeverRenewed(cfg: Config, run: seq<Action>, later: seq<Action>, key: bytes)
    requires run <= later && Possible(cfg, later)
    decreases |later|
  {
    run == later ||
    (NeverRenewed(cfg, run, later[..|later| - 1], key) &&
     !Renews(After(cfg, later[..|later| - 1]), later[|later| - 1], key))
  }

  lemma {:induction false} SessionStaysDoomed(cfg: Config, run: seq<Action>, later: seq<Action>, key: bytes)
    requires run <= later && Possible(cfg, later) && WithinCounter(After(cfg, later)) && NeverRenewed(cfg, run, later, key)
    requires Possible(cfg, run) && SessionDoomed(After(cfg, run), key)
    ensures SessionDoomed(After(cfg, later), key)
    decreases |later|
  {
    if run != later {
      var before, a := later[..|later| - 1], later[|later| - 1];
      var w := After(cfg, before);
      assert run <= before;
      CountGrows(cfg, w, a);
      SessionStaysDoomed(cfg, run, before, key);
      StoreInvariant(cfg, before);
      BaselineInvariant(cfg, before);
      SessionStep(cfg, w, a, key);
    }
  }

  /** Once a persistent session's baseline is gone, every implicit poll of every connection that
      is attached to it or attaches to it later fails, whatever is terminated, swept, closed or
      created meanwhile, until the session gets another baseline. */
  lemma SessionPollsFail(cfg: Config, run: seq<Action>, later: seq<Action>, key: bytes, c: nat)
    requires run <= later && Possible(cfg, later) && WithinCounter(After(cfg, later)) && NeverRenewed(cfg, run, later, key)
    requires Possible(cfg, run) && SessionDoomed(After(cfg, run), key)
    requires c in After(cfg, later).conns && After(cfg, later).conns[c].session.id == key
    ensures CannotSucceed(cfg, After(cfg, later), c)
  {
    SessionStaysDoomed(cfg, run, later, key);
    DoomedCannotSucceed(cfg, After(cfg, later), c);
  }
}
