/** How far the session table can exceed max_sessions when only TCP handlers run. */
module SessionLimit {
  import opened Bytes
  import opened Daemon
  import opened Sets

  ghost function InFlightSet(conns: map<nat, Conn>): set<nat> {
    set c | c in conns && InFlight(conns[c])
  }

  /** At no point of the run are more than n requests in flight. */
  ghost predicate AtMostInFlight(cfg: Config, run: seq<Action>, n: nat)
    requires Possible(cfg, run)
  {
    && |InFlightSet(After(cfg, run).conns)| <= n
    && (run != [] ==> AtMostInFlight(cfg, run[..|run| - 1], n))
  }

  /** The session keys that requests in flight may write to. */
  ghost function HeldKeys(conns: map<nat, Conn>): set<bytes> {
    set c | c in conns && InFlight(conns[c]) && conns[c].session.id != [] :: conns[c].session.id
  }

  /** The keys in the table, and those that can come back without another check. */
  ghost function Claimed(w: World): set<bytes> {
    w.sessions.Keys + HeldKeys(w.conns)
  }

  lemma {:induction false} ImageSize(conns: map<nat, Conn>, cs: set<nat>, keys: set<bytes>)
    requires cs <= conns.Keys
    requires forall k :: k in keys ==> exists c :: c in cs && conns[c].session.id == k
    ensures |keys| <= |cs|
    decreases keys
  {
    if keys != {} {
      var k :| k in keys;
      var c :| c in cs && conns[c].session.id == k;
      forall j | j in keys - {k} ensures exists d :: d in cs - {c} && conns[d].session.id == j {
        var d :| d in cs && conns[d].session.id == j;
        assert d in cs - {c};
      }
      ImageSize(conns, cs - {c}, keys - {k});
    }
  }

  ghost predicate Creates(cfg: Config, w: World, a: Action) {
    && a.Attach? && a.c in w.conns && w.conns[a.c].req.sessionId.Some?
    && w.conns[a.c].req.sessionId.value !in w.sessions && !Refused(cfg, w, a.c)
  }

  /** A step of a connection holds no key it did not hold, unless it attached it. */
  lemma KeyStep(cfg: Config, w: World, a: Action)
    requires Enabled(cfg, w, a) && !a.Open? && !a.CleanUp?
    ensures var k, k' := w.conns[a.c], ConnAfter(cfg, w, a);
            InFlight(k') && k'.session.id != [] && a != Receive(a.c, k'.req) ==>
              || (InFlight(k) && k'.session.id == k.session.id)
              || (a.Attach? && k.req.sessionId == Some(k'.session.id))
  {
  }

  lemma ReceiveClears(cfg: Config, w: World, a: Action)
    requires Uses(w, Tcp) && Enabled(cfg, w, a) && a.Receive?
    ensures ConnAfter(cfg, w, a).session.id == []
  {
  }

  lemma TableKeys(cfg: Config, w: World, a: Action)
    requires Enabled(cfg, w, a)
    ensures TableAfter(cfg, w, a).Keys <= Claimed(w) ||
            (Creates(cfg, w, a) && TableAfter(cfg, w, a).Keys == w.sessions.Keys + {w.conns[a.c].req.sessionId.value})
  {
    if a.Subscribe? || a.Rebaseline? {
      assert w.conns[a.c].session.id != [] ==> w.conns[a.c].session.id in HeldKeys(w.conns);
    }
  }

  lemma HeldKeysStep(cfg: Config, w: World, a: Action)
    requires Uses(w, Tcp) && Enabled(cfg, w, a)
    ensures HeldKeys(ConnsAfter(cfg, w, a)) <= Claimed(w) ||
            (Creates(cfg, w, a) && HeldKeys(ConnsAfter(cfg, w, a)) <=
               HeldKeys(w.conns - {a.c}) + {w.conns[a.c].req.sessionId.value})
  {
    var conns := ConnsAfter(cfg, w, a);
    if !a.Open? && !a.CleanUp? && !a.Close? {
      KeyStep(cfg, w, a);
      if a.Receive? { ReceiveClears(cfg, w, a); }
      var id := ConnAfter(cfg, w, a).session.id;
      forall k | k in HeldKeys(conns) ensures k in HeldKeys(w.conns - {a.c}) || k == id {
        var c :| c in conns && InFlight(conns[c]) && conns[c].session.id == k && k != [];
        if c != a.c {
          assert c in w.conns - {a.c};
        }
      }
      OthersHeld(w.conns, a.c);
    } else {
      forall k | k in HeldKeys(conns) ensures k in HeldKeys(w.conns) {
        var c :| c in conns && InFlight(conns[c]) && conns[c].session.id == k && k != [];
        assert c in w.conns && w.conns[c] == conns[c];
      }
    }
  }

  lemma OthersHeld(conns: map<nat, Conn>, c: nat)
    ensures HeldKeys(conns - {c}) <= HeldKeys(conns)
  {
  }

  /** Every step but the creation of an entry leaves the claimed keys as they are, or fewer. */
  lemma ClaimedShrinks(cfg: Config, w: World, a: Action)
    requires Uses(w, Tcp) && Enabled(cfg, w, a) && !Creates(cfg, w, a)
    ensures Claimed(Next(cfg, w, a)) <= Claimed(w)
  {
    TableKeys(cfg, w, a);
    HeldKeysStep(cfg, w, a);
  }

  /** Creating an entry passes the limit check, so at most n - 1 other keys are outstanding. */
  lemma ClaimedAtCreation(cfg: Config, w: World, a: Action, n: nat)
    requires Uses(w, Tcp) && Enabled(cfg, w, a) && Creates(cfg, w, a)
    requires |InFlightSet(w.conns)| <= n
    ensures |Claimed(Next(cfg, w, a))| <= cfg.maxSessions + n - 1
  {
    var key := w.conns[a.c].req.sessionId.value;
    var keys := w.sessions.Keys + {key};
    var others := InFlightSet(w.conns) - {a.c};
    var image := set c | c in others :: w.conns[c].session.id;
    assert TableAfter(cfg, w, a).Keys == keys;
    assert a.c in InFlightSet(w.conns);
    ImageSize(w.conns, others, image);
    OtherKeys(cfg, w, a, image);
    assert Claimed(Next(cfg, w, a)) <= keys + image;
    UnionSize(keys, image);
    SubsetSize(Claimed(Next(cfg, w, a)), keys + image);
  }

  lemma OtherKeys(cfg: Config, w: World, a: Action, image: set<bytes>)
    requires Uses(w, Tcp) && Enabled(cfg, w, a) && Creates(cfg, w, a)
    requires image == set c | c in InFlightSet(w.conns) - {a.c} :: w.conns[c].session.id
    ensures HeldKeys(ConnsAfter(cfg, w, a)) <= image + {w.conns[a.c].req.sessionId.value}
  {
    var conns := ConnsAfter(cfg, w, a);
    forall k | k in HeldKeys(conns) ensures k in image || k == w.conns[a.c].req.sessionId.value {
      var c :| c in conns && InFlight(conns[c]) && conns[c].session.id == k && k != [];
      if c != a.c {
        assert c in InFlightSet(w.conns) - {a.c};
      }
    }
  }

  lemma {:induction false} ClaimedBound(cfg: Config, run: seq<Action>, n: nat)
    requires Possible(cfg, run) && Only(run, Tcp) && n >= 1 && AtMostInFlight(cfg, run, n)
    ensures |Claimed(After(cfg, run))| <= cfg.maxSessions + n - 1
  {
    if run == [] {
      assert Claimed(INIT) == {};
    } else {
      var w, a := After(cfg, run[..|run| - 1]), run[|run| - 1];
      ClaimedBound(cfg, run[..|run| - 1], n);
      UsesOnly(cfg, run[..|run| - 1], Tcp);
      if Creates(cfg, w, a) {
        ClaimedAtCreation(cfg, w, a, n);
      } else {
        ClaimedShrinks(cfg, w, a);
        SubsetSize(Claimed(Next(cfg, w, a)), Claimed(w));
      }
    }
  }

  /** In a TCP-only run with at most n >= 1 requests in flight at once the table never holds
      more than max_sessions + n - 1 entries, although subscribe and poll write entries back
      that were terminated or swept during the request. */
  lemma SessionBound(cfg: Config, run: seq<Action>, n: nat)
    requires Possible(cfg, run) && Only(run, Tcp) && n >= 1 && AtMostInFlight(cfg, run, n)
    ensures |After(cfg, run).sessions| <= cfg.maxSessions + n - 1
  {
    ClaimedBound(cfg, run, n);
    SubsetSize(After(cfg, run).sessions.Keys, Claimed(After(cfg, run)));
  }
}
