/** ServerState as an object: every section the handlers run under its mutex is one method. */
module ServerStates {
  import opened Bytes
  import opened Ids
  import opened Eviction
  import opened Stores

  class ServerState {
    const maxSnapshots: nat
    const maxSessions: nat
    const ttl: int

    var counter: nat
    var snaps: map<Id, Snapshot>
    var pins: map<Id, int>
    var lru: seq<Id>
    var sessions: Table

    ghost function View(): Store
      reads this
    {
      Store(counter, snaps, pins, lru)
    }

    constructor (maxSnapshots: nat, maxSessions: nat, ttl: int)
      ensures this.maxSnapshots == maxSnapshots && this.maxSessions == maxSessions && this.ttl == ttl
      ensures View() == EMPTY && sessions == map[]
    {
      this.maxSnapshots, this.maxSessions, this.ttl := maxSnapshots, maxSessions, ttl;
      counter, snaps, pins, lru, sessions := 1, map[], map[], [], map[];
    }

    /** make_snap_id(snap_counter++), emplace and push_back: shared by capture, subscribe, poll. */
    method Issue(s: Snapshot) returns (id: Id)
      modifies `counter, `snaps, `lru
      ensures View() == Insert(old(View()), s)
      ensures id == NextId(old(View()))
    {
      id := MakeSnapId(counter);
      counter := (counter + 1) % TWO64;
      if id !in snaps {
        snaps := snaps[id := s];
      }
      lru := lru + [id];
    }

    /** snapshot.capture. The loop ends only if at most maxSnapshots listed ids are pinned. */
    method Capture(s: Snapshot) returns (id: Id)
      requires EvictionEnds(Insert(View(), s), maxSnapshots)
      modifies `counter, `snaps, `pins, `lru
      ensures View() == Evict(Insert(old(View()), s), maxSnapshots)
      ensures id == NextId(old(View()))
    {
      id := Issue(s);
      EvictLoop();
    }

    /** The nested eviction loop, iteration by iteration. */
    method EvictLoop()
      requires EvictionEnds(View(), maxSnapshots)
      modifies `snaps, `pins, `lru
      ensures View() == Evict(old(View()), maxSnapshots)
    {
      ghost var st, j := View(), 0;
      ghost var c := CutOf(st, maxSnapshots);
      AfterNone(st);
      while |lru| > maxSnapshots
        invariant 0 <= j <= c
        invariant View() == AfterIterations(st, j)
        decreases c - j
      {
        LoopContinues(st, maxSnapshots, j);
        BodyAdvances(st, j);
        var oldest := lru[0];
        if PinCount(pins, oldest) > 0 {
          lru := lru[1..] + [oldest];
        } else {
          lru := lru[1..];
          snaps := snaps - {oldest};
          pins := pins - {oldest};
        }
        j := j + 1;
      }
      LoopStops(st, maxSnapshots, j);
    }

    /** The session part of a request; the pipe handler has no limit. */
    method Attach(session: ClientSession, key: bytes, limited: bool, now: int)
      returns (ok: bool, session': ClientSession)
      modifies `sessions
      ensures ok <==> !limited || |old(sessions)| < maxSessions || key in old(sessions)
      ensures ok ==> sessions == AttachTable(old(sessions), key, now)
      ensures ok ==> session' == AttachClient(old(sessions), session, key)
      ensures !ok ==> sessions == old(sessions) && session' == session
    {
      if limited && |sessions| >= maxSessions && key !in sessions {
        return false, session;
      }
      if key in sessions {
        var ps := sessions[key];
        session' := ClientSession(key, ps.last, ps.subscribed);
        sessions := sessions[key := ps.(lastActivity := now)];
      } else {
        session' := session.(id := key);
        sessions := sessions[key := PersistentSession([], false, now)];
      }
      ok := true;
    }

    method Subscribe(session: ClientSession, s: Snapshot) returns (id: Id, session': ClientSession)
      modifies `counter, `snaps, `lru, `sessions
      ensures View() == Insert(old(View()), s) && id == NextId(old(View()))
      ensures sessions == SubscribeTable(old(sessions), session.id, id)
      ensures session' == session.(subscribed := true, last := id)
    {
      id := Issue(s);
      session' := session.(subscribed := true, last := id);
      if session.id != [] {
        sessions := sessions[session.id := Entry(sessions, session.id).(subscribed := true)];
        sessions := sessions[session.id := Entry(sessions, session.id).(last := id)];
      }
    }

    method Unsubscribe(session: ClientSession) returns (session': ClientSession)
      modifies `sessions
      ensures sessions == UnsubscribeTable(old(sessions), session.id)
      ensures session' == session.(subscribed := false, last := [])
    {
      session' := session.(subscribed := false, last := []);
      if session.id != [] && session.id in sessions {
        sessions := sessions[session.id := sessions[session.id].(subscribed := false, last := [])];
      }
    }

    method Terminate(session: ClientSession) returns (session': ClientSession)
      modifies `sessions
      ensures sessions == TerminateTable(old(sessions), session.id)
      ensures session' == session.(id := [])
    {
      session' := session;
      if session.id != [] {
        sessions := sessions - {session.id};
        session' := session.(id := []);
      }
    }

    /** Look a named snapshot up and pin it, or report it unknown. */
    method LookUp(id: Id, refresh: bool) returns (r: Option<Snapshot>)
      modifies `pins, `lru
      ensures r == if id in snaps then Some(snaps[id]) else None
      ensures View() == if id in snaps then Pin(old(View()), id, refresh) else old(View())
    {
      if id !in snaps {
        return None;
      }
      r := Some(snaps[id]);
      pins := pins[id := PinCount(pins, id) + 1];
      if refresh {
        lru := Without(lru, id);
        lru := lru + [id];
      }
    }

    /** A poll that succeeded stores a fresh capture as the session's next baseline. */
    method Rebaseline(session: ClientSession, latest: Snapshot) returns (id: Id, session': ClientSession)
      modifies `counter, `snaps, `lru, `sessions
      ensures View() == Insert(old(View()), latest) && id == NextId(old(View()))
      ensures sessions == RebaseTable(old(sessions), session.id, id)
      ensures session' == session.(last := id)
    {
      id := Issue(latest);
      session' := session.(last := id);
      if session.id != [] {
        sessions := sessions[session.id := Entry(sessions, session.id).(last := id)];
      }
    }

    method Release(id: Id)
      modifies `pins
      ensures View() == Unpin(old(View()), id)
    {
      pins := pins[id := PinCount(pins, id) - 1];
    }

    /** cleanup_sessions: visit every entry, erase the expired ones on the way. */
    method CleanUp(now: int)
      modifies `sessions
      ensures sessions == Sweep(old(sessions), now, ttl)
    {
      var todo := sessions.Keys;
      while todo != {}
        invariant todo <= sessions.Keys <= old(sessions).Keys
        invariant forall k :: k in sessions ==> sessions[k] == old(sessions)[k]
        invariant forall k :: k in old(sessions) && k !in todo ==>
          (k in sessions <==> !Expired(old(sessions)[k], now, ttl))
        decreases todo
      {
        var k :| k in todo;
        if Expired(sessions[k], now, ttl) {
          sessions := sessions - {k};
        }
        todo := todo - {k};
      }
    }
  }

  // ---- the eviction loop on the whole store ----

  function Body(st: Store): Store
    requires st.lru != []
  {
    var oldest := st.lru[0];
    if PinCount(st.pins, oldest) > 0 then st.(lru := st.lru[1..] + [oldest])
    else Store(st.counter, st.snaps - {oldest}, st.pins - {oldest}, st.lru[1..])
  }

  ghost function AfterIterations(st: Store, j: nat): Store
    requires j <= |st.lru|
  {
    var p := PinnedIds(st.pins);
    var gone := Elements(Unpinned(st.lru[..j], p));
    Store(st.counter, st.snaps - gone, st.pins - gone, st.lru[j..] + Pinned(st.lru[..j], p))
  }

  ghost function CutOf(st: Store, max: nat): (c: nat)
    requires EvictionEnds(st, max)
    ensures c <= |st.lru|
  {
    FilterLengths(st.lru, PinnedIds(st.pins));
    Cut(st.lru, PinnedIds(st.pins), Excess(st.lru, max))
  }

  lemma AfterNone(st: Store)
    ensures AfterIterations(st, 0) == st
  {
    assert st.lru[0..] + [] == st.lru;
    assert Elements<Id>([]) == {};
    assert st.snaps - {} == st.snaps && st.pins - {} == st.pins;
  }

  /** One more iteration advances the state by one list position. */
  lemma BodyAdvances(st: Store, j: nat)
    requires j < |st.lru|
    ensures AfterIterations(st, j).lru != []
    ensures Body(AfterIterations(st, j)) == AfterIterations(st, j + 1)
  {
    var l, p := st.lru, PinnedIds(st.pins);
    var x := l[j];
    TakeOne(l, p, j);
    FilterSets(l[..j], p);
    var gone := Elements(Unpinned(l[..j], p));
    assert AfterIterations(st, j).lru[0] == x;
    assert (l[j..] + Pinned(l[..j], p))[1..] == l[j + 1..] + Pinned(l[..j], p);
    if x in p {
      assert x !in gone;
      assert PinCount(st.pins - gone, x) == st.pins[x];
      assert (l[j + 1..] + Pinned(l[..j], p)) + [x] == l[j + 1..] + (Pinned(l[..j], p) + [x]);
      assert Unpinned(l[..j + 1], p) == Unpinned(l[..j], p);
    } else {
      assert Elements(Unpinned(l[..j + 1], p)) == gone + {x};
      EraseMore(st.snaps, gone, x);
      EraseMore(st.pins, gone, x);
      assert Pinned(l[..j + 1], p) == Pinned(l[..j], p);
    }
  }

  lemma EraseMore<K, V>(m: map<K, V>, gone: set<K>, x: K)
    ensures (m - gone) - {x} == m - (gone + {x})
  {
  }

  lemma LoopContinues(st: Store, max: nat, j: nat)
    requires EvictionEnds(st, max) && j <= CutOf(st, max)
    requires |AfterIterations(st, j).lru| > max
    ensures j < CutOf(st, max)
  {
    var l, p := st.lru, PinnedIds(st.pins);
    FilterLengths(l, p);
    FilterLengths(l[..j], p);
    CutSpec(l, p, Excess(l, max), j);
  }

  lemma LoopStops(st: Store, max: nat, j: nat)
    requires EvictionEnds(st, max) && j <= CutOf(st, max)
    requires |AfterIterations(st, j).lru| <= max
    ensures AfterIterations(st, j) == Evict(st, max)
  {
    var l, p := st.lru, PinnedIds(st.pins);
    FilterLengths(l, p);
    FilterLengths(l[..j], p);
    CutSpec(l, p, Excess(l, max), j);
    assert j == CutOf(st, max);
  }

  /** The filters of a prefix one longer. */
  lemma TakeOne<T>(l: seq<T>, p: set<T>, j: nat)
    requires j < |l|
    ensures Pinned(l[..j + 1], p) == Pinned(l[..j], p) + if l[j] in p then [l[j]] else []
    ensures Unpinned(l[..j + 1], p) == Unpinned(l[..j], p) + if l[j] in p then [] else [l[j]]
  {
    assert l[..j + 1] == l[..j] + [l[j]];
    PinnedConcat(l[..j], [l[j]], p);
    UnpinnedConcat(l[..j], [l[j]], p);
  }
}
