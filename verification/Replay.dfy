/** Replaying the events of a session's polls: what the client learns, and what it can miss. */
module Replay {
  import opened Bytes
  import opened Ids
  import opened Stores
  import opened Diff
  import opened Daemon
  import opened StoreSafety
  import opened Isolation
  import opened Baselines

  /** The capture the next poll of a chain compares against. */
  function Current(ch: Chain): Snapshot {
    if ch.polls == [] then ch.base else ch.polls[|ch.polls| - 1].latest
  }

  function Earlier(ch: Chain): Chain
    requires ch.polls != []
  {
    Chain(ch.base, ch.polls[..|ch.polls| - 1])
  }

  function LastPoll(ch: Chain): PollRecord
    requires ch.polls != []
  {
    ch.polls[|ch.polls| - 1]
  }

  ghost predicate Accurate(rec: PollRecord, baseline: Snapshot) {
    rec.events == PollEvents(baseline.top, rec.diffed.top)
  }

  /** Every poll reported the difference between its baseline and its capture. */
  ghost predicate Truthful(ch: Chain)
    decreases |ch.polls|
  {
    ch.polls == [] || (Truthful(Earlier(ch)) && Accurate(LastPoll(ch), Current(Earlier(ch))))
  }

  function AllEvents(polls: seq<PollRecord>): seq<Event> {
    if polls == [] then [] else AllEvents(polls[..|polls| - 1]) + polls[|polls| - 1].events
  }

  /** For one handle: how much the captures stored as baselines differ from the captures the
      polls had diffed, summed over the polls. */
  function Drift(polls: seq<PollRecord>, h: u64): int {
    if polls == [] then 0
    else
      var p := polls[|polls| - 1];
      Drift(polls[..|polls| - 1], h) + multiset(p.diffed.top)[h] as int - multiset(p.latest.top)[h] as int
  }

  // ---- the exact balance ----

  lemma AccurateNet(rec: PollRecord, baseline: Snapshot, h: u64)
    requires Accurate(rec, baseline)
    ensures multiset(baseline.top)[h] + Net(rec.events, h) == multiset(rec.diffed.top)[h]
  {
    NetOfPoll(baseline.top, rec.diffed.top, h);
  }

  lemma NetOfLast(ch: Chain, h: u64)
    requires ch.polls != []
    ensures Net(AllEvents(ch.polls), h) == Net(AllEvents(Earlier(ch).polls), h) + Net(LastPoll(ch).events, h)
  {
    NetConcat(AllEvents(Earlier(ch).polls), LastPoll(ch).events, h);
  }

  /** Base count plus reported changes is the count in the last capture diffed, plus the drift of
      the polls before it. */
  lemma {:induction false} Balance(ch: Chain, h: u64)
    requires Truthful(ch) && ch.polls != []
    ensures multiset(ch.base.top)[h] + Net(AllEvents(ch.polls), h) ==
            multiset(LastPoll(ch).diffed.top)[h] + Drift(Earlier(ch).polls, h)
    decreases |ch.polls|
  {
    AccurateNet(LastPoll(ch), Current(Earlier(ch)), h);
    NetOfLast(ch, h);
    if |ch.polls| > 1 {
      Balance(Earlier(ch), h);
    } else {
      assert AllEvents(Earlier(ch).polls) == [];
    }
  }

  // ---- replay on multisets ----

  function Apply(m: multiset<u64>, events: seq<Event>): multiset<u64> {
    m - Handles(events, Destroyed) + Handles(events, Created)
  }

  /** What a client computes that applies one poll's events after the other. */
  function ReplayAll(m: multiset<u64>, polls: seq<PollRecord>): multiset<u64> {
    if polls == [] then m else Apply(ReplayAll(m, polls[..|polls| - 1]), polls[|polls| - 1].events)
  }

  ghost predicate SameWindows(rec: PollRecord) {
    multiset(rec.latest.top) == multiset(rec.diffed.top)
  }

  /** Each poll but the last stored, as its new baseline, a capture with the windows it diffed. */
  ghost predicate Faithful(polls: seq<PollRecord>) {
    forall i :: 0 <= i < |polls| - 1 ==> SameWindows(polls[i])
  }

  lemma AccurateApply(rec: PollRecord, baseline: Snapshot)
    requires Accurate(rec, baseline)
    ensures Apply(multiset(baseline.top), rec.events) == multiset(rec.diffed.top)
  {
    DiffReplays(baseline.top, rec.diffed.top);
  }

  lemma {:induction false} ReplayFaithful(ch: Chain)
    requires Truthful(ch) && Faithful(ch.polls) && ch.polls != []
    ensures ReplayAll(multiset(ch.base.top), ch.polls) == multiset(LastPoll(ch).diffed.top)
    decreases |ch.polls|
  {
    AccurateApply(LastPoll(ch), Current(Earlier(ch)));
    if |ch.polls| > 1 {
      ReplayFaithful(Earlier(ch));
      assert SameWindows(ch.polls[|ch.polls| - 2]);
    }
  }

  function Max(a: int, b: int): int {
    if a < b then b else a
  }

  /** For one handle: how far off the client is behind the last of these polls. A poll changes it
      by what its predecessor stored differently from what it had diffed; a client never counts
      below zero. */
  function Off(polls: seq<PollRecord>, h: u64): int {
    if |polls| <= 1 then 0
    else
      var p, q := polls[|polls| - 2], polls[|polls| - 1];
      Max(Off(polls[..|polls| - 1], h) + multiset(p.diffed.top)[h] as int - multiset(p.latest.top)[h] as int,
          -(multiset(q.diffed.top)[h] as int))
  }

  /** Applying one poll's events to any multiset, handle by handle. */
  lemma ApplyAt(m: multiset<u64>, rec: PollRecord, baseline: Snapshot, h: u64)
    requires Accurate(rec, baseline)
    ensures Apply(m, rec.events)[h] as int ==
            Max(m[h] as int - multiset(baseline.top)[h] as int, -(multiset(rec.diffed.top)[h] as int)) + multiset(rec.diffed.top)[h] as int
  {
    EventHandles(baseline.top, rec.diffed.top);
  }

  /** What a client computes is what its last poll diffed plus Off, handle by handle. */
  lemma {:induction false} ReplayOff(ch: Chain, h: u64)
    requires Truthful(ch) && ch.polls != []
    ensures ReplayAll(multiset(ch.base.top), ch.polls)[h] as int == multiset(LastPoll(ch).diffed.top)[h] as int + Off(ch.polls, h)
    decreases |ch.polls|
  {
    var e, q := Earlier(ch), LastPoll(ch);
    var m := ReplayAll(multiset(ch.base.top), e.polls);
    assert ReplayAll(multiset(ch.base.top), ch.polls) == Apply(m, q.events);
    if |ch.polls| > 1 {
      ReplayOff(e, h);
      LaterPoll(m, q, LastPoll(e), h, Off(e.polls, h));
    } else {
      ApplyAt(m, q, ch.base, h);
    }
  }

  lemma LaterPoll(m: multiset<u64>, q: PollRecord, p: PollRecord, h: u64, off: int)
    requires Accurate(q, p.latest) && m[h] as int == multiset(p.diffed.top)[h] as int + off
    ensures Apply(m, q.events)[h] as int ==
            multiset(q.diffed.top)[h] as int +
            Max(off + multiset(p.diffed.top)[h] as int - multiset(p.latest.top)[h] as int, -(multiset(q.diffed.top)[h] as int))
  {
    ApplyAt(m, q, p.latest, h);
  }

  lemma ReplayOffs(ch: Chain)
    requires Truthful(ch) && ch.polls != []
    ensures var r, d := ReplayAll(multiset(ch.base.top), ch.polls), multiset(LastPoll(ch).diffed.top);
            && (forall h: u64 :: r[h] as int == d[h] as int + Off(ch.polls, h))
            && (r == d <==> forall h: u64 :: Off(ch.polls, h) == 0)
  {
    var r, d := ReplayAll(multiset(ch.base.top), ch.polls), multiset(LastPoll(ch).diffed.top);
    forall h: u64 ensures r[h] as int == d[h] as int + Off(ch.polls, h) {
      ReplayOff(ch, h);
    }
    SameCounts(r, d);
  }

  lemma SameCounts(r: multiset<u64>, d: multiset<u64>)
    ensures r == d <==> forall h: u64 :: r[h] == d[h]
  {
  }

  // ---- chains of reachable worlds ----

  /** A chain describes its baseline id, and every poll under way diffs what it will record. */
  ghost predicate ChainInv(w: World) {
    && (forall id :: id in w.hist.chains ==> 
          id in w.hist.issued && Truthful(w.hist.chains[id]) && Current(w.hist.chains[id]) == w.hist.issued[id])
    && (forall c :: c in w.conns ==> PollUnderWay(w.conns[c], w.hist.issued))
  }

  ghost predicate PollUnderWay(k: Conn, issued: map<Id, Snapshot>) {
    && (k.phase.Running? || k.phase.Rebasing? ==> OldIsIssued(k, issued))
    && (k.phase.Rebasing? ==> k.old_snap.Some? && Accurate(PollRecord(k.snap, k.phase.events, k.snap), k.old_snap.value))
  }

  /** The old snapshot a poll without old_snapshot_id got is its session's baseline. */
  ghost predicate OldIsIssued(k: Conn, issued: map<Id, Snapshot>) {
    Implicit(k) && k.old_snap.Some? ==> k.session.last in issued && k.old_snap.value == issued[k.session.last]
  }

  lemma PollConnStep(cfg: Config, w: World, a: Action)
    requires StoreInv(w) && Enabled(cfg, w, a) && !a.Open? && !a.CleanUp?
    requires PollUnderWay(w.conns[a.c], w.hist.issued)
    ensures PollUnderWay(ConnAfter(cfg, w, a), w.hist.issued)
  {
  }

  lemma PollsStep(cfg: Config, w: World, a: Action)
    requires StoreInv(w) && ChainInv(w) && Enabled(cfg, w, a) && WithinCounter(Next(cfg, w, a))
    ensures var conns := ConnsAfter(cfg, w, a);
            forall c :: c in conns ==> PollUnderWay(conns[c], HistAfter(cfg, w, a).issued)
  {
    var conns := ConnsAfter(cfg, w, a);
    forall c | c in conns ensures PollUnderWay(conns[c], HistAfter(cfg, w, a).issued) {
      if c in w.conns && !a.Open? && !a.CleanUp? && a.c == c {
        PollConnStep(cfg, w, a);
      }
      assert PollUnderWay(conns[c], w.hist.issued);
      if conns[c].session.last in w.hist.issued {
        IssuedStable(cfg, w, a, conns[c].session.last);
      }
    }
  }

  lemma TruthfulPush(ch: Chain, rec: PollRecord)
    requires Truthful(ch)
    requires Accurate(rec, Current(ch))
    ensures Truthful(Chain(ch.base, ch.polls + [rec]))
  {
    assert Earlier(Chain(ch.base, ch.polls + [rec])) == ch;
  }

  /** The lineage a poll hands on is truthful and ends in the capture it stores. */
  lemma ExtendedTruthful(w: World, c: nat, latest: Snapshot)
    requires ChainInv(w) && c in w.conns && w.conns[c].phase.Rebasing? && w.conns[c].req.verb.PollM?
    requires w.conns[c].old_snap.Some?
    ensures var ch := Extended(w, c, latest); Truthful(ch) && Current(ch) == latest
  {
    var k := w.conns[c];
    var rec := PollRecord(k.snap, k.phase.events, latest);
    if k.req.oldId.None? && k.session.last in w.hist.chains {
      TruthfulPush(w.hist.chains[k.session.last], rec);
    } else {
      TruthfulPush(Chain(k.old_snap.value, []), rec);
      assert [] + [rec] == [rec];
    }
  }

  lemma ChainsStep(cfg: Config, w: World, a: Action, id: Id)
    requires StoreInv(w) && BaselineInv(w) && ChainInv(w) && Enabled(cfg, w, a) && WithinCounter(Next(cfg, w, a))
    requires id in ChainsAfter(w, a)
    ensures var ch, issued := ChainsAfter(w, a)[id], HistAfter(cfg, w, a).issued;
            id in issued && Truthful(ch) && Current(ch) == issued[id]
  {
    CountGrows(cfg, w, a);
    if (a.Subscribe? || a.Rebaseline?) && id == NextId(w.store) {
      if a.Rebaseline? {
        ExtendedTruthful(w, a.c, a.s);
      }
    } else {
      assert id in w.hist.chains && ChainsAfter(w, a)[id] == w.hist.chains[id];
      IssuedStable(cfg, w, a, id);
    }
  }

  lemma {:induction false} ChainInvariant(cfg: Config, run: seq<Action>)
    requires Possible(cfg, run) && WithinCounter(After(cfg, run))
    ensures ChainInv(After(cfg, run))
  {
    if run != [] {
      var w, a := After(cfg, run[..|run| - 1]), run[|run| - 1];
      CountGrows(cfg, w, a);
      StoreInvariant(cfg, run[..|run| - 1]);
      BaselineInvariant(cfg, run[..|run| - 1]);
      ChainInvariant(cfg, run[..|run| - 1]);
      ChainInvStep(cfg, w, a);
    }
  }

  lemma ChainInvStep(cfg: Config, w: World, a: Action)
    requires StoreInv(w) && BaselineInv(w) && ChainInv(w) && Enabled(cfg, w, a) && WithinCounter(Next(cfg, w, a))
    ensures ChainInv(Next(cfg, w, a))
  {
    PollsStep(cfg, w, a);
    forall id | id in ChainsAfter(w, a)
      ensures var ch, issued := ChainsAfter(w, a)[id], HistAfter(cfg, w, a).issued;
              id in issued && Truthful(ch) && Current(ch) == issued[id]
    {
      ChainsStep(cfg, w, a, id);
    }
  }

  // ---- the main results ----

  /** The lineage of a session's baseline is its subscribe and its successful polls since: an
      implicit poll appends the capture it diffed, the events it answers and the capture it
      stores, and a poll with an explicit old snapshot starts over from that snapshot. */
  lemma LineageIsThePolls(cfg: Config, run: seq<Action>, c: nat, s: Snapshot)
    requires Possible(cfg, run) && WithinCounter(After(cfg, run)) && Enabled(cfg, After(cfg, run), Rebaseline(c, s))
    ensures var w := After(cfg, run);
            var w', k := Next(cfg, w, Rebaseline(c, s)), w.conns[c];
            var b, b', rec := k.session.last, w'.conns[c].session.last, PollRecord(k.snap, k.phase.events, s);
            && w'.conns[c].phase == Responding(Events(Renumbered(k.phase.events)))
            && b' in w'.hist.chains
            && (Implicit(k) ==> b in w.hist.chains &&
                                w'.hist.chains[b'] == Chain(w.hist.chains[b].base, w.hist.chains[b].polls + [rec]))
            && (!Implicit(k) ==> k.old_snap.Some? && w'.hist.chains[b'] == Chain(k.old_snap.value, [rec]))
  {
    var w := After(cfg, run);
    BaselineInvariant(cfg, run);
    ChainInvariant(cfg, run);
    if Implicit(w.conns[c]) {
      StoreInvariant(cfg, run);
      IssuedNonEmpty(w, w.conns[c].session.last);
    }
  }

  lemma SubscribeStartsLineage(cfg: Config, run: seq<Action>, c: nat, s: Snapshot)
    requires Possible(cfg, run) && Enabled(cfg, After(cfg, run), Subscribe(c, s))
    ensures var w' := Next(cfg, After(cfg, run), Subscribe(c, s));
            w'.conns[c].session.last in w'.hist.chains && w'.hist.chains[w'.conns[c].session.last] == Chain(s, [])
  {
  }

  /** Over whole runs: replaying the events of a session's polls on the windows its lineage
      starts with gives the windows its last poll diffed if and only if no handle is off; and
      the surplus or deficit of a handle is exactly its Off. */
  lemma ReplayExact(cfg: Config, run: seq<Action>, b: Id)
    requires Possible(cfg, run) && WithinCounter(After(cfg, run))
    requires b in After(cfg, run).hist.chains && After(cfg, run).hist.chains[b].polls != []
    ensures var ch := After(cfg, run).hist.chains[b];
            var r, d := ReplayAll(multiset(ch.base.top), ch.polls), multiset(LastPoll(ch).diffed.top);
            && (forall h: u64 :: r[h] as int == d[h] as int + Off(ch.polls, h))
            && (r == d <==> forall h: u64 :: Off(ch.polls, h) == 0)
  {
    ChainInvariant(cfg, run);
    ReplayOffs(After(cfg, run).hist.chains[b]);
  }

  /** The signed sum of all events, by contrast, is right for a handle if and only if the drift of
      the polls before the last cancels out. */
  lemma NetExact(cfg: Config, run: seq<Action>, b: Id, h: u64)
    requires Possible(cfg, run) && WithinCounter(After(cfg, run))
    requires b in After(cfg, run).hist.chains && After(cfg, run).hist.chains[b].polls != []
    ensures var ch := After(cfg, run).hist.chains[b];
            multiset(ch.base.top)[h] + Net(AllEvents(ch.polls), h) == multiset(LastPoll(ch).diffed.top)[h]
            <==> Drift(Earlier(ch).polls, h) == 0
  {
    ChainInvariant(cfg, run);
    Balance(After(cfg, run).hist.chains[b], h);
  }

  /** In particular no event is missed when every poll stores a capture with the windows it
      diffed. */
  lemma NoEventMissed(cfg: Config, run: seq<Action>, b: Id)
    requires Possible(cfg, run) && WithinCounter(After(cfg, run))
    requires b in After(cfg, run).hist.chains && After(cfg, run).hist.chains[b].polls != []
    requires Faithful(After(cfg, run).hist.chains[b].polls)
    ensures var ch := After(cfg, run).hist.chains[b];
            ReplayAll(multiset(ch.base.top), ch.polls) == multiset(LastPoll(ch).diffed.top)
  {
    ChainInvariant(cfg, run);
    ReplayFaithful(After(cfg, run).hist.chains[b]);
  }
}
