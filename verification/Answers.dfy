/** What a client is told: every answer and every comparison goes back to captures the run made. */
module Answers {
  import opened Bytes
  import opened Ids
  import opened Stores
  import opened Diff
  import opened Daemon
  import opened StoreSafety
  import opened Isolation
  import opened Baselines
  import opened Replay
  import opened Sessions

  // ---- the run, read backwards ----

  /** What the last lookup step of c captured. */
  ghost function LastLookUp(run: seq<Action>, c: nat): Option<Snapshot> {
    if run == [] then None
    else
      var a := run[|run| - 1];
      if a.LookUp? && a.c == c then Some(a.s) else LastLookUp(run[..|run| - 1], c)
  }

  /** How many ids the run issued. */
  ghost function Issues(run: seq<Action>): nat {
    if run == [] then 0
    else Issues(run[..|run| - 1]) + if Inserts(run[|run| - 1]) then 1 else 0
  }

  /** The last subscribe or capture of c: the number of its id and what it captured. */
  ghost function LastIssue(run: seq<Action>, c: nat): Option<(nat, Snapshot)> {
    if run == [] then None
    else
      var before, a := run[..|run| - 1], run[|run| - 1];
      if (a.Subscribe? || a.Capture?) && a.c == c then Some((Issues(before), a.s)) else LastIssue(before, c)
  }

  lemma {:induction false} CountIsIssues(cfg: Config, run: seq<Action>)
    requires Possible(cfg, run)
    ensures After(cfg, run).hist.count == Issues(run)
  {
    if run != [] {
      CountIsIssues(cfg, run[..|run| - 1]);
    }
  }

  // ---- what a request works on ----

  /** A request that names no snapshot works on what its own lookup captured. */
  ghost predicate OwnCapture(k: Conn, looked: Option<Snapshot>) {
    k.req.snapshotId.None? ==>
      && (k.phase.ReadingOld? || k.phase.Running? || k.phase.Rebasing? ==> looked == Some(k.snap))
      && (k.phase.Responding? && k.phase.reply.Top? ==> looked.Some? && k.phase.reply.list == looked.value.top)
  }

  lemma OwnCaptureConn(cfg: Config, w: World, a: Action, looked: Option<Snapshot>)
    requires Enabled(cfg, w, a) && !a.Open? && !a.CleanUp? && OwnCapture(w.conns[a.c], looked)
    ensures OwnCapture(ConnAfter(cfg, w, a), if a.LookUp? then Some(a.s) else looked)
  {
  }

  lemma {:induction false} OwnCaptureRun(cfg: Config, run: seq<Action>, c: nat)
    requires Possible(cfg, run)
    ensures c in After(cfg, run).conns ==> OwnCapture(After(cfg, run).conns[c], LastLookUp(run, c))
  {
    if run != [] {
      var before, a := run[..|run| - 1], run[|run| - 1];
      var w := After(cfg, before);
      OwnCaptureRun(cfg, before, c);
      if !a.Open? && !a.CleanUp? && a.c == c {
        OwnCaptureConn(cfg, w, a, LastLookUp(before, c));
      }
    }
  }

  /** A window.listTop request without snapshot_id is answered with the windows its own lookup
      captured, in every interleaving. */
  lemma TopOfNow(cfg: Config, run: seq<Action>, c: nat)
    requires Possible(cfg, run)
    requires var w := After(cfg, run);
             && c in w.conns && w.conns[c].req.snapshotId.None?
             && w.conns[c].phase.Responding? && w.conns[c].phase.reply.Top?
    ensures LastLookUp(run, c).Some? && After(cfg, run).conns[c].phase.reply.list == LastLookUp(run, c).value.top
  {
    OwnCaptureRun(cfg, run, c);
  }

  // ---- what a poll compares ----

  /** The old snapshot is the one named, or the baseline. */
  ghost predicate OldAsNamed(k: Conn, issued: map<Id, Snapshot>) {
    (k.phase.Running? || k.phase.Rebasing?) && k.req.oldId.Some? && k.old_snap.Some? ==>
      k.req.oldId.value in issued && k.old_snap.value == issued[k.req.oldId.value]
  }

  lemma OldAsNamedConn(cfg: Config, w: World, a: Action)
    requires StoreInv(w) && Enabled(cfg, w, a) && !a.Open? && !a.CleanUp? && OldAsNamed(w.conns[a.c], w.hist.issued)
    ensures OldAsNamed(ConnAfter(cfg, w, a), w.hist.issued)
  {
  }

  lemma {:induction false} OldAsNamedRun(cfg: Config, run: seq<Action>, c: nat)
    requires Possible(cfg, run) && WithinCounter(After(cfg, run))
    ensures c in After(cfg, run).conns ==> OldAsNamed(After(cfg, run).conns[c], After(cfg, run).hist.issued)
  {
    if run != [] {
      var before, a := run[..|run| - 1], run[|run| - 1];
      var w := After(cfg, before);
      CountGrows(cfg, w, a);
      OldAsNamedRun(cfg, before, c);
      StoreInvariant(cfg, before);
      if c in After(cfg, run).conns && !a.Open? && !a.CleanUp? && a.c == c {
        OldAsNamedConn(cfg, w, a);
      }
      if c in After(cfg, run).conns && After(cfg, run).conns[c].req.oldId.Some? {
        StillIssued(cfg, w, a, After(cfg, run).conns[c].req.oldId.value);
      }
    }
  }

  lemma StillIssued(cfg: Config, w: World, a: Action, id: Id)
    requires StoreInv(w) && Enabled(cfg, w, a) && WithinCounter(Next(cfg, w, a))
    ensures id in w.hist.issued ==> id in HistAfter(cfg, w, a).issued && HistAfter(cfg, w, a).issued[id] == w.hist.issued[id]
  {
    if id in w.hist.issued {
      IssuedStable(cfg, w, a, id);
    }
  }

  /** What c compares against: the capture under old_snapshot_id if that is given, else the one
      under its baseline. */
  ghost function OldId(k: Conn): Id {
    if k.req.oldId.Some? then k.req.oldId.value else k.session.last
  }

  /** A poll about to answer reports exactly the difference between the capture under its old id and
      the capture it works on: its own lookup's, or the one under the snapshot it names. */
  lemma PollReports(cfg: Config, run: seq<Action>, c: nat)
    requires Possible(cfg, run) && WithinCounter(After(cfg, run))
    requires c in After(cfg, run).conns && After(cfg, run).conns[c].phase.Rebasing?
    ensures var w, k := After(cfg, run), After(cfg, run).conns[c];
            && OldId(k) in w.hist.issued
            && k.phase.events == PollEvents(w.hist.issued[OldId(k)].top, k.snap.top)
            && (k.req.snapshotId.None? ==> LastLookUp(run, c) == Some(k.snap))
            && (k.req.snapshotId.Some? ==>
                  k.req.snapshotId.value in w.hist.issued && k.snap == w.hist.issued[k.req.snapshotId.value])
  {
    BaselineInvariant(cfg, run);
    ChainInvariant(cfg, run);
    IsolationInvariant(cfg, run);
    OldAsNamedRun(cfg, run, c);
    OwnCaptureRun(cfg, run, c);
  }

  /** The read of an explicit old snapshot: what was captured under that id if it is stored, else
      nothing. */
  lemma ExplicitRead(cfg: Config, run: seq<Action>, c: nat, id: Id)
    requires Possible(cfg, run) && WithinCounter(After(cfg, run))
    requires Enabled(cfg, After(cfg, run), ReadOld(c)) && After(cfg, run).conns[c].req.oldId == Some(id)
    ensures var w := After(cfg, run);
            var k := Next(cfg, w, ReadOld(c)).conns[c];
            && (k.old_snap.Some? <==> id in w.hist.issued && !Dead(w, id))
            && (k.old_snap.Some? ==> k.old_snap.value == w.hist.issued[id])
  {
    StoreInvariant(cfg, run);
  }

  // ---- the ids answered ----

  ghost predicate OwnIssue(k: Conn, last: Option<(nat, Snapshot)>) {
    k.phase.Responding? && k.phase.reply.Issued? ==> last.Some? && k.phase.reply.id == IdAt(last.value.0)
  }

  lemma {:induction false} OwnIssueRun(cfg: Config, run: seq<Action>, c: nat)
    requires Possible(cfg, run)
    ensures c in After(cfg, run).conns ==> OwnIssue(After(cfg, run).conns[c], LastIssue(run, c))
  {
    if run != [] {
      var before, a := run[..|run| - 1], run[|run| - 1];
      var w := After(cfg, before);
      OwnIssueRun(cfg, before, c);
      CountIsIssues(cfg, before);
      NumberedRun(cfg, before);
      if !a.Open? && !a.CleanUp? && a.c == c {
        OwnIssueConn(cfg, w, a, LastIssue(before, c));
      }
    }
  }

  lemma OwnIssueConn(cfg: Config, w: World, a: Action, last: Option<(nat, Snapshot)>)
    requires Enabled(cfg, w, a) && !a.Open? && !a.CleanUp? && OwnIssue(w.conns[a.c], last)
    requires NextId(w.store) == IdAt(w.hist.count)
    ensures OwnIssue(ConnAfter(cfg, w, a), if a.Subscribe? || a.Capture? then Some((w.hist.count, a.s)) else last)
  {
  }

  lemma {:induction false} IssuedUnder(cfg: Config, run: seq<Action>, c: nat)
    requires Possible(cfg, run) && WithinCounter(After(cfg, run)) && LastIssue(run, c).Some?
    ensures var (n, s) := LastIssue(run, c).value;
            IdAt(n) in After(cfg, run).hist.issued && After(cfg, run).hist.issued[IdAt(n)] == s
  {
    var before, a := run[..|run| - 1], run[|run| - 1];
    var w := After(cfg, before);
    CountGrows(cfg, w, a);
    if (a.Subscribe? || a.Capture?) && a.c == c {
      CountIsIssues(cfg, before);
      NumberedRun(cfg, before);
    } else {
      IssuedUnder(cfg, before, c);
      StoreInvariant(cfg, before);
      IssuedStable(cfg, w, a, IdAt(LastIssue(before, c).value.0));
    }
  }

  /** The id a subscribe or capture answers is the one it issued, number by number, and what was
      captured under it is what the request captured. */
  lemma AnsweredId(cfg: Config, run: seq<Action>, c: nat)
    requires Possible(cfg, run) && WithinCounter(After(cfg, run))
    requires var w := After(cfg, run); c in w.conns && w.conns[c].phase.Responding? && w.conns[c].phase.reply.Issued?
    ensures LastIssue(run, c).Some?
    ensures var w, (n, s) := After(cfg, run), LastIssue(run, c).value;
            && w.conns[c].phase.reply.id == IdAt(n)
            && IdAt(n) in w.hist.issued && w.hist.issued[IdAt(n)] == s
  {
    OwnIssueRun(cfg, run, c);
    IssuedUnder(cfg, run, c);
  }
}
