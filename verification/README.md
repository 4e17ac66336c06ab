# WinInspect: a verified model of its daemon, wire formats and fake backend

WinInspect is a daemon that inspects windows for remote clients. Clients connect over a named pipe or over TCP,
capture *snapshots* of the desktop, name them in later requests, and subscribe to *events*, which the daemon
computes by comparing a session's last snapshot (its *baseline*) with a new one. This project models that
behaviour in Dafny and proves what it keeps over every run.

**The shared state.** `ServerState.dfy` is the object behind the daemon's mutex: the snapshot map, pin counts,
LRU list, id counter and persistent sessions, one method per section the handlers run under the lock, the
eviction loop and the session sweep iteration by iteration. Each method is proved equal to a function on values
(`Store.dfy`). `Eviction.dfy` relates the eviction loop to a closed form.

**Runs.** `Daemon.dfy` is the step system over that state. A step is one section under the mutex, or the local
code between two sections, of one connection's handler; a run is any interleaving of the steps of any number of
pipe and TCP connections and of the session sweep. The two handlers differ where the source does: TCP keeps no
session between requests and limits the session table; the pipe handler moves a looked-up id to the back of the
LRU list and unpins once more when its connection ends. A `History` beside the state records what was captured
under each id, when ids were touched and how each baseline came about; steps write it and never read it. The
theorems about runs are in `StoreSafety`, `Pins`, `Isolation`, `Recency`, `SessionLimit`, `Baselines`, `Replay`,
`Sessions` (what the session table holds, told from the run alone) and `Answers` (every answer goes back to a
capture of the run). `Witnesses` and `SessionWitness` build reachable states that show which conditions cannot be dropped.

**Values and wire formats.** `Diff.dfy` is the snapshot comparison. `Json*.dfy` is the JSON library: the printer
and the cursor parser as methods, the grammar functions they compute, syntax trees that describe JSON text by
itself with the proof that the parser accepts exactly their texts, and the round trip.
`Base64.dfy`, `Handles.dfy`, `Trees.dfy` and `Framing.dfy` are the encodings built around it.

**The fake backend.** `Forest.dfy`, `DesiredState.dfy` and `FakeBackend.dfy` are the in-memory desktop: window
trees over arbitrary parent maps, and the two desired-state actions over runs of requests.

## What turned out false, and when it holds

- *No event is missed* (docs/PROTOCOL.md:76). A successful poll captures the desktop a second time and stores
  that capture as the next baseline, so a window that appears between the two captures is never reported.
  `Witnesses.MissedEvents` gives such a run for any two window lists. `Replay.ReplayExact` gives the exact
  condition on the captures: a client that applies the events of all polls ends with the windows of the last poll
  if and only if no handle is off, where a handle is off by what each poll stored differently from what it had
  diffed, carried from poll to poll and cut where the client's count would fall below zero.
- *The session count never exceeds the limit* (formal/tla/README.md:19). A subscribe or poll writes its session
  back after the session was terminated or swept. `SessionLimit.SessionBound` bounds the excess by the requests
  in flight and `SessionWitness.SessionBoundAttained` shows the bound is reached for every limit and every number
  of requests in flight.
- *A pinned snapshot is not evicted.* It holds in TCP-only runs (`Pins.TcpPinsProtect`). In any run a capture
  evicts a stored id exactly when at most as many requests hold it as pipe connections closed on it and it is among
  the oldest unprotected ids that are too many (`Pins.EvictedIff`); `Witnesses.HeldYetEvicted` is, for every limit,
  a state in which a held snapshot is gone.
- *The LRU list is ordered by use.* It holds throughout a run exactly when no TCP lookup of the run finds
  an id other than the last of the list (`Recency.SortedThroughoutIff`), so in every pipe-only run;
  `Witnesses.OrderBroken` reaches an unsorted list under every configuration.
- *Capturing always returns.* The eviction loop ends exactly when at most max_snapshots listed ids are pinned
  (`Eviction.LoopEndsIff`), and for every limit some run brings a capture request to a loop that does not end
  (`Witnesses.CaptureHangs`).
- *Listing a window tree always returns.* Exactly when its root is on no parent cycle (`Forest.TerminatesIff`).
- *Every number survives JSON.* Exactly the multiples of a millionth do (`JsonRoundTrip.RoundTripIff`).
- *Every message survives framing.* Exactly those shorter than 2^32 bytes (`Framing.FramesRoundTripIff`).

docs/ARCHITECTURE.md:22 speaks of 100 stored snapshots; the code's default is 1000
(daemon/src/server_state.hpp:34), and the model takes the limit as a parameter.

## Model

| member | source | states |
|---|---|---|
| `Eviction.LoopEndsIff` | daemon/src/server.cpp:190-202 | The loop ends if and only if at most max_snapshots listed ids are pinned, and then with the closed form: the list behind the shortest prefix holding the excess of unpinned ids, then the pinned ids of that prefix in order |
| `Eviction.IterateStable` | daemon/src/server.cpp:190-202 | However many iterations are run past the end, the list is the same |
| `Eviction.SurvivorsLength` | daemon/src/tcp_server.cpp:317-327 | The list is cut to max_snapshots, and left alone when it is not longer |
| `Eviction.SurvivorsPartition` | daemon/src/tcp_server.cpp:317-327 | Every listed id either survives or is evicted, never both, and no evicted id is pinned |
| `Eviction.EvictedAreOldest` | daemon/src/server.cpp:190-202 | The evicted ids are exactly the oldest unpinned ones, as many as the list is too long |
| `Eviction.NewestSurvivesIff` | daemon/src/server.cpp:181-203 | The id just appended survives if and only if fewer than max_snapshots ids are pinned |
| `ServerStates.ServerState.constructor` | daemon/src/server_state.hpp:17-55 | Empty maps and list, the counter at 1 |
| `ServerStates.ServerState.Issue` | daemon/src/server.cpp:186-188 | Issues the counter's id, stores the snapshot unless the key exists, appends the id, wraps the counter at 2^64 |
| `ServerStates.ServerState.EvictLoop` | daemon/src/server.cpp:190-202 | The loop over snaps, pinned_counts and lru_order ends in the closed form: the oldest unpinned ids leave all three |
| `ServerStates.ServerState.Capture` | daemon/src/server.cpp:181-203 | Issue, then evict |
| `ServerStates.ServerState.Attach` | daemon/src/tcp_server.cpp:226-246 | Refuses exactly when limited, full and the key is new; else recovers a known session into the handler's copy or creates it |
| `ServerStates.ServerState.Subscribe` | daemon/src/server.cpp:120-134 | Issues an id and makes it the baseline of the handler's session and of the table entry, recreating the entry if it is gone |
| `ServerStates.ServerState.Unsubscribe` | daemon/src/server.cpp:143-152 | Clears flag and baseline; a missing entry is not created |
| `ServerStates.ServerState.Terminate` | daemon/src/server.cpp:159-166 | Removes the entry and detaches the handler; without a session nothing happens |
| `ServerStates.ServerState.LookUp` | daemon/src/server.cpp:213-228 | Unknown id: no change. Known id: its snapshot, one more pin, and on pipes the id moves to the back |
| `ServerStates.ServerState.Rebaseline` | daemon/src/server.cpp:264-277 | Issues an id for the fresh capture and makes it the baseline, recreating the entry if it is gone |
| `ServerStates.ServerState.Release` | daemon/src/server.cpp:291-302 | One pin less, also on an id without an entry |
| `ServerStates.ServerState.CleanUp` | daemon/src/server.cpp:38-49 | The erase-while-iterating loop removes exactly the entries idle for more than the time to live, in whole seconds |
| `Bytes.DecimalRoundTrip` | daemon/src/server.cpp:36 | Reading a number's decimal text gives the number back |
| `Ids.MakeSnapIdInjective` | daemon/src/server.cpp:36 | Different counters make different ids |
| `Ids.IdReuse` | daemon/src/server.cpp:186 | Two issues get the same id if and only if their numbers agree modulo 2^64 |
| `StoreSafety.StoreInvariant` | daemon/src/server.cpp:120-303 | In every run lru_order has no duplicates, its elements are exactly the keys of snaps, and every stored snapshot is the one captured under its id |
| `StoreSafety.StorageBound` | daemon/src/tcp_server.cpp:249-328 | At all times the stored snapshots number at most max_snapshots plus the subscribes and successful polls of the run since its last capture |
| `Pins.PinInvariant` | daemon/src/server.cpp:213-302 | The invariant behind the accounting holds in every run of pipes and TCP |
| `Pins.PinAccounting` | daemon/src/server.cpp:213-302 | In every run the count of a stored id is the number of requests in flight holding it minus the pipe connections that closed with it as their last pinned id |
| `Pins.ProtectedIff` | daemon/src/server.cpp:193 | In every run a stored id has a positive count if and only if more requests hold it than pipes closed on it |
| `Pins.EvictedIff` | daemon/src/server.cpp:190-202 | In every run a capture evicts a stored id if and only if at most as many requests hold it as pipes closed on it and it is among the oldest unprotected ids that are too many |
| `Pins.TcpPinsProtect` | daemon/src/tcp_server.cpp:338-418 | In TCP-only runs no count is negative and no id held by a request in flight is evicted |
| `Pins.NamedIsHeld` | daemon/src/server.cpp:213-228 | In every run a request working on the snapshot it names holds it |
| `Pins.TcpNamedStays` | daemon/src/tcp_server.cpp:338-418 | In TCP-only runs the snapshot a request names stays stored while the request works on it |
| `Witnesses.VisitLosesOne` | daemon/src/server.cpp:291-302 | From every state, a pipe connection that names a stored id and closes leaves its count one lower and the rest but the LRU order unchanged |
| `Witnesses.HeldYetEvicted` | daemon/src/server.cpp:190-302 | For every limit, zero included, a reachable state in which a request in flight holds an evicted id |
| `Isolation.IdLifetime` | daemon/src/server.cpp:185-188 | In every continuation of a run an issued id keeps its capture, and an id that is gone stays gone |
| `Isolation.LookUpExact` | daemon/src/server.cpp:213-224 | Looking an id up finds exactly what was captured under it, or E_BAD_SNAPSHOT when it is gone or was never issued |
| `Isolation.ListTopAnswer` | core/src/win32_backend.cpp:122-124 | A listTop response for a named id is the list captured under it, whatever ran meanwhile |
| `Answers.TopOfNow` | daemon/src/server.cpp:229-231 | A listTop response to a request without snapshot_id is the list that request's own lookup captured, in every interleaving |
| `Answers.AnsweredId` | daemon/src/server.cpp:181-207 | The id a subscribe or capture answers is the one it issued, and what is recorded under it is what that request captured |
| `Isolation.BadSnapshotForever` | daemon/src/server.cpp:217-223 | Once an issued id is gone every later lookup of it fails |
| `Isolation.CaptureSurvivesIff` | daemon/src/server.cpp:181-203 | In every run a capture's own id is stored afterwards if and only if fewer than max_snapshots listed ids were pinned |
| `Recency.RecencyStepIff` | daemon/src/tcp_server.cpp:349-351 | Every step of pipes and TCP takes a sorted list to a sorted one if and only if it is not a TCP lookup of a stored id other than the last |
| `Recency.SortedThroughoutIff` | daemon/src/server.cpp:187-228 | The list is sorted by last touch (creation, lookup, or being passed over while pinned) at every point of a run if and only if the run has no such lookup |
| `Recency.SortedInPipeRuns` | daemon/src/server.cpp:187-228 | In pipe-only runs lru_order is always sorted by last touch |
| `Recency.EvictsLeastRecent` | daemon/src/server.cpp:190-202 | In runs without such a lookup every evicted id was touched before every unpinned id that stays |
| `Witnesses.OrderBroken` | daemon/src/tcp_server.cpp:338-354 | Under every configuration a reachable state whose list is not sorted by last touch |
| `Witnesses.CaptureHangs` | daemon/src/server.cpp:190-202 | For every limit below 2^64 a reachable state in which a capture request meets an eviction loop that does not end |
| `SessionLimit.ClaimedBound` | daemon/src/tcp_server.cpp:226-246 | Table keys and keys held by requests in flight together never exceed max_sessions + N - 1 |
| `SessionLimit.SessionBound` | daemon/src/tcp_server.cpp:226-295 | In TCP-only runs with at most N requests in flight the table has at most max_sessions + N - 1 entries |
| `SessionWitness.SessionBoundAttained` | daemon/src/tcp_server.cpp:226-295 | For every max_sessions and N of at least one, some such run reaches that size |
| `Baselines.BaselineInvariant` | daemon/src/server.cpp:99-158 | In every run each session's baseline, local or persistent, is empty or issued by a subscribe or poll |
| `Baselines.SubscribedHasBaseline` | daemon/src/server.cpp:99-158 | In every interleaving a subscribed session has a non-empty issued baseline |
| `Baselines.BaselineReadIff` | daemon/src/server.cpp:242-249 | A poll without old_snapshot_id gets a snapshot to diff against if and only if its baseline is stored then, and it is the one captured under it |
| `Answers.ExplicitRead` | daemon/src/server.cpp:233-241 | A request with old_snapshot_id gets what was captured under that id if it is stored, else nothing |
| `Answers.PollReports` | daemon/src/server.cpp:230-262 | A poll about to answer reports exactly the difference between the capture under its old_snapshot_id or baseline and the capture it works on: its own lookup's, or the one under the snapshot_id it names |
| `Baselines.PollsFailUntilRenewed` | daemon/src/server.cpp:233-277 | Once a connection's baseline is gone, every implicit poll of it fails, over any number of later requests and in every interleaving, until it subscribes, succeeds with an explicit old_snapshot_id, or attaches a session whose baseline is stored |
| `Baselines.AttachDoomsIff` | daemon/src/server.cpp:99-116 | Attaching a known session leaves the connection without a baseline if and only if the session's own is not stored |
| `Baselines.TableBaselineChanges` | daemon/src/server.cpp:120-152 | A stored baseline changes only by a subscribe, unsubscribe or successful poll of a connection attached to it |
| `Baselines.SessionPollsFail` | daemon/src/tcp_server.cpp:226-398 | Once a persistent session is without a baseline, in the table and in the handlers attached to it, every implicit poll of every connection attached to it then or later fails, whatever is terminated, swept, closed or created, until the session gets a baseline |
| `Sessions.TableIsLedger` | daemon/src/server.cpp:38-166 | In every run a session exists, with which baseline, flag and time, exactly as the run says: named by an accepted request or written back, and neither terminated nor swept since; the id of the last subscribe or poll behind the last unsubscribe; the time of the last request that named it |
| `Sessions.ActedStep` | daemon/src/server.cpp:120-166 | Subscribe and poll of an attached handler write the new id to its entry and no other field, unsubscribe clears it, terminate removes it |
| `Sessions.NamedStep` | daemon/src/tcp_server.cpp:226-246 | A request that names a session makes or keeps it unless refused, and refreshes its time |
| `Sessions.Recovered` | daemon/src/tcp_server.cpp:236-241 | Naming a session that exists gives the handler its baseline and flag |
| `Sessions.Created` | daemon/src/server.cpp:110-115 | Naming one that does not exist makes it; the handler keeps what it had |
| `Sessions.SweptStep` | daemon/src/server.cpp:38-49 | A sweep removes an entry if and only if it was idle for a whole second more than the time to live, and keeps the others as they are |
| `Sessions.RefusedIff` | daemon/src/tcp_server.cpp:230-235 | A request is refused if and only if it comes over TCP and names a session that does not exist while as many as allowed do |
| `Sessions.BothRenewed` | daemon/src/server.cpp:264-277 | After a subscribe or successful poll the handler and the table have the same new baseline, which means the capture just made |
| `Sessions.BothCleared` | daemon/src/server.cpp:143-158 | Unsubscribing takes the baseline from the handler and the table, and its polls fail |
| `Sessions.Terminated` | daemon/src/server.cpp:159-166 | Terminating removes that entry only and detaches the handler |
| `Sessions.SessionPollReads` | daemon/src/tcp_server.cpp:236-241 | After a subscribe or successful poll of a session and any steps that do not touch it, the next poll of a request naming it, on any connection, compares against exactly that capture while it is stored |
| `Sessions.PipePollReads` | daemon/src/server.cpp:242-277 | The same for a pipe connection without a session, over any number of its requests |
| `Diff.SortedSpec` | core/src/win32_backend.cpp:1191-1194 | Ascending, and a permutation |
| `Diff.SetDifference` | core/src/win32_backend.cpp:1298-1305 | The merge loop computes the difference of two ranges |
| `Diff.DifferenceCounts` | core/src/win32_backend.cpp:1298-1305 | On ascending ranges that difference is the multiset difference |
| `Diff.ComputeEvents` | core/src/win32_backend.cpp:1291-1310 | The push loops give the created events, then the destroyed ones |
| `Diff.DiffReplays` | core/src/win32_backend.cpp:1291-1310 | Old minus destroyed plus created is new, as multisets; created and destroyed are disjoint; there is no event if and only if the lists are permutations |
| `Diff.EventOrder` | core/src/win32_backend.cpp:1291-1310 | All created events come before all destroyed ones, each kind by ascending handle |
| `Diff.NumberEvents` | core/src/core.cpp:169-178 | The events are numbered 1 to n, otherwise unchanged |
| `Replay.ChainInvariant` | daemon/src/server.cpp:230-277 | In every run each baseline's lineage is a chain of polls each of which reported the difference between the baseline before it and the capture it diffed |
| `Replay.LineageIsThePolls` | daemon/src/server.cpp:264-277 | A successful poll answers its events numbered from 1; an implicit one appends its own record to the lineage of the session's baseline, one with an explicit old snapshot starts a lineage from that snapshot |
| `Replay.SubscribeStartsLineage` | daemon/src/server.cpp:120-134 | A subscribe starts a lineage at the capture it stores |
| `Replay.Balance` | daemon/src/server.cpp:230-277 | Per handle: windows at the start plus net events is windows at the last poll plus the drift of the polls before |
| `Replay.ReplayOff` | daemon/src/server.cpp:230-277 | For any chain of truthful polls: what a client computes by applying their events is, per handle, what the last poll diffed plus Off |
| `Replay.ReplayExact` | daemon/src/server.cpp:230-277 | Over whole runs: that replay gives the windows of the last poll if and only if Off is zero for every handle |
| `Replay.NetExact` | daemon/src/server.cpp:230-277 | The signed sum of all events is right for a handle if and only if the drift of the polls before the last is zero |
| `Replay.NoEventMissed` | docs/PROTOCOL.md:70-76 | If every poll stores a capture with the windows it diffed, replaying all events on the subscribe-time windows gives the windows of the last poll |
| `Witnesses.MissedEvents` | daemon/src/server.cpp:264-277 | For any window lists d and e, a reachable state of a session that started at d, last diffed e and was told of no event |
| `JsonValues.SortedKeysAscend` | core/include/wininspect/tinyjson.hpp:326 | Object keys are visited in ascending byte order |
| `JsonValues.InsertionOrder` | core/include/wininspect/tinyjson.hpp:118 | An object does not depend on the order its keys were inserted in |
| `JsonValues.FirstKept` | core/include/wininspect/tinyjson.hpp:118 | Of several pairs with one key the first counts |
| `JsonNumbers.PrintNumber` | core/include/wininspect/tinyjson.hpp:358-368 | The trimming loop and the dropped point leave the integer part and, if any are left, the six decimals without trailing zeros |
| `JsonNumbers.TextDenotes` | core/include/wininspect/tinyjson.hpp:358-368 | The digits printed denote the number rounded to six decimals |
| `JsonNumbers.FractionTrimmed` | core/include/wininspect/tinyjson.hpp:361-365 | At most six decimals are printed, and no zero at their end |
| `JsonNumbers.Nearest` | core/include/wininspect/tinyjson.hpp:360 | The number printed is a nearest multiple of a millionth, of two the even one |
| `JsonNumbers.SixDecimalsExact` | core/include/wininspect/tinyjson.hpp:360 | The rounding changes nothing if and only if the number is a multiple of a millionth |
| `JsonPrinter.DumpString` | core/include/wininspect/tinyjson.hpp:284-319 | The loop appends the quoted, escaped text |
| `JsonPrinter.Dump` | core/include/wininspect/tinyjson.hpp:349-378 | Appends the text of a value of any depth |
| `JsonPrinter.DumpArray` | core/include/wininspect/tinyjson.hpp:337-347 | Appends the items separated by commas |
| `JsonPrinter.DumpObject` | core/include/wininspect/tinyjson.hpp:323-335 | Appends the fields in key order separated by commas |
| `JsonPrinter.Dumps` | core/include/wininspect/tinyjson.hpp:380-384 | Returns the text |
| `JsonParser.Parser.ParseString` | core/include/wininspect/tinyjson.hpp:162-224 | The loop reads what the grammar's string production reads, or raises its error; the cursor stays inside the text |
| `JsonParser.Parser.ParseNumber` | core/include/wininspect/tinyjson.hpp:247-277 | The same for numbers, with fraction and exponent |
| `JsonParser.Parser.ParseArrayBody` | core/include/wininspect/tinyjson.hpp:130-150 | The same for arrays |
| `JsonParser.Parser.ParseObjectBody` | core/include/wininspect/tinyjson.hpp:101-128 | The same for objects; of several equal keys the first counts |
| `JsonParser.Parser.ParseAny` | core/include/wininspect/tinyjson.hpp:82-99 | The same for any value |
| `JsonParser.Parser.Run` | core/include/wininspect/tinyjson.hpp:52-59 | On every text it returns v only if the text is written for v, and raises only if it is written for no value |
| `JsonReading.ParsesIff` | core/include/wininspect/tinyjson.hpp:52-277 | A text is accepted as v if and only if it is the text of a syntax tree that means v: any blanks between tokens, any escapes in either case, any fraction and exponent, repeated keys with the first kept |
| `JsonReading.Reads` | core/include/wininspect/tinyjson.hpp:82-99 | The text of every syntax tree, in front of anything that cannot continue a number, is read as what it means |
| `JsonReading.From` | core/include/wininspect/tinyjson.hpp:82-99 | Every text a value is read from is the text of a syntax tree with that meaning |
| `JsonReading.FieldReads` | core/include/wininspect/tinyjson.hpp:110-118 | Key, colon and value are read with blanks around all of them |
| `JsonReading.NumeralReads` | core/include/wininspect/tinyjson.hpp:247-277 | Sign, digits, fraction and exponent are read as the decimal number they denote |
| `JsonRoundTrip.ParsePrinted` | core/include/wininspect/tinyjson.hpp:52-384 | Printing any value and parsing the text, with any blanks around it, gives the value with each number rounded to six decimals |
| `JsonRoundTrip.RoundTripIff` | core/include/wininspect/tinyjson.hpp:52-384 | Parsing the printed text gives the value itself if and only if every number in it is a multiple of a millionth |
| `JsonRoundTrip.PrintingInjective` | core/include/wininspect/tinyjson.hpp:284-384 | Two such values with the same text are equal |
| `JsonRoundTrip.PrintingIgnoresInsertionOrder` | core/include/wininspect/tinyjson.hpp:282-384 | The text does not depend on key insertion order |
| `JsonRoundTrip.TextIs` | core/include/wininspect/tinyjson.hpp:284-384 | Printed text is the text of a syntax tree without blanks |
| `JsonRoundTrip.PrintedStrict` | core/include/wininspect/tinyjson.hpp:309-315 | In a printed string no control byte stands for itself |
| `JsonEscapes.UnicodeParses` | core/include/wininspect/tinyjson.hpp:162-224 | A \u escape with any four hexadecimal digits, in either case, parses to bytes that section 3 of RFC 3629 decodes to the code they denote |
| `Handles.HexTextShape` | core/src/core.cpp:14-18 | Upper-case digits only, and no leading zero except for handle 0 |
| `Handles.HandleRoundTrip` | core/src/core.cpp:14-62 | parse_hwnd undoes to_string on every 64-bit handle |
| `Handles.Canonical` | core/src/core.cpp:14-18 | Printing the number a digit string denotes gives that string in upper case without leading zeros |
| `Handles.ParseHandleIff` | core/src/core.cpp:54-62 | Behind the prefix a digit string is read as h if and only if it is h's own to_string text up to leading zeros and case |
| `Trees.WindowWire` | core/src/core.cpp:75-86 | A window tree converted, printed, parsed and read back is the same tree |
| `Trees.ElementWire` | core/src/core.cpp:125-147 | So is a UI element tree, with its rectangles |
| `Trees.WireInjective` | core/src/core.cpp:75-86 | Two window trees with the same text are equal |
| `Trees.NodeFields` | core/src/core.cpp:75-79 | A node is written with its handle, title and class name under those keys |
| `Trees.FieldsBack` | core/src/core.cpp:125-140 | An element is written with each property under its own key |
| `Forest.ChildrenSpec` | core/src/fake_backend.cpp:18-39 | The children listed are exactly the windows with that parent, ascending |
| `Forest.TerminatesIff` | core/src/fake_backend.cpp:77-106 | get_window_tree returns if and only if its root is on no parent cycle |
| `Forest.WholeForestTerminates` | core/src/fake_backend.cpp:98-101 | With no window of handle 0 the whole forest is listed for every parent map, cycles included |
| `Forest.TreeIsBuilt` | core/src/fake_backend.cpp:82-96 | Whatever depth of nested calls suffices, the forest returned is the same one |
| `Forest.WholeForest` | core/src/fake_backend.cpp:98-101 | From root 0 each window whose parent chain reaches 0 appears exactly once and no other; the roots are the captured top list; every node has its window's title and class name and its listed children |
| `Forest.Subtree` | core/src/fake_backend.cpp:102-104 | From another root: that root and each window whose chain reaches it, once |
| `Forest.FaithfulUnique` | core/src/fake_backend.cpp:82-96 | A tree with the listed children at every node is the tree built, and its root is on no cycle |
| `FakeBackends.FakeBackend.constructor` | core/src/fake_backend.cpp:9-12 | Holds the windows of the list, with no foreground and no events |
| `FakeBackends.FirstOfSpec` | core/src/fake_backend.cpp:9-12 | Of several windows with one handle the first counts |
| `FakeBackends.FakeBackend.CaptureSnapshot` | core/src/fake_backend.cpp:18-27 | The ascending list of the windows with parent 0 |
| `FakeBackends.FakeBackend.ListChildren` | core/src/fake_backend.cpp:31-39 | The ascending list of the windows with that parent |
| `FakeBackends.FakeBackend.BuildNode` | core/src/fake_backend.cpp:82-96 | The recursion with its push loop ends and returns the tree, for every root on no cycle |
| `FakeBackends.FakeBackend.GetWindowTree` | core/src/fake_backend.cpp:77-106 | Both branches return the forest described above |
| `FakeBackends.FakeBackend.EnsureVisible` | core/src/fake_backend.cpp:243-251 | Sets the flag of that window only; reports whether it changed; a missing window is not created |
| `FakeBackends.FakeBackend.EnsureForeground` | core/src/fake_backend.cpp:253-258 | Sets the foreground; reports whether it changed |
| `FakeBackends.FakeBackend.InvokeUiElement` | core/src/fake_backend.cpp:308-316 | Records the event and reports whether the search succeeds |
| `FakeBackends.FakeBackend.Handle` | core/src/core.cpp:266-286 | Dispatches the two ensure methods, with missing and unreadable parameters refused and nothing changed |
| `DesiredState.EnsureVisibleDoes` | core/src/core.cpp:266-276 | With a readable handle and a boolean: that window gets exactly the visibility asked for, nothing else changes, and changed says whether it differed |
| `DesiredState.ShowsAsAsked` | core/src/core.cpp:266-276 | In particular for the text to_string gives any handle |
| `DesiredState.EnsureForegroundDoes` | core/src/core.cpp:278-286 | With a readable handle: that handle becomes the foreground, nothing else changes, and changed says whether it differed |
| `DesiredState.EnsureRefused` | core/src/core.cpp:266-286 | A missing, ill-typed or unreadable parameter is refused and changes nothing |
| `DesiredState.VisibleAfter` | core/src/core.cpp:781-814 | After any run of requests the windows are the same ones, and each is as visible as the run last asked |
| `DesiredState.ForegroundAfter` | core/src/core.cpp:781-814 | The foreground is the one last asked for |
| `DesiredState.VisibleConvergesIff` | core/src/fake_backend.cpp:243-251 | After ensureVisible(h, v) and any requests, a repeat reports no change and changes nothing if and only if those requests did not last ask the opposite, or there is no such window |
| `DesiredState.VisibleConverges` | core/src/core.cpp:266-276 | In particular across any requests with no ensureVisible(h, !v) |
| `DesiredState.ForegroundConvergesIff` | core/src/core.cpp:278-286 | The same for ensureForeground until another handle is made foreground last |
| `DesiredState.FindSound` | core/src/fake_backend.cpp:297-306 | If the search succeeds, some path of child positions leads to an element with the id |
| `DesiredState.FindComplete` | core/src/fake_backend.cpp:297-306 | If some path leads to such an element, the search succeeds |
| `Base64.Encode` | core/include/wininspect/base64.hpp:34-52 | The loops, the flush of leftover bits and the padding compute the encoding of section 4 of RFC 4648, with an accumulator that wraps at 32 bits and with an unbounded one alike |
| `Base64.Decode` | core/include/wininspect/base64.hpp:12-32 | The loop computes the whole bytes in the symbols before the first byte outside the alphabet, with either accumulator |
| `Base64.EncodingLength` | core/include/wininspect/base64.hpp:34-52 | Four symbols per started group of three bytes |
| `Base64.RoundTrip` | core/include/wininspect/base64.hpp:12-52 | Decoding the encoding of any bytes gives them back |
| `Base64.DecodingStops` | core/include/wininspect/base64.hpp:21-23 | Decoding stops at the first byte that is no symbol |
| `Base64.SymbolValueIff` | core/include/wininspect/base64.hpp:16-18 | A byte has value v if and only if it is symbol number v |
| `Base64.Shifted` | core/include/wininspect/base64.hpp:24-40 | A wrapped shift keeps the bits still to be written, and the value added to it cannot overflow |
| `Base64.GroupIsOneNumber` | core/include/wininspect/base64.hpp:39-46 | Three bytes and their four symbols' values are the same 24-bit number, highest bits first |
| `Base64.SymbolIs` | core/include/wininspect/base64.hpp:35-36 | The symbols are upper-case letters, lower-case letters, digits, plus and slash, in this order |
| `Framing.Writer.WriteAll` | daemon/src/pipe_win32.cpp:24-36 | Under any schedule of partial writes: everything, or a prefix when a transfer fails or moves nothing, and success says which; success is certain when every transfer moves something |
| `Framing.Writer.WriteMessage` | daemon/src/pipe_win32.cpp:51-57 | A 32-bit length, lowest byte first, and that many bytes of the message |
| `Framing.LowDigit` | daemon/src/pipe_win32.cpp:53-54 | Byte number i of the length is its digit number i in base 256 |
| `Framing.Reader.ReadAll` | daemon/src/pipe_win32.cpp:10-22 | Under any schedule of partial reads: exactly the next n bytes, or failure; success is certain when there are n and every transfer moves something |
| `Framing.Reader.ReadMessage` | daemon/src/pipe_win32.cpp:38-49 | The first message of the stream, and nothing behind it is consumed |
| `Framing.Reader.ReadMessages` | daemon/src/pipe_win32.cpp:38-49 | Repeated reads return the messages of the stream in order; only a stopped transfer ends them early |
| `Framing.MessagesOfFrames` | daemon/src/pipe_win32.cpp:38-57 | The messages in a stream of frames are those written, each cut to its 32-bit length |
| `Framing.FramesRoundTripIff` | daemon/src/pipe_win32.cpp:53 | Exactly the messages written come back if and only if each is shorter than 2^32 bytes |
| `Framing.DeliveredInOrder` | daemon/src/pipe_win32.cpp:10-57 | Whatever part of the frames has arrived, the complete messages in it are the first ones written |
| `Framing.Converse` | daemon/src/pipe_win32.cpp:10-57 | A sender and a receiver under any schedule: what is read is a prefix of what was written, and all of it when every transfer moves at least one byte |

## Left out

- The Win32, COM, UI Automation, registry, service, clipboard, graphics and process calls of core/src/win32_backend.cpp. A capture is an arbitrary list of handles.
- core/src/crypto.cpp, the TCP handshake and encrypted transport, and authentication. A request refused before it is handled is the step Reject, which can always happen.
- Sockets, accept loops, the connection limit, the tray, the GUI, the command line, the Go client and the scripts.
- The clock. A time is an arbitrary integer passed to the steps that read it.
- Metrics, logs, response ids and the canonical flag.
- Read-only mode. A denied request is the step Deny, which any request other than the modelled methods can take.
- All dispatch handlers but listTop, events.poll, getTree's conversion and the two ensure methods. For the other ones a run of the fake backend records the events they inject, and a run of the daemon any outcome.
- An exception thrown by a capture itself. Captures succeed.
- The long wait of events.poll. The two snapshots do not change while it waits, so it only delays the answer.
- FakeBackend::poll_events, which returns no events. The daemon's polls use the Windows backend's comparison.
- The 32-bit range of pin counts. They are unbounded integers.
- Runs that issue more than 2^64 ids. The theorems about ids hold up to there, and Ids.IdReuse says what happens beyond.
- A capture whose eviction loop does not end. It has no step; the handler holds the mutex forever in the source.
- Double-precision rounding, overflow, NaN and negative zero. Numbers are exact reals, and printing rounds half to even at six decimals.
- Recursion depth of the parser and of the printers.
- The socket loops of daemon/src/tcp_server.cpp:38-60, which repeat those of the pipe with a signed length.
- Handles.ParseHandleIff: covers text that is the prefix followed by hexadecimal digits only. What stream extraction makes of other text is an arbitrary function (`quirks`) in the dispatch theorems.
