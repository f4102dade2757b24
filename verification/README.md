# Brood, modelled and proved in Dafny

Brood is a Lisp with Erlang-style processes. This project models the parts of it in which the
hard invariants live, and proves what they promise:

- **the distribution layer**: which physical link to a peer is THE link (`Links`, `CrossingDials`),
  by the order of names (`NodeNames`); what happens to monitors and process links while links drop,
  restart and are evicted (`Couplings`, `Severing`), what each notice had for a cause (`Causes`), which
  are left over (`LeftOvers`) and that it comes to an end (`Cleanup`); the name table, its lock protocol
  and what a call on it has done when it returns (`NameTable`, `NameProtocol`, `NameCalls`); the writer
  queue with `send-latest` tickets, what it delivers, and the batching writer (`LatestQueue`,
  `LatestDelivery`, `LinkWriter`); dial claims and held gossip (`DialClaims`); the links of a whole
  cluster (`MeshLinks`), the mesh that gossip builds over them (`Mesh`), when it closes (`MeshClosure`,
  `MeshLoss`) and when it ends (`MeshEnd`, `MeshForever`); the handshake gate (`HandshakeGate`); the order
  of the process-wide locks (`LockOrder`) and how they are granted (`LockProgress`);
- **the release bundle**: UTF-8, the archive and the footer (`Utf8`, `Archive`, `Release`);
- **arithmetic, hashing and the check cache** of the command line (`CivilDate`, `Decimal`,
  `TreeHash`, `VerdictCache`);
- **two small state machines**: parameter lists and argument binding (`Params`, `Binding`), and the
  language server's delimiter closer (`Delimiters`, `Balanced`).

`dafny verify dfyconfig.toml` checks everything.

## How it is built

A table that the source changes in place is a class here (`LinkTable`, `Table`, `LinkQueue`,
`DialTables`, `Cursor`, `Scope`), and each of its methods states its whole new state as a function of
the old one. A protocol is a state machine: `Enabled` and `Apply` give its steps, one step for each
critical section or atomic access, and `IsRun` its runs. Both use the same functions
(`Links.Resolve`, `NameTable.Bind`, `LatestQueue.Claim`, `DialClaims.Claims` and so on), so that
what is proved of the runs is proved of what the methods do. A theorem about runs quantifies over all
of them: any number of threads, in any interleaving.

Code that works on values is a function, and a loop of the source is a method that is proved equal to
one. Where a promise has a converse it is proved too: the archive, the cache entry, the parameter
parser, the delimiter closer and the crossing dials each have an "exactly when".

Rust's wrapping and truncating integer operations are written out: casts to 32 and 64 bits, wrapping
multiplication, division that truncates toward zero. `usize` is 64 bits wide.

## What the proofs found

Where the code does something a reader of it or of its documentation would not expect, a lemma shows a
run or an input, and another states the exact condition.

- Two dials by the same node can cost both nodes every link: each end keeps the one it registered
  first and shuts the other's (`CrossingDials.TiedDialsCanLoseEveryLink`). Links converge exactly when
  one link has the smallest connector (`ConvergesExactlyWhenOneSmallest`).
- The mesh need not close under cross-dials (docs/distribution.md:440-443 says that it does). News of new
  peers is sent over one physical link and dies with it, and the link that replaces it is no news
  (`MeshLoss.GossipCanBeLost`). Closure holds in every run exactly when no node may make two links with
  each of two others (`ClosesExactlyWhenApart`).
- Gossip need not end if some thread is never run: while one end is put off from registering a link, it can
  dial in vain, tell another, and be told again (`MeshForever.GossipCanGoOn`). Every schedule that does not
  put an end off for ever comes to rest (`MeshEnd.GossipTerminates`).
- A process link can be left over when its node is gone (`Couplings.StrayLinkOutlivesItsNode`): exactly when
  the node's reader records it with nothing left to resolve it (`LeftOvers.LeftOverExactlyWhenStranded`).
  Monitors never are.
- Gossip that was drained and is held again can replace a newer address of the same peer by an older one
  (`DialClaims.OlderAddressCanWin`, `DrainedGossipReplacesNewer`). No name is ever lost.
- The written table of lock nestings (crates/lisp/src/process.rs:38-66) misses six
  (`LockOrder.TheTableMissesExactlySix`). Recording a cross-node link looks in the registry under
  `REMOTE_LINKS` (crates/lisp/src/process/links.rs:199-224), which the text says is taken alone. A remote
  monitor's message is delivered through a registry lookup under `PENDING_REMOTE`
  (crates/lisp/src/process/mailbox.rs:1423). A named spawn holds `NAMES` while it promotes code, reads the
  system monitors' table, delivers to mailboxes and locks a run queue
  (crates/lisp/src/process/scheduler/lifecycle.rs:359-450, crates/lisp/src/process/scheduler/pool.rs:219-221).
  The order stays free of circles with all of them (`NoCircularWait`).
- A connection can be refused without a line, though the last line is an interval old or more
  (`HandshakeGate.SlowThreadHidesALine`): exactly when a thread loses the swap to one that had read the clock
  an interval or more before it (`EachShedIsSaidLately`).
- The branch of `spawn_or_get` for a name whose holder is dead is never taken
  (`NameProtocol.HoldersFoundAreAlive`).
- Stripping a release is idempotent exactly when the file does not end in two payloads
  (`Release.StripIsIdempotentExactly`). Releases never accumulate, for any base.
- A buffer cut off just after a backslash inside a string is not closed by closing it once
  (`Delimiters.ClosesExactlyUnlessEscaped`); closing it twice always is enough.

## Model

| member | source | states |
|---|---|---|
| `Links.LinkTable.RegisterLink` | crates/lisp/src/dist.rs:2065-2127 | a link is refused exactly when it takes a guest's name or its connector does not sort strictly before that of a link to the same life of the peer, and then nothing changes; a restart always wins and is one node-down; replacing a link to the same life fires none, shuts the loser and severs its couplings |
| `Links.LinkTable.DropLink` | crates/lisp/src/dist.rs:2450-2458 | a reader's end removes the entry, its dial routes and fires exactly one node-down if its generation is still registered, and changes nothing otherwise |
| `Links.LinkTable.RemoveCurrentLink` | crates/lisp/src/dist.rs:2460-2470 | only the registered generation is removed |
| `Links.LinkTable.Disconnect` | crates/lisp/src/dist.rs:1156-1172 | the registered link is removed, shut and told of once; false and no change without one |
| `Links.LinkTable.RetirePreviousIncarnation` | crates/lisp/src/dist.rs:2480-2490 | the old life's link is shut, its routes forgotten, and one node-down fired |
| `Links.LinkTable.ForgetDialRoutes` | crates/lisp/src/dist.rs:1911-1915 | exactly the routes to the peer go |
| `Links.LinkTable.LinkedPeerFor` | crates/lisp/src/dist.rs:1891-1909 | answers from a registered full link with the claimed name, else a remembered route, else the advertised address; `None` exactly when no link qualifies |
| `NodeNames.BeforeIsLexicographic` | crates/lisp/src/dist.rs:2085-2127 | the order of connectors is that of strings: a proper prefix first, else the smaller character where they first differ |
| `NodeNames.GuestNamesArePrefixed` | crates/lisp/src/dist/guest.rs:80-82 | the names kept for guests are those with the prefix |
| `CrossingDials.SmallestSurvives` | crates/lisp/src/dist.rs:1992-2127 | for any set of dials with one smallest connector, every order of registration and every timing of shutdowns and EOFs: that link is never shut, and a quiet state has both ends on it alone |
| `CrossingDials.CrossingDialsConverge` | crates/lisp/src/dist.rs:2065-2127 | one dial each way ends, once quiet, with both ends on the link dialed by the smaller name |
| `CrossingDials.ConvergesExactlyWhenOneSmallest` | crates/lisp/src/dist.rs:2065-2127 | the ends agree in every run if and only if exactly one link has the smallest connector |
| `CrossingDials.TiedDialsCanLoseEveryLink` | crates/lisp/src/dist.rs:2085-2127 | two dials by the smallest-named node have a run that leaves both ends with no link |
| `CrossingDials.StepsUseUpWork` | crates/lisp/src/dist.rs:2448-2470 | every step lowers a measure, so every run goes quiet |
| `CrossingDials.BusyCanStep` | crates/lisp/src/dist.rs:2448-2470 | a state that is not quiet has a step |
| `Couplings.NodedownsMatchJoins` | crates/lisp/src/dist.rs:2065-2127 | in every reachable state without a teardown of the peer under way, its joins minus its node-downs is 1 if it is registered and 0 otherwise |
| `Couplings.StaleReaderChangesNothing` | crates/lisp/src/dist.rs:2448-2470 | in every run, the late end of a link that was replaced, dropped or turned away leaves the state as it is |
| `Couplings.OneNodedownPerDeparture` | crates/lisp/src/dist.rs:2085-2127 | in every run, node-downs delivered and under way are as many as the peer's restarts and lost links: one for each, none for a replacement of a link to the same life |
| `Causes.MonitorFiresAtMostOnce` | crates/lisp/src/dist.rs:883-910 | over every interleaving a monitor is told of once if and only if a step resolved it (the peer's DOWN, a sweep, its own fallback), never both that and called off, and one a process recorded is pending, resolved or called off |
| `Causes.OneNoticePerReference` | crates/lisp/src/process/monitor.rs:425-528 | two notices under one reference are one and the same |
| `Causes.LinkExitsAreEarned` | crates/lisp/src/dist.rs:973-999 | every time a process link was made it is pending, called off or resolved, and each resolution is one exit, told or on its way |
| `Causes.EverythingHasItsStep` | crates/lisp/src/dist.rs:883-999 | in every run the couplings called off are the cancels that found them pending, those made the records that did not, and those told or claimed the steps that resolve them |
| `Causes.SweepsAreEarned` | crates/lisp/src/dist.rs:2492-2511 | in every run the sweeps of a node, done and to be done, are as many as its node-downs and the links to it that were replaced |
| `Causes.FallbackHasItsReason` | crates/lisp/src/dist.rs:883-910 | a setup falls back only after it found no link registered for its node, or was refused by the queue of the one it found |
| `Causes.EveryLinkIsDecided` | crates/lisp/src/dist.rs:2065-2127 | a link that is no longer to be registered won (there was none, or one to the same life that a later name dialed) or lost to one to the same life that no later name dialed |
| `LeftOvers.LeftOverExactlyWhenStranded` | crates/lisp/src/dist.rs:834-910 | once a node has no link and no setup, teardown or sweep is under way for it, a coupling to it is pending if and only if its reader recorded it when nothing attended to it, and nothing has relieved it since |
| `LeftOvers.NothingOrphaned` | crates/lisp/src/dist.rs:2450-2511 | a run in which each request for a link is read while somebody attends to it leaves none pending |
| `Severing.MonitorIsOnTheRegisteredLink` | crates/lisp/src/dist.rs:2117-2126 | in every run a pending monitor whose setup is done has its request queued on the link registered now, or its node has a teardown or sweep under way |
| `Severing.LeavingLinkIsSwept` | crates/lisp/src/dist.rs:2117-2126 | a registered link that stops being registered leaves a teardown or, when it is evicted, a sweep |
| `LeftOvers.MonitorOfGoneNodeIsTold` | crates/lisp/src/dist.rs:883-910 | once a node is gone and quiet, every monitor of it that a process recorded was told of exactly once if no cancel found it pending, and never if one did |
| `Couplings.StrayLinkOutlivesItsNode` | crates/lisp/src/dist.rs:2305-2313 | a run in which a process link is left over |
| `Cleanup.FinishingUsesUpWork` | crates/lisp/src/dist.rs:2065-2127 | every step by which a thread finishes a registration, a node-down, a sweep or a setup lowers a measure |
| `Cleanup.FinishingEnds` | crates/lisp/src/dist.rs:2492-2511 | in every run, no more finishing steps follow each other than the measure at their start |
| `Cleanup.UnquietCanFinish` | crates/lisp/src/dist.rs:883-910 | a node that is gone and not quiet leaves some thread a finishing step |
| `Cleanup.FinishedIsTold` | crates/lisp/src/dist.rs:883-910 | where nothing is left to finish, each recorded monitor of a node without a link was told of exactly once if no cancel found it pending |
| `Cleanup.FinishedLinksAreTold` | crates/lisp/src/dist.rs:2492-2511 | and each process link was told of as often as it was made, but for cancels and a stranded entry |
| `NameTable.BindIsExact` | crates/lisp/src/dist.rs:531-539 | binding keeps the indexes inverse, moves the name to the pid as its newest, and changes no other binding |
| `NameTable.UnbindIsExact` | crates/lisp/src/dist.rs:541-546 | unbinding keeps the indexes inverse and drops that name alone |
| `NameTable.UnbindPidIsExact` | crates/lisp/src/dist.rs:548-552 | unbinding a pid drops exactly its names |
| `NameTable.Table.Rebind` | crates/lisp/src/dist.rs:531-539 | the table's two maps are updated as `Bind` says |
| `NameTable.Table.Release` | crates/lisp/src/dist.rs:541-546 | the table's two maps are updated as `Unbind` says, and the old holder is returned |
| `NameTable.Table.ReleasePid` | crates/lisp/src/dist.rs:548-552 | the loop over a pid's names leaves the table as `UnbindPid` says |
| `NameTable.Table.ForgetNameOf` | crates/lisp/src/dist.rs:566-574 | the name leaves the pid's list, and an emptied list leaves the index |
| `NameTable.Table.HoldsAny` | crates/lisp/src/dist.rs:554-557 | true exactly when some name is bound to the pid |
| `NameTable.Table.FirstNameOf` | crates/lisp/src/dist.rs:559-564 | the longest-bound name, and `None` exactly when there is none |
| `NameTable.Retain` | crates/lisp/src/dist.rs:566-574 | the filter removes the name and keeps the order |
| `NameProtocol.NamesNeverPointAtTheDead` | crates/lisp/src/dist.rs:717-795 | in every reachable state, also inside a critical section, the indexes are exact inverses and every bound pid is in the registry |
| `NameProtocol.TheDeadStayNameless` | crates/lisp/src/dist.rs:766-795 | a retired pid holds no name then or ever after |
| `NameProtocol.NamedSpawnsAgree` | crates/lisp/src/dist.rs:816-832 | two named spawns of a name answer with one live pid unless in between the name was rebound, released or its holder died |
| `NameProtocol.HoldersFoundAreAlive` | crates/lisp/src/dist.rs:816-832 | a holder a named spawn finds is alive |
| `NameCalls.CallsTakeEffect` | crates/lisp/src/dist.rs:717-832 | when a call leaves, whatever other threads did since it was granted the lock: `register` has bound a live pid and nothing else, a named spawn has answered with the live holder or bound a new process, `unregister` has freed the name, a sweep has dropped the pid and exactly its names |
| `NameCalls.RetiredIsGone` | crates/lisp/src/dist.rs:766-795 | a retirement leaves, under the read lock or the write lock, with the pid gone from the registry and no name bound to it |
| `NameCalls.SpawnAnswers` | crates/lisp/src/dist.rs:816-832 | a named spawn comes back without a process only if creating one failed |
| `NameCalls.FailedSpawnLeavesNothing` | crates/lisp/src/dist.rs:812-832 | a spawn that fails leaves no process, and the names as they were |
| `NameCalls.NamelessRetiresUnderReadLock` | crates/lisp/src/dist.rs:758-779 | a process that holds no name retires under the read lock alone |
| `NameCalls.OwnStepsUseUpWork` | crates/lisp/src/dist.rs:717-832 | each step of a call brings it nearer to its end and leaves other calls where they are |
| `NameCalls.SomeCallGoesOn` | crates/lisp/src/dist.rs:717-832 | while any call is under way some thread can take, use or leave the lock |
| `LatestQueue.LinkQueue.TrySend` | crates/lisp/src/dist.rs:378-386 | an item is queued, or the link severed, by whether the queue is full or its writer gone |
| `LatestQueue.LinkQueue.EnqueueLatest` | crates/lisp/src/dist.rs:423-440 | the payload becomes its slot's newest and a ticket of its generation is queued |
| `LatestQueue.LinkQueue.ClaimOutbound` | crates/lisp/src/dist.rs:444-457 | a ticket is worth the payload exactly while it is its slot's newest, and empties the slot |
| `LatestQueue.WrittenInQueueOrder` | crates/lisp/src/dist.rs:402-457 | in every run each thing written is what one queued item is worth, in queue order, and every plain frame taken is written |
| `LatestQueue.WrittenOncePerInsertion` | crates/lisp/src/dist.rs:402-457 | what is written of a slot follows its insertions in order, none twice |
| `LatestQueue.DrainedSlotsEmpty` | crates/lisp/src/dist.rs:402-457 | after a full drain the slot table is empty |
| `LatestQueue.LastOfEachSlotWritten` | crates/lisp/src/dist.rs:402-457 | after a full drain the last payload put into each slot was written |
| `LatestDelivery.LatestIsWrittenOrReplaced` | crates/lisp/src/dist.rs:402-457 | after a full drain the payload of every `send-latest` ever begun was put into its slot, and written or replaced by a later one there |
| `LatestDelivery.FramesAreWritten` | crates/lisp/src/dist.rs:378-386 | every plain frame is written, in its place, once the writer has come to it |
| `LatestDelivery.QueueIsBounded` | crates/lisp/src/dist.rs:378-440 | in every state at most as many items wait as the queue holds, and no ticket is queued twice |
| `LatestDelivery.SomebodyCanGoOn` | crates/lisp/src/dist.rs:378-457 | below the bound every sender can take its next step, at the bound the writer can |
| `LinkWriter.WriteLink` | crates/lisp/src/dist.rs:2134-2187 | batching puts on the wire what one write per frame would, with the same nonces; a refused seal or failed write leaves a prefix and closes the link |
| `LinkWriter.FillBatch` | crates/lisp/src/dist.rs:2147-2185 | a batch is exactly the frames it used up, sealed in order, up to the first that will not seal |
| `LockOrder.NoCircularWait` | crates/lisp/src/process.rs:38-66 | in no reachable state is there a circle of threads, however long, each held up by the next, queues of reader-writer locks included |
| `LockOrder.SomeoneCanMove` | crates/lisp/src/process.rs:38-66 | while anyone waits, some waiting thread is held up only by running threads, or by none |
| `LockProgress.RequestsAreGranted` | crates/lisp/src/process.rs:38-66 | a request waits, whatever others do, until it is granted, and then its thread holds the lock in the mode asked for, and all it held before |
| `LockProgress.GrantedInOrder` | crates/lisp/src/process.rs:38-66 | of two requests for a lock the later is not granted while the earlier waits, unless both are for reading |
| `LockProgress.WritersAreAlone` | crates/lisp/src/process.rs:38-66 | a lock held for writing has one holder |
| `LockProgress.RequestsEnd` | crates/lisp/src/process.rs:38-66 | without further requests no run is longer than the requests and locks there are |
| `LockProgress.WorkCanBeDone` | crates/lisp/src/process.rs:38-66 | while anyone waits for a lock or holds one, a request can be granted or a running thread can release |
| `LockOrder.NestingGoesInwards` | crates/lisp/src/process.rs:38-66 | every nesting goes strictly deeper in one order |
| `LockOrder.FunctionsFollowTheOrder` | crates/lisp/src/dist.rs:717-832 | the nestings of ten functions of the layer are among those the threads take |
| `LockOrder.KeepsToTheTableExactly` | crates/lisp/src/dist.rs:816-832 | a function keeps to the table as written if and only if it is none of `spawn_or_get`, `monitor_remote`, `link_remote` and `disconnect` |
| `LockOrder.TheTableMissesExactlySix` | crates/lisp/src/process.rs:38-66 | a nesting is taken and not listed if and only if it is one of six |
| `DialClaims.ClaimsAreNew` | crates/lisp/src/dist.rs:2392-2446 | a gossip list claims a name, once, if and only if it is another node's and no guest's, has no link and no claim, and the list has an address for it |
| `DialClaims.DialTables.End` | crates/lisp/src/dist.rs:652-667 | the last program dial to end takes all held gossip with it, an earlier one none |
| `DialClaims.DialTables.TryClaim` | crates/lisp/src/dist.rs:604-616 | claims the name exactly when it was free |
| `DialClaims.DialTables.HoldBack` | crates/lisp/src/dist.rs:2392-2402 | gossip is held, later over earlier, exactly while a program dials |
| `DialClaims.DialTables.ClaimGossip` | crates/lisp/src/dist.rs:2403-2425 | the loop claims what `Claims` says and no more |
| `DialClaims.EveryClaimHasOneOwner` | crates/lisp/src/dist.rs:586-667 | in every reachable state a name is claimed if and only if a thread owns the claim, and then exactly one does, failed thread starts included |
| `DialClaims.DialsOverlapOnlyPastTheCeiling` | crates/lisp/src/dist.rs:594-617 | two dials of one name overlap only if one waited out the ceiling |
| `DialClaims.NoGossipLost` | crates/lisp/src/dist.rs:2392-2446 | once nothing is held or being looked at, each entry that arrived was taken up after its arrival, or else the entry that stood for it at that time was: one put over the held entry that stood for it before |
| `DialClaims.StandInsShareTheName` | crates/lisp/src/dist.rs:628-667 | whoever stands for an entry is an entry for the same name |
| `DialClaims.HeldOnlyWhileDialing` | crates/lisp/src/dist.rs:628-667 | held gossip means that a program is dialing |
| `DialClaims.OwnStepsUseUpWork` | crates/lisp/src/dist.rs:596-667 | each step brings its dial or its list to a later phase, or leaves it fewer dials to start |
| `DialClaims.ThreadsGoOn` | crates/lisp/src/dist.rs:596-667 | every thread with something left to do can do it now, but for a program dial whose peer is being dialed, and that one once it has waited out the ceiling |
| `DialClaims.NewGossipReplacesOlder` | crates/lisp/src/dist.rs:2392-2402 | no step but re-holding drained gossip replaces a held entry by an older one |
| `DialClaims.DrainedGossipReplacesNewer` | crates/lisp/src/dist.rs:652-667 | re-holding does so exactly when a newer entry for one of its names had come to be held |
| `DialClaims.OlderAddressCanWin` | crates/lisp/src/dist.rs:652-667 | a run in which that happens |
| `MeshLinks.JoinedIsRegistered` | crates/lisp/src/dist.rs:2065-2127 | among any number of nodes and dials, once every end has decided, two nodes that ever made a link have registered one and the same, the one that stands |
| `MeshLinks.DecideKeepsInv` | crates/lisp/src/dist.rs:2085-2127 | registering, in any order at the two ends, keeps the link that stands unshut, and registered wherever it was decided on |
| `Mesh.NothingPassesWhileDialing` | crates/lisp/src/dist.rs:2392-2402 | while a program's dial is counted at a node, no list gets past the check there |
| `MeshClosure.MeshIsClosed` | crates/lisp/src/dist.rs:2339-2446 | in a quiet reachable state in which no node made two links with each of two others, nodes joined by a chain of links have a link of their own, the same at both ends |
| `MeshClosure.IntroductionsFailOnlyTwice` | crates/lisp/src/dist.rs:2339-2386 | in a quiet state two peers of a node are linked, or the node made two links with each of them |
| `MeshLoss.GossipCanBeLost` | crates/lisp/src/dist.rs:2117-2124 | for any three nodes, however their names sort, a run ends with two of them linked to the third and never to each other: the news was on links that lost |
| `MeshLoss.ClosesExactlyWhenApart` | crates/lisp/src/dist.rs:2339-2446 | every run in which only given pairs make more than one link closes, if and only if no node is in two of those pairs |
| `MeshEnd.GossipTerminates` | crates/lisp/src/dist.rs:2339-2446 | a schedule of gossip and finitely many program dials that goes on for ever puts some end off for ever from registering a link it has greeted over |
| `MeshForever.GossipCanGoOn` | crates/lisp/src/dist.rs:2448-2470 | and such a schedule exists, for any three nodes |
| `MeshEnd.NothingGetsStuck` | crates/lisp/src/dist.rs:2339-2446 | a reachable state that is not quiet has a step |
| `MeshClosure.DialsEndInLinks` | crates/lisp/src/dist.rs:1992-2057 | a dial begun is, in a quiet state, a link at both ends |
| `HandshakeGate.GateHolds` | crates/lisp/src/dist.rs:1604-1633 | under any interleaving of the atomic steps the slots held stay within the cap, and the counter is slots held plus losers about to roll back |
| `HandshakeGate.AdmitsBelowTheCap` | crates/lisp/src/dist.rs:1604-1633 | a connection is taken if and only if slots held and losers still to roll back are fewer than the cap |
| `HandshakeGate.NobodyWaits` | crates/lisp/src/dist.rs:1582-1633 | every thread in the gate can take its next step at once, and each brings it nearer to leaving |
| `HandshakeGate.EveryShedCounted` | crates/lisp/src/dist.rs:1582-1602 | every refused connection is counted |
| `HandshakeGate.WarningsAreSpaced` | crates/lisp/src/dist.rs:1582-1602 | printed warnings carry stamps an interval apart for each step between them |
| `HandshakeGate.ShedsAreTold` | crates/lisp/src/dist.rs:1570-1602 | once a shed is counted and no thread is still on its way to warn, a line was printed |
| `HandshakeGate.EachShedIsSaidLately` | crates/lisp/src/dist.rs:1582-1602 | when a thread that shed a connection is done, the last line printed is less than an interval older than its own look at the clock, if and only if it was not the case that lines were printed between its look at the stamp and its swap, all by threads that had read the clock an interval or more before it |
| `HandshakeGate.SlowThreadHidesALine` | crates/lisp/src/dist.rs:1582-1602 | a run in which that happens: the second of two sheds, a minute after the first, prints nothing |
| `HandshakeGate.LinesReportTheCount` | crates/lisp/src/dist.rs:1582-1602 | a line carries its thread's look at the clock and the number of sheds counted up to its own |
| `Utf8.DecodeInvertsEncode` | crates/lisp/src/bundle.rs:163-177 | every string survives encoding |
| `Utf8.EncodeInvertsDecode` | crates/lisp/src/bundle.rs:163-177 | bytes that decode are the encoding of what they decode to, so decoding is strict |
| `Archive.Serialize` | crates/lisp/src/bundle.rs:114-134 | the appended buffer is the format's bytes for the bundle |
| `Archive.PutLp` | crates/lisp/src/bundle.rs:131-134 | a 32-bit little-endian length, then the bytes |
| `Archive.Cursor.NextU32` | crates/lisp/src/bundle.rs:145-150 | the next four bytes as a number, or no move |
| `Archive.Cursor.NextLp` | crates/lisp/src/bundle.rs:153-159 | the next length-prefixed run, or nothing past the end |
| `Archive.ParseArchive` | crates/lisp/src/bundle.rs:163-197 | the cursor loop computes `Parsed` |
| `Archive.RoundTripExactlyWhenFits` | crates/lisp/src/bundle.rs:112-197 | parsing a serialized bundle returns it if and only if every length fits its field |
| `Archive.ParsesExactlyTheSerialized` | crates/lisp/src/bundle.rs:163-197 | bytes parse as a bundle if and only if they are its serialization and its lengths fit: the encoding is canonical |
| `Release.WriteRelease` | crates/lisp/src/bundle.rs:372-379 | the buffer is the stripped base, the archive and its footer |
| `Release.StripUndoesAppend` | crates/lisp/src/bundle.rs:224-240 | the footer points at the archive and stripping gives back the front, if and only if a word can measure the archive |
| `Release.StripOfReleased` | crates/lisp/src/bundle.rs:363-379 | stripping a release of any base gives the stripped base, if and only if a word can measure the archive |
| `Release.ReleasesDoNotAccumulate` | crates/lisp/src/bundle.rs:363-379 | releasing any number of times gives the bytes of the last release alone |
| `Release.StripIsIdempotentExactly` | crates/lisp/src/bundle.rs:363-368 | stripping twice is stripping once if and only if the file does not end in two payloads |
| `Release.ReleaseStripsCleanExactly` | crates/lisp/src/bundle.rs:363-379 | a release of a base strips to a plain binary if and only if the base does not end in two payloads |
| `Release.TwoPayloadsStack` | crates/lisp/src/bundle.rs:224-240 | two payloads appended by hand, over any front and with any archives, are such a file |
| `Release.ReadBundle` | crates/lisp/src/bundle.rs:250-307 | the seeking reader, with its two reads that may fail, computes `ReadOf` |
| `Release.ParseBytes` | crates/lisp/src/bundle.rs:324-328 | the slice reader computes `ParseOf` |
| `Release.ReadersAgree` | crates/lisp/src/bundle.rs:250-328 | on a readable file the seeking reader mounts exactly what the slice reader finds |
| `Release.PlainExactlyWithoutMagic` | crates/lisp/src/bundle.rs:242-307 | any file, with either of its reads failing, counts as plain if and only if its foot cannot be read or has no magic, is mounted if and only if the slice reader finds a bundle in it and its archive reads, and is corrupt otherwise |
| `Release.EachFaultIsNamed` | crates/lisp/src/bundle.rs:270-307 | after the magic each fault is an error of its own: the version first, then the length, then reading and parsing the archive |
| `Release.MagicMeansFooted` | crates/lisp/src/bundle.rs:212-220 | a file ends in the magic if and only if its last 20 bytes are the magic, a version and a length |
| `Release.ReadsExactlyWhatItCarries` | crates/lisp/src/bundle.rs:212-328 | a file reads as a bundle if and only if it ends in that bundle's archive and footer |
| `Release.ReleaseRunsItsBundle` | crates/lisp/src/bundle.rs:250-379 | a release of any base mounts its bundle if and only if the bundle's lengths fit |
| `CivilDate.IntermediateRanges` | crates/lisp/src/cli_support.rs:39-46 | every range the comments state holds for every integer day number |
| `CivilDate.CivilIsValid` | crates/lisp/src/cli_support.rs:38-47 | every day number gives a valid Gregorian date whose day number it is |
| `CivilDate.CivilReachesEveryDate` | crates/lisp/src/cli_support.rs:38-47 | every valid date is given by its day number |
| `CivilDate.CivilIsTheCalendar` | crates/lisp/src/cli_support.rs:38-47 | day 0 is 1970-01-01 and each number gives the day after the one before, by the leap-year rule and the month lengths |
| `CivilDate.CivilIsDaysFromEpoch` | crates/lisp/src/cli_support.rs:38-47 | the date is as many days from 1970-01-01 as the number says, before or after |
| `CivilDate.CivilKeepsOrder` | crates/lisp/src/cli_support.rs:38-47 | dates compare as day numbers do, and no two share a date |
| `CivilDate.StampIsTheSecond` | crates/lisp/src/cli_support.rs:34-47 | date and time of day are in range and add up to the second |
| `CivilDate.TextShowsTheStamp` | crates/lisp/src/cli_support.rs:48-49 | year, month, day, hour, minute and second are read back from their places in the text |
| `CivilDate.TextNamesItsSecond` | crates/lisp/src/cli_support.rs:33-49 | two entries carry the same text exactly when they are of the same second |
| `CivilDate.TextShowsItsSecond` | crates/lisp/src/cli_support.rs:33-49 | the text of an entry shows its own second: so many days after 1970-01-01, and the rest of the day in hours, minutes and seconds |
| `TreeHash.MixChunk` | crates/lisp/build.rs:123-136 | the word loop and the tail loop fold the length, the words and the tail bytes in |
| `TreeHash.ChunkPermutesStates` | crates/lisp/src/cli_support.rs:722-735 | mixing a fixed chunk in has a two-sided inverse on the 64-bit states |
| `TreeHash.HashFiles` | crates/lisp/build.rs:55-67 | the loop computes the tree hash |
| `TreeHash.RuntimeMixChunk` | crates/lisp/src/cli_support.rs:722-735 | the run-time copy of the chunk loop computes the same fold as the build script's |
| `TreeHash.StdlibTreeHash` | crates/lisp/src/cli_support.rs:676-706 | the run-time copy of the tree loop, which calls its own chunk loop, gives the hash of the build script's, and none for no files |
| `TreeHash.OneChangeShows` | crates/lisp/src/cli_support.rs:676-735 | trees of the same files and lengths that differ in one word or one tail byte of one file, or of its path, never hash alike |
| `TreeHash.SecondChangeCanCancel` | crates/lisp/build.rs:123-136 | one change is the limit: after it there is exactly one next word that restores the hash |
| `VerdictCache.EscapeHasNoNewline` | crates/lisp/src/cli_support.rs:1095-1097 | an escaped message stays on its line |
| `VerdictCache.UnescapeInverts` | crates/lisp/src/cli_support.rs:1095-1114 | unescaping inverts escaping on every string |
| `VerdictCache.Unescape` | crates/lisp/src/cli_support.rs:1099-1114 | the character loop computes `Unescaped` |
| `VerdictCache.WriteEntry` | crates/lisp/src/cli_support.rs:906-921 | the pushed text is the entry's lines |
| `VerdictCache.ReadEntry` | crates/lisp/src/cli_support.rs:834-868 | the line loop computes `Read`, misses included |
| `VerdictCache.ReadsExactlyEntries` | crates/lisp/src/cli_support.rs:834-868 | any text at all reads as an entry if and only if it is the magic, a line of modules and one line for each warning, with a dash or two 32-bit numbers before the message; every other text is a miss |
| `VerdictCache.WhatIsRead` | crates/lisp/src/cli_support.rs:834-868 | what a written entry comes back as when module names hold no tab and no newline: the last name and each message without a final CR, and no empty names |
| `VerdictCache.RoundTripExactlyWhenSurvives` | crates/lisp/src/cli_support.rs:834-921 | a written entry is read back if and only if module names are non-empty without tab or newline, the last does not end in CR, and no message does |
| `Params.ParseParams` | crates/lisp/src/eval.rs:1473-1545 | the index loop computes `Parsed`, with the first error |
| `Params.ParsesExactlyWhatDenotes` | crates/lisp/src/eval.rs:1473-1545 | a list parses as a specification if and only if it is its required names, an optional `&optional` group and an optional `& rest` |
| `Params.PrintParsesExactlyWhenPlain` | crates/lisp/src/eval.rs:1473-1545 | parsing inverts printing if and only if no required name starts with `&` |
| `Binding.SelectArm` | crates/lisp/src/core/value.rs:1362-1372 | the first clause that takes the count, and none exactly when no clause does |
| `Binding.BindParams` | crates/lisp/src/eval.rs:567-622 | an arity error exactly when no clause takes the count; else a fresh frame of the first such clause's definitions, with the owed defaults |
| `Binding.BodySeesArguments` | crates/lisp/src/eval.rs:595-622 | with distinct names, required values, supplied optionals and the rest list are the argument list in order, and a default is owed only if nothing is left over |
| `Binding.SeenExactlyWhenDistinct` | crates/lisp/src/eval.rs:595-622 | that holds in every accepted call if and only if the names are distinct |
| `Binding.AcceptedExactlyWhenAllSeen` | crates/lisp/src/core/value.rs:1362-1372 | with distinct names a clause takes a call if and only if the call reaches its required names and the body sees every argument |
| `Binding.BoundThenOwed` | crates/lisp/src/eval.rs:595-622 | the names bound are a prefix of the parameter list, and the rest of the list is what is owed |
| `Delimiters.CloseOpenDelimiters` | crates/lsp/src/completion.rs:392-448 | the scan and the pops append `Closers` |
| `Delimiters.ClosesExactlyUnlessEscaped` | crates/lsp/src/completion.rs:392-448 | the result extends the source, and rescanning it ends in code with nothing open if and only if the source does not stop after a backslash in a string |
| `Delimiters.ClosingAgainAddsNothing` | crates/lsp/src/completion.rs:441-448 | a second application adds nothing under the same condition, a third never does |
| `Delimiters.NoShorterCompletion` | crates/lsp/src/completion.rs:441-448 | no shorter text closes the source |
| `Delimiters.ReadableExactly` | crates/lsp/src/completion.rs:384-391 | the result is balanced for a strict reader if and only if the source has no closer out of place and does not stop after a backslash in a string |
| `Balanced.AcceptsExactlyPrinted` | crates/lsp/src/completion.rs:384-391 | a text is balanced for a strict reader if and only if it is built of plain characters, strings, comments and bracketed groups |
| `Balanced.ClosesExactlyBeginnings` | crates/lsp/src/completion.rs:392-448 | the result is such a text if and only if the source is the beginning of one and does not stop after a backslash in a string |
| `Delimiters.OnlyShortestCompletion` | crates/lsp/src/completion.rs:441-448 | no other text of that length or less makes the source balanced |

## Left out

- Sockets, timeouts, operating-system threads, the handshake's messages, sealing and authentication: a socket is open or shut, sealing is any function of nonce and payload that may refuse.
- Guest links beyond their names: frame filtering, pid translation and grants (`dist::guest`).
- Wire encoding of frames, heartbeats and the routing of ordinary messages.
- Links.LinkTable.RegisterLink: one call on its own; what other threads do between a retirement and the retry is in `Couplings`, where the retry is a new step that sees whatever the table then holds.
- Couplings: whether the local process of a recorded link is alive is not modelled, so a record that the code refuses for a dead process is one the model may make; the laws hold with it.
- LatestQueue: the theorems over runs are about a link whose writer runs and that is never severed; `TrySend` says when a link is.
- LinkWriter.WriteLink: which items were queued when the writer looked is a parameter, and so is the write that fails; the claims are taken as made in queue order.
- Mesh: every dial succeeds, no link is lost except to a crossing one, no node restarts, none is a guest and addresses are distinct, as the closure claim assumes; a dial never goes ahead without its claim, which takes a wait past the ceiling. Nodes are numbered in the order of their names.
- LockOrder.FunctionsFollowTheOrder: the nestings of ten functions are transcribed by hand; the locks of the code region, which has an order of its own, are one class.
- The remaining process machinery: scheduler, mailboxes, timers, supervisors, the death path beyond the tables named above.
- Release.WriteRelease: the buffer only; the write beside the target, the rename and the file mode are file-system policy. `mount_bytes` and the mounted state are a cell set once around the readers.
- TreeHash.StdlibTreeHash: takes the sorted list of files; walking the tree, sorting paths and printing the hash in hexadecimal are not modelled.
- VerdictCache.WriteEntry: takes the modules to record; choosing them, the key of the entry, its path and the sweep of old entries are not modelled.
- Params.ParseParams: error kinds, not their texts; a range or a set in place of a list is a form with listed elements.
- Binding.BindParams: evaluating the owed defaults, the frame's module for contract shims and the elision of thin wrappers are not modelled.
- Delimiters.ReadableExactly: the strict reader is its discipline of delimiters, strings and comments; what else it refuses is not modelled.
- Heap, garbage collector, virtual machine, compiler, macro expander, reader, printer, type checker: outside the files modelled here.
- Boot images, environment variables, cache directories, argument dispatch, the other handlers of the language server: input and output policy, or easy members.
