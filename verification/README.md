# A verified model of the userland components

This project models, in Dafny, the parts of the userland repository with the most intricate behaviour, and proves what
they are for:

- **libnvavl** (`avl_*.dfy`): the iterative AVL tree with parent links, child bits and stored balances. The nodes are
  heap objects; a ghost tree says how they hang together, and every operation is stated on the in-order sequence.
- **linuxptp, best master selection** (`ptp_*.dfy`): data set comparison, the port state machines, foreign master
  records, the election over all ports and the state decision, up to whole runs of the clock's poll loop
  (sections 9.2.5, 9.3 and 9.5.3 of IEEE 1588-2008).
- **linuxptp, transparent clock** (`tc_*.dfy`): the bookkeeping of residence times over Sync, Follow_Up, Delay_Req and
  Delay_Resp messages in any interleaving (section 11.5 of IEEE 1588-2008).
- **linuxptp, message codec** (`msg_*.dfy`): conversion of packed messages between host and network order in place, and
  the TLV lists behind them (sections 13 and 14 of IEEE 1588-2008).
- **linuxptp, numeric code**: the moving median and average (`filter_*.dfy`), the priority queue (`pqueue.dfy`), the
  one-pass statistics (`stats.dfy`), the PI servo (`servo_pi.dfy`) and the regression servo (`regression.dfy`,
  `servo_linreg.dfy`).
- **ifupdown** (`expand*.dfy`): the expansion of command templates with variables and optional blocks.

`options.dfy` holds the one datatype all of them share. `dafny verify dfyconfig.toml` checks everything.

## How the models are laid out

Code that changes things in place is modelled by classes and methods, each proved against a specification function or
an abstract value; the laws are then lemmas about those. In `Avl.AvlTree` the abstract value is the ghost field `tree`;
`Sound` says that the links, child bits and balances of the reachable nodes are exactly those of that tree and that it is
balanced, so every method that ensures `Valid` restores all of them. In the PTP model a foreign master list is a
sequence of records and "best" an index into it. In the transparent clock the messages are objects shared by the queues
of several ports; each port carries the history `ops` of its queue, and its invariant says that the queue and what was
sent are what the history calls for. In the message model bytes are numbers, and the order of bytes in the host's memory
is a parameter. The expander's loop is proved by one invariant: `Resume`, what the rest of the work comes to, never
changes.

Where the code and a plausible reading of it disagree, the code is followed:

- The expander's test for `/p/r` looks four characters back from the closing percent sign of a variable even if that is
  before the variable, so `-/%ab%` does not find `ab` (`ExpandShow.SlashBefore`; `ExpandShow.PlainVariable` gives the
  exact condition).
- A template that has to drop a block before any text was written writes through a null pointer
  (`ExpandShow.BlockFirst`). The recursive predicate `Breaks` says, for every template, exactly when the expansion has no
  defined behaviour, and `Expansion.ParseCommand` proves it; for templates that start with text `ExpandShow.TextFirst`
  reduces it to wild variables.
- The default data set comparison is not transitive where two data sets describe one grandmaster differently and the
  better description came the worse way. `PtpBest.DiscordCircle` gives three such candidates of one port, from three
  other clocks; the election ends with one that another beats. `PtpDataset.HarmonyIsExact` gives the exact condition for
  transitivity, and `PtpClock.Clock.HandleStateDecision` that for the election. The comparison functions also need the
  sender of a data set to differ from its receiver (`PtpDataset.TravelledIsNecessary`); that is a statement about the
  functions alone, as a clock drops its own messages and every data set it compares meets the condition
  (`PtpPort.Port.CandidatesTravelled`).
- The sender converts the time stamps of only four message types, while the receiver reads six. A little-endian sender's
  Sync with one nanosecond is read as 2 to the power of 24 (`MsgRoundTrip.SyncMisread`); `MsgRoundTrip.RoundTrip` says
  exactly when a time stamp is read as it was written. That is a statement about the two functions alone: nothing in the
  repository sets the time stamp of a Sync or Announce it sends, and one of zero is symmetric and survives
  (`MsgRoundTrip.ZeroIsSymmetric`).

## Model

| member | source | states |
|---|---|---|
| `Avl.AvlTree.constructor` | components/libnvavl/avl.c:878-895 | a new tree is a valid empty tree with the given comparator |
| `Avl.AvlTree.Rotation` | components/libnvavl/avl.c:299-465 | both mirror directions, single and double: the subtree keeps its in-order sequence and its nodes, is balanced and linked to its parent again, and has lost a level exactly if the result says so, which is exactly if the heavy child was not balanced |
| `AvlRotation.LiftChild` | components/libnvavl/avl.c:316-376 | the single rotation: new subtree balanced, height as reported, nodes and order kept |
| `AvlRotation.LiftGrandchild` | components/libnvavl/avl.c:378-464 | the double rotation: new subtree balanced and one level shorter, nodes and order kept |
| `Avl.AvlTree.Insert` | components/libnvavl/avl.c:478-554 | inserting at a gap gives the old in-order sequence with the node at that gap, restores every balance, link and child bit, counts one more, and rotates at most once |
| `Avl.AvlTree.Remove` | components/libnvavl/avl.c:671-815 | removing any member gives the old in-order sequence without it, restores every balance, link and child bit, counts one less, and leaves no other node (so no placeholder) reachable |
| `Avl.AvlTree.FindNeighbour` | components/libnvavl/avl.c:706-716 | the node swapped with a two-child node is its neighbour in order, on the taller side, and has at most one child |
| `Avl.AvlTree.Displace` | components/libnvavl/avl.c:699-745 | after the swap the placeholder stands beside the removed place, with at most one child, in a tree that is sound |
| `AvlSwap.SwapNodes` | components/libnvavl/avl.c:718-745 | relinking through the placeholder renames the two nodes in the tree and nothing else |
| `AvlHeap.FibonacciHeight` | components/libnvavl/avl.c:29-112 | a balanced tree of height h has at least Fib(h+2)-1 nodes |
| `AvlSearch.First` | components/libnvavl/avl.c:179-192 | the first node of the in-order sequence, or null |
| `AvlSearch.Last` | components/libnvavl/avl.c:198-211 | the last node of the in-order sequence, or null |
| `AvlSearch.Walk` | components/libnvavl/avl.c:132-173 | the neighbour in order, before or after, or null at the end |
| `AvlSearch.Enumerate` | components/libnvavl/avl.c:132-192 | walking from the first node visits the whole in-order sequence |
| `AvlSearch.WalkThereAndBack` | components/libnvavl/avl.c:132-173 | forward and backward walks are inverse |
| `AvlSearch.Nearest` | components/libnvavl/avl.c:222-239 | the exact predecessor or successor of a gap |
| `AvlSearch.Find` | components/libnvavl/avl.c:251-282 | a node is found only if it compares equal; otherwise the cookie names the gap that splits smaller from larger |
| `AvlUpdate.InsertHere` | components/libnvavl/avl.c:568-623 | the new node lands directly before or after the given one |
| `AvlUpdate.Add` | components/libnvavl/avl.c:628-646 | adding absent data keeps the tree sorted, with exactly that node more |
| `AvlUpdate.NeighboursSuffice` | components/libnvavl/avl.c:855-873 | after one key changed, the tree is sorted if and only if the two neighbour checks pass |
| `AvlUpdate.RestSorted` | components/libnvavl/avl.c:817-819 | what remains without the changed node is sorted and lacks its data |
| `AvlUpdate.Reinsert` | components/libnvavl/avl.c:817-819 | taking the node out and adding it again sorts the tree, with the same members |
| `AvlUpdate.UpdateLt` | components/libnvavl/avl.c:821-836 | re-sorts under the one-sided assertion; it moves the node exactly if the order was broken |
| `AvlUpdate.UpdateGt` | components/libnvavl/avl.c:838-853 | re-sorts under the one-sided assertion; it moves the node exactly if the order was broken |
| `AvlUpdate.Update` | components/libnvavl/avl.c:855-873 | re-sorts after a key changed to any value not found elsewhere; it moves the node exactly if the order was broken |
| `AvlDestroy.PostOrderPermutes` | components/libnvavl/avl.c:925-946 | post order holds each node as often as in-order |
| `AvlDestroy.ChildrenFirst` | components/libnvavl/avl.c:925-946 | in post order no node comes before one of its children |
| `AvlDestroy.DestroyNodes` | components/libnvavl/avl.c:948-1039 | each call hands out the next node in post order and from then on touches only the nodes that are left; a node handed out without a parent is the root; the last call leaves an empty tree |
| `AvlDestroy.DestroyAll` | components/libnvavl/avl.c:932-946 | calling until null hands out the post order exactly, although nodes handed out are overwritten in between |
| `PtpDataset.MemcmpTransitive` | components/linuxptp-3.1/bmc.c:78-116 | the byte comparison of identities is transitive |
| `PtpDataset.MemcmpDecides` | components/linuxptp-3.1/bmc.c:84-116 | the first byte that differs decides, the lower one first |
| `PtpDataset.CmpRanks` | components/linuxptp-3.1/telecom.c:26-73 | both comparators in full: what is advertised decides lexicographically, smaller numbers first (the default comparison by priority1, class, accuracy, variance and priority2, and only between two grandmasters; the telecom profile by class, accuracy, variance, priority2 and localPriority); then the identities, for the telecom profile only above class 127; then the way the data sets came |
| `PtpDataset.NotOutdone` | components/linuxptp-3.1/telecom.c:37-60 | a comparable data set that is no worse than another is not outdone by it in what is advertised; under the telecom profile its class is no greater |
| `PtpDataset.BetterByTopology` | components/linuxptp-3.1/bmc.c:24-70 | exactly when a comparator says that topology made the difference, in steps, sender, receiver and receiving port |
| `PtpDataset.Dscmp2Rank` | components/linuxptp-3.1/bmc.c:24-70 | for data sets that travelled, the topology comparison is that of a rank |
| `PtpDataset.Dscmp2Transitive` | components/linuxptp-3.1/bmc.c:24-70 | the sign of the topology comparison is transitive for data sets that travelled |
| `PtpDataset.CmpAntisymmetric` | components/linuxptp-3.1/bmc.c:72-116 | both comparators change sign when their arguments change places |
| `PtpDataset.DscmpAntisymmetric` | components/linuxptp-3.1/telecom.c:26-73 | so they do when a data set may be missing |
| `PtpDataset.CmpTransitive` | components/linuxptp-3.1/bmc.c:72-116 | the sign of both comparators is transitive for comparable data sets: travelled, and for the default comparison in harmony |
| `PtpDataset.HarmonyIsExact` | components/linuxptp-3.1/bmc.c:72-116 | harmony, a matter of what is advertised and of steps removed, sender and receiving port, is exact: two travelled data sets are in harmony if and only if the default comparison carries over between them by way of every third that is in harmony with both |
| `PtpDataset.DiscordBreaks` | components/linuxptp-3.1/bmc.c:84-115 | between any two that are not, there is one of another grandmaster, which may have come any way, that is worse than the first and better than the second, although the first is not better than the second |
| `PtpDataset.CmpTie` | components/linuxptp-3.1/bmc.c:24-116 | comparable data sets tie only if they come from the same sender to the same receiver |
| `PtpDataset.TravelledIsNecessary` | components/linuxptp-3.1/bmc.c:32-52 | as a statement about the functions alone: any data set with sender equal to receiver ties with two others of which one is better |
| `PtpBest.BestOfBeatsAll` | components/linuxptp-3.1/port.c:2378-2411 | the fold selects the one candidate that beats all others |
| `PtpBest.BestOfFinds` | components/linuxptp-3.1/port.c:2378-2411 | a candidate that beats every other is found, whatever else holds of the comparison |
| `PtpBest.DiscordCircle` | components/linuxptp-3.1/bmc.c:84-115 | one grandmaster described in two ways, the better way by the longer route: three candidates of one port from three other clocks that compare in a circle, and the election ends with one that another beats |
| `PtpBest.NestedIsBest` | components/linuxptp-3.1/clock.c:1838-1844 | the best of the ports' winners is at least as good as every candidate of every port |
| `PtpBest.NestedBeatsAll` | components/linuxptp-3.1/clock.c:1838-1844 | if no two candidates share sender and receiving port, it is the one that beats all others |
| `PtpBest.NestedOrderIndependent` | components/linuxptp-3.1/clock.c:1838-1844 | the same candidates, however spread over ports and ordered in their lists, have the same winner |
| `PtpBest.NestedFinds` | components/linuxptp-3.1/clock.c:1838-1844 | a candidate that beats every other of every port is found by the two loops, whatever else holds of the comparison |
| `PtpBest.NestedBeatsIff` | components/linuxptp-3.1/clock.c:1838-1844 | the chosen candidate beats all others exactly if some candidate does |
| `PtpBest.ComparableBeats` | components/linuxptp-3.1/clock.c:1838-1844 | if the candidates are comparable and no two share sender and receiving port, one does |
| `PtpFsm.SlaveMachineCollapses` | components/linuxptp-3.1/fsm.c:21-337 | over every sequence of updates the slave-only machine is the full machine with the master and passive states collapsed to LISTENING |
| `PtpFsm.CollapseStep` | components/linuxptp-3.1/port.c:3182-3221 | one update commutes with the collapse, faults cleared at once and initialization included |
| `PtpFsm.SlaveOnlyStates` | components/linuxptp-3.1/fsm.c:222-337 | a slave-only port never enters a master or passive state, and between updates no port is initializing |
| `PtpFsm.MachineMoves` | components/linuxptp-3.1/fsm.c:21-220 | the machine given state by state makes exactly the moves listed event by event: which states an event moves, and where to |
| `PtpFsm.AfterRecommendation` | components/linuxptp-3.1/fsm.c:60-219 | where each recommendation other than RS_SLAVE takes an active port: RS_PASSIVE to PASSIVE; RS_MASTER and RS_GRAND_MASTER leave a port that is or becomes a master as it is |
| `PtpFsm.BecomesMaster` | components/linuxptp-3.1/fsm.c:60-219 | a port becomes MASTER only from PRE_MASTER when its qualification time runs out, or from LISTENING, PASSIVE, UNCALIBRATED or SLAVE when it hears no announcement |
| `PtpFsm.TrackingNeedsRsSlave` | components/linuxptp-3.1/fsm.c:21-337 | a port begins to follow a master only when told to become a slave |
| `PtpFsm.OtherRecommendationsStop` | components/linuxptp-3.1/fsm.c:21-337 | any other recommendation makes a port stop following |
| `PtpFsm.DispatchTracking` | components/linuxptp-3.1/port.c:2506-2532 | both still hold when the port's clock switch fails during the dispatch |
| `PtpPort.FcPrune` | components/linuxptp-3.1/port.c:279-301 | keeps the two newest messages, without the stale ones at the old end |
| `PtpPort.LifetimeIs` | components/linuxptp-3.1/port.c:135-153 | an announcement counts for four of its sender's intervals: four seconds at an interval of one, twice as long at each longer one, half as long at each shorter one |
| `PtpPort.Port.QualifiesIff` | components/linuxptp-3.1/port.c:2378-2403 | a foreign master qualifies exactly if the second newest of its counted messages still counts |
| `PtpPort.Port.HeardThrice` | components/linuxptp-3.1/port.c:340-393 | a sender has to be heard three times before it may qualify: the first announcement is not counted |
| `PtpPort.Port.SaysWhatWasAnnounced` | components/linuxptp-3.1/port.c:74-86 | a data set advertises what the announcement says, field by field, under both comparators |
| `PtpPort.Port.DiffersExactly` | components/linuxptp-3.1/port.c:61-72 | two announcements of one sender differ exactly if they make different data sets |
| `PtpPort.Port.AsksExactly` | components/linuxptp-3.1/port.c:340-393 | an announcement of a known sender asks for a decision exactly if the sender comes to qualify by it, or has announced another data set that still counts |
| `PtpPort.Port.CandidatesNear` | components/linuxptp-3.1/port.c:1860-1862 | no candidate is as many steps away as the clock's limit |
| `PtpPort.Port.ComputeBest` | components/linuxptp-3.1/port.c:2378-2411 | the best is the winner of the qualified candidates; losers forget their messages; foreign masters stay apart by sender |
| `PtpPort.Port.CandidatesDistinct` | components/linuxptp-3.1/port.c:2378-2411 | candidates of one port never share a sender |
| `PtpPort.Port.CandidatesTravelled` | components/linuxptp-3.1/port.c:704-716 | every candidate of every port came from another clock |
| `PtpPort.Port.AddForeignMaster` | components/linuxptp-3.1/port.c:340-393 | a first announcement makes a record without messages, a later one is put on top of those that count; a decision is asked for exactly on reaching the threshold or on a difference |
| `PtpPort.Port.UpdateCurrentMaster` | components/linuxptp-3.1/port.c:1811-1844 | an announcement of the current master asks for a decision exactly on a difference, one of another sender exactly as a new foreign master does |
| `PtpPort.Port.ProcessAnnounce` | components/linuxptp-3.1/port.c:1856-1882 | which announcements are ignored, what the others do to the records, and exactly when a decision is asked for, in each state |
| `PtpPort.Port.Receive` | components/linuxptp-3.1/port.c:704-716 | the clock's own announcements are dropped; the others are processed, and only such as came over less steps than the clock's limit are ever counted |
| `PtpPort.Port.UpdateState` | components/linuxptp-3.1/port.c:3182-3221 | the new state; the foreign masters are forgotten exactly on initializing, failing or being disabled |
| `PtpPort.Port.Dispatch` | components/linuxptp-3.1/port.c:2506-2532 | the state after a dispatch, with the fault of a failed clock switch, and exactly when the foreign masters are forgotten |
| `PtpPort.Port.AnnounceTimeout` | components/linuxptp-3.1/port.c:2604-2636 | the current best master's messages are dropped and no other's, and the port is told |
| `PtpClock.OnlyBestPortFollows` | components/linuxptp-3.1/bmc.c:118-164 | whatever a port did before, it follows a master after a decision only if it is the port of the best foreign master |
| `PtpClock.BestPortFollowsIff` | components/linuxptp-3.1/bmc.c:118-164 | that port is told to follow exactly if the clock class allows it and the clock is not better itself |
| `PtpClock.NoopKeeps` | components/linuxptp-3.1/bmc.c:136-138 | a port without foreign master that does not run the algorithm stays what it is |
| `PtpClock.Clock.OwnIsAdvertised` | components/linuxptp-3.1/clock.c:1224-1240 | the clock advertises its own figures, zero steps away |
| `PtpClock.Clock.SentToServe` | components/linuxptp-3.1/bmc.c:140-149 | a port is told nothing exactly if it listens without a foreign master; at class 127 or below every other port is told to be passive exactly if it has a foreign master no worse than the clock, else to be a grandmaster |
| `PtpClock.Clock.SentWhenOutranked` | components/linuxptp-3.1/bmc.c:151-163 | above class 127: grandmaster exactly if the clock is not outranked; slave exactly on the elected master's port; passive exactly if the elected master has nothing over the port's own best foreign master but a better way; master otherwise |
| `PtpClock.Clock.OthersServe` | components/linuxptp-3.1/bmc.c:155-163 | so the other active ports of an outranked clock become or stay masters, or are PASSIVE exactly in that case |
| `PtpClock.Clock.ElectedAdvertises` | components/linuxptp-3.1/clock.c:1838-1844 | no candidate of any port advertises smaller numbers than the elected master; under the telecom profile none has a smaller class, without any condition |
| `PtpClock.Clock.ElectBest` | components/linuxptp-3.1/clock.c:1838-1844 | the elected master is the fold over the ports' own winners |
| `PtpClock.Clock.Decide` | components/linuxptp-3.1/clock.c:1879-1902 | the event sent to a port, and what it makes of parent and steps removed |
| `PtpClock.Clock.HandleStateDecision` | components/linuxptp-3.1/clock.c:1831-1905 | the elected master beats every other candidate of every port exactly if some candidate does, and in harmony (which the telecom profile does not need) one does if there is any and none advertises less than the elected one; only its port follows a master; the clock's parent is that master if it outranks the clock; the state of every port is given, by what it is sent |
| `PtpClock.Clock.ElectedBeatsAll` | components/linuxptp-3.1/clock.c:1838-1844 | the elected master beats every other candidate of every port exactly if some candidate does |
| `PtpClock.Clock.HarmonyBeats` | components/linuxptp-3.1/clock.c:1838-1844 | if the candidates of all ports are in harmony and there is any, one of them beats all others |
| `PtpClock.Clock.ListsDistinct` | components/linuxptp-3.1/port.c:3098-3099 | no two candidates of all ports share sender and receiving port |
| `PtpClock.Clock.ListsComparable` | components/linuxptp-3.1/port.c:704-716 | candidates in harmony are comparable, as all came from other clocks |
| `PtpClock.Clock.HandleInput` | components/linuxptp-3.1/clock.c:1559-1596 | between decisions no port begins to follow a master; exactly when an input calls for a decision |
| `PtpClock.Clock.Poll` | components/linuxptp-3.1/clock.c:1537-1615 | one iteration keeps all of that; a decision runs exactly if one was asked for, and without one neither the elected master nor the parent changes |
| `PtpClock.Clock.Run` | components/linuxptp-3.1/clock.c:1537-1615 | over every run at most one port is UNCALIBRATED or SLAVE, and it is the port of the master elected last |
| `TcQueue.DistinctKeysSuffice` | components/linuxptp-3.1/tc.c:313-353 | messages with distinct identities belong to one exchange at most |
| `TcQueue.PairIff` | components/linuxptp-3.1/tc.c:313-353 | two messages belong to one exchange exactly if the identity of the later answers that of the earlier: sequence number, port, and source or requesting identity |
| `TcQueue.EveryExchangeIsCompletedOnce` | components/linuxptp-3.1/tc.c:120-236 | over any interleaving the queue sends one message for each exchange when it is completed, and holds exactly the messages that still wait, oldest first |
| `TcQueue.DueAt` | components/linuxptp-3.1/tc.c:177-236 | each exchange has exactly one message among those sent, at its own place |
| `TcQueue.EitherOrder` | components/linuxptp-3.1/tc.c:177-236 | whichever of Sync and Follow_Up comes first, what is sent is the Follow_Up with the Sync's residence time, the peer delay and the asymmetry added |
| `TcForward.SendCorrected` | components/linuxptp-3.1/tc.c:221-232 | the shared message is sent with the new correction and keeps its own |
| `TcForward.DownTheTree` | components/linuxptp-3.1/tc.c:54-118 | with the spanning tree in force, in the clock's domain: a Delay_Req passes exactly up, out through a port that follows a master; anything else exactly down, from such a port out through a master |
| `TcForward.NoLoops` | components/linuxptp-3.1/tc.c:54-118 | with one such port, a Delay_Req goes out through one port at most, and nothing else comes back up |
| `TcForward.CompleteSyfup` | components/linuxptp-3.1/tc.c:177-236 | queue, port and history stay in step, and every message keeps its correction |
| `TcForward.CompleteRequest` | components/linuxptp-3.1/tc.c:120-138 | a request is held with its residence time |
| `TcForward.CompleteResponse` | components/linuxptp-3.1/tc.c:140-175 | a response is sent exactly if the port it came in on holds its request, with that request's residence time added |
| `TcClock.Complete` | components/linuxptp-3.1/tc.c:238-253 | each kind of message is completed in its own way, with the history of the queue |
| `TcClock.TransparentClock.SendEvent` | components/linuxptp-3.1/tc.c:275-286 | the event goes out through exactly the ports that are not blocked |
| `TcClock.TransparentClock.CompleteEach` | components/linuxptp-3.1/tc.c:288-308 | exactly the ports that are not blocked and have a time stamp account for the message |
| `TcClock.TransparentClock.FwdFolup` | components/linuxptp-3.1/tc.c:408-421 | a Follow_Up enters the history of exactly the ports that are not blocked |
| `TcClock.TransparentClock.FwdEvent` | components/linuxptp-3.1/tc.c:266-311 | an event is sent first everywhere, then accounted for with each port's own residence time; besides the event only Follow_Ups go out |
| `TcClock.TransparentClock.FwdSync` | components/linuxptp-3.1/tc.c:443-473 | a one-step Sync becomes two-step, with a Follow_Up of its own that carries no correction yet |
| `TcClock.TransparentClock.FwdResponse` | components/linuxptp-3.1/tc.c:428-441 | a response is offered to the queue once for each port that is not blocked, in order; only responses go out |
| `TcClock.TransparentClock.FollowUpsSent` | components/linuxptp-3.1/tc.c:177-236 | at any time, the Follow_Ups sent through a port are exactly the ones due for the exchanges that are complete, and its queue holds what waits |
| `TcClock.TransparentClock.ResponsesSent` | components/linuxptp-3.1/tc.c:140-175 | at any time, the Delay_Resps sent through a port are exactly the ones due to it from the queues of all ports, each with the residence time of its request |
| `TcExchange.ForwardExchange` | components/linuxptp-3.1/tc.c:177-311 | a two-step Sync and its Follow_Up, in either order, at any port that holds nothing of theirs: nothing goes out if it is blocked; the Sync alone if it has no transmit time stamp; else the Sync and then the Follow_Up, its correction increased by 2^16 times the sum of the rated time from ingress to egress and the peer delay, plus the asymmetry; and nothing stays behind |
| `TcExchange.ForwardOneStep` | components/linuxptp-3.1/tc.c:443-473 | a one-step Sync goes out as a two-step one, with a Follow_Up of exactly that correction behind it |
| `TcExchange.SyncThenFollowUp` | components/linuxptp-3.1/tc.c:177-236 | the same as a law of one queue and its wire, Sync first |
| `TcExchange.FollowUpThenSync` | components/linuxptp-3.1/tc.c:177-236 | and Follow_Up first |
| `TcDelay.ForwardDelay` | components/linuxptp-3.1/tc.c:120-175 | a Delay_Req that came in on one port and its Delay_Resp: the response goes out through that port and no other, its correction increased by 2^16 times the rated time the request spent in the clock, and nothing stays behind |
| `TcDelay.TryEach` | components/linuxptp-3.1/tc.c:428-441 | offering a response once for each port sends it once, through the port its request came in on, unless that is blocked |
| `MsgBytes.ReadElsewhere` | components/linuxptp-3.1/msg.c:81-99 | what one host converts, a host of either byte order reads as it was written |
| `MsgBytes.ConvertSomeBack` | components/linuxptp-3.1/msg.c:338-479 | converting some of the fields back leaves exactly the others converted |
| `MsgTlv.WalkStays` | components/linuxptp-3.1/msg.c:185-223 | whatever was received, the walk changes no byte outside it; without error it found TLVs of even length, one behind the other, with less than a TLV left over |
| `MsgTlv.WalkSent` | components/linuxptp-3.1/msg.c:185-237 | walking over TLVs that were sent, by a host of either byte order, finds exactly them, at the same places, with the same types, lengths and meanings |
| `MsgLayout.LayoutOrdered` | components/linuxptp-3.1/msg.h:90-176 | the converted fields of every message type lie in it, apart from each other |
| `MsgMembers.HeaderFromMembers` | components/linuxptp-3.1/msg.h:90-103 | the converted fields of the header are all its multi-byte integers, at the sums of the widths before them, but for a reserved one |
| `MsgMembers.LayoutFromMembers` | components/linuxptp-3.1/msg.h:105-176 | every message is as long as its declared members; its multi-byte integers, but for reserved ones, are its time stamp and the fields both ends convert, none missing; it takes TLVs exactly if it is declared with a suffix |
| `MsgMembers.TypeIsNumbered` | components/linuxptp-3.1/msg.h:36-45 | the low half of the first byte names the type by the standard's number |
| `MsgRoundTrip.RoundTrip` | components/linuxptp-3.1/msg.c:338-479 | any message with any even TLVs, sent and received by hosts of either byte order, says there what it said: every header field, port number and integer reads the same, the other bytes are the same, and the TLV list and the TLVs come over; its time stamp is read as it was written exactly if it was converted, or the sender is big-endian, or the bytes of its three fields are symmetric |
| `MsgRoundTrip.IntegersArrive` | components/linuxptp-3.1/msg.c:65-99 | by literal place: length, correction, port number and sequence number of every message, currentUtcOffset, variance and stepsRemoved of an Announce, and the requesting or target port number, are big-endian on the network and read by the receiver as the sender wrote them |
| `MsgRoundTrip.TimeArrives` | components/linuxptp-3.1/msg.c:239-253 | by message type: which messages give the receiver a time stamp, and from which four it is the one the sender wrote |
| `MsgRoundTrip.TlvsArrive` | components/linuxptp-3.1/msg.c:185-237 | every TLV arrives by literal place: two bytes of type, two of length, then the value, and the next one behind it |
| `MsgRoundTrip.RoundTripHere` | components/linuxptp-3.1/msg.c:338-479 | between hosts of one byte order the bytes themselves come back |
| `MsgRoundTrip.ConvertedAlike` | components/linuxptp-3.1/msg.c:65-99 | fields converted by the sender and by the receiver read the same there |
| `MsgRoundTrip.ZeroIsSymmetric` | components/linuxptp-3.1/msg.c:274-278 | a time stamp of zero, as new messages carry it, is symmetric |
| `MsgRoundTrip.TimeReadAlike` | components/linuxptp-3.1/msg.c:239-246 | hosts of both byte orders read a time stamp alike exactly if the bytes of its fields are symmetric |
| `MsgRoundTrip.SyncMisread` | components/linuxptp-3.1/msg.c:389-392 | as a statement about the functions alone: a little-endian sender's Sync with one nanosecond is read as 2 to the power of 24 |
| `MsgRoundTrip.TimeBack` | components/linuxptp-3.1/msg.c:239-253 | 48 bits of seconds and the nanoseconds survive |
| `MsgCodec.Message.Swap` | components/linuxptp-3.1/msg.c:81-99 | the in-place conversion of a field |
| `MsgCodec.Message.TlvPrepare` | components/linuxptp-3.1/msg.c:128-163 | the place behind the last TLV, exactly if the type admits TLVs and there is room |
| `MsgCodec.Message.TlvAppend` | components/linuxptp-3.1/msg.c:481-491 | the TLV is listed there and counted in the message's length |
| `MsgCodec.Message.AddTlv` | components/linuxptp-3.1/msg.c:481-491 | a message built of contiguous even TLVs stays so, with the new one behind the others, and is refused exactly if there is no room |
| `MsgCodec.Message.PreSend` | components/linuxptp-3.1/msg.c:432-479 | the bytes that are sent, for every type, and the error for an unknown one |
| `MsgCodec.Message.WalkTlvs` | components/linuxptp-3.1/msg.c:185-223 | the loop is the walk, with its errors |
| `MsgCodec.Message.PostRecv` | components/linuxptp-3.1/msg.c:338-430 | what becomes of received bytes, for every type and every error |
| `Expansion.Buffer.AddStr` | components/ifupdown/execute.c:297-320 | the text is added at the end, whether or not the buffer had to grow; it stays in bounds and ends with a zero |
| `Expansion.Buffer.CutBack` | components/ifupdown/execute.c:362-365 | the text is cut back to a prefix and ends with a zero |
| `ExpandLookup.CompareIs` | components/ifupdown/execute.c:449-456 | the comparison by length is equality of names within the text, and has no defined result only for a name equal to the rest of the template |
| `ExpandLookup.GetVar` | components/ifupdown/execute.c:458-475 | the interface name, or the first option of that name with a value that is not empty |
| `Expansion.LookUp` | components/ifupdown/execute.c:380-397 | how a variable's name is measured, the wrap-around of its length included |
| `ExpandResume.ResumePast` | components/ifupdown/execute.c:330-417 | expanding a node and going on comes to the same result |
| `ExpandResume.ResumeOpen` | components/ifupdown/execute.c:347-357 | opening a block comes to the same result |
| `ExpandResume.ResumeClose` | components/ifupdown/execute.c:359-371 | closing a block comes to the same result, unless nothing was ever written and it has to be dropped |
| `Expansion.Expander.CloseBlock` | components/ifupdown/execute.c:359-371 | a block whose variable is missing is cut back to where it began |
| `Expansion.Expander.Variable` | components/ifupdown/execute.c:373-415 | a variable is written, or its level fails; the result of the whole stays the same |
| `Expansion.ParseCommand` | components/ifupdown/execute.c:323-433 | the loop with its stack computes the recursive meaning: a block that lacks a variable of its own expands to nothing; with every error |
| `ExpandShow.VariableExpands` | components/ifupdown/execute.c:373-415 | a variable behind text expands to the interface name or the first option of its name: in full, or of the same length with every pattern character replaced and all else kept; without a value the expansion fails |
| `ExpandShow.OptionalExpands` | components/ifupdown/execute.c:347-371 | in double brackets the same, but without a value nothing is written for it |
| `ExpandShow.DenotesValue` | components/ifupdown/execute.c:458-475 | the value of a variable, said by the place of the first option of its name |
| `ExpandShow.UnbalancedEnds` | components/ifupdown/execute.c:384-428 | an open block or a stray percent sign behind any nodes is reported as such |
| `ExpandShow.EmptyGivesNothing` | components/ifupdown/execute.c:323-433 | the empty template gives no text at all |
| `ExpandShow.ShowRoundTrip` | components/ifupdown/execute.c:323-433 | every tree of text, named variables and blocks, at most ten levels deep, has a template that means it (a variable without replacement needs a name of four characters at least) |
| `ExpandShow.EscapeRoundTrip` | components/ifupdown/execute.c:337-345 | any text can be written as a template |
| `ExpandShow.OnlyWildBreaks` | components/ifupdown/execute.c:359-371 | once text was written, only a wild variable breaks the expansion |
| `ExpandShow.TextFirst` | components/ifupdown/execute.c:323-433 | a template that starts with text breaks exactly if it has a wild variable |
| `ExpandShow.SucceedsWhen` | components/ifupdown/execute.c:323-433 | such a template succeeds exactly if percents and brackets balance and no variable outside the blocks is missing, and then gives the recursive meaning |
| `ExpandShow.BlockFirst` | components/ifupdown/execute.c:362-365 | a template that breaks |
| `ExpandShow.PlainVariable` | components/ifupdown/execute.c:390-395 | a variable means, for every interface, what an unchanged variable of its name means exactly if the fourth character before its end is no slash |
| `ExpandShow.SlashBefore` | components/ifupdown/execute.c:390-395 | a template in which it does not |
| `FilterMedian.AscendingUnique` | components/linuxptp-3.1/mmedian.c:30-31 | the same values in ascending order are the same sequence |
| `FilterMedian.MiddleIsMedian` | components/linuxptp-3.1/mmedian.c:72-76 | at least half of the values are no greater than the answer and at least half no less; of an even number it is half the sum of the middle two, but for rounding |
| `FilterMedian.QuotientIs` | components/linuxptp-3.1/tmv.h:56-61 | division towards zero |
| `FilterMedian.Create` | components/linuxptp-3.1/mmedian.c:86-111 | a new filter has seen nothing; there is none of length less than one |
| `FilterMedian.Mmedian.Sample` | components/linuxptp-3.1/mmedian.c:44-77 | over any samples and resets the slots are ordered by value, each once, and the answer is the median of the last samples, up to the filter's length |
| `FilterMedian.Mmedian.Reset` | components/linuxptp-3.1/mmedian.c:79-84 | forgets all samples |
| `FilterMedian.ConsistentOn` | components/linuxptp-3.1/mmedian.c:49-70 | replacing the oldest sample keeps the order and moves the window on |
| `FilterAverage.SummedOn` | components/linuxptp-3.1/mave.c:41-53 | the running sum stays the sum of the window |
| `FilterAverage.Mave.Accumulate` | components/linuxptp-3.1/mave.c:41-53 | the answer is the mean of the last values, up to the filter's length |
| `FilterAverage.Mave.Reset` | components/linuxptp-3.1/mave.c:55-63 | forgets all values |
| `PriorityQueue.RootIsGreatest` | components/linuxptp-3.1/pqueue.c:135-138 | in a heap the root is a greatest element |
| `PriorityQueue.SiftDown` | components/linuxptp-3.1/pqueue.c:41-62 | moving the greater child up leaves only its place in doubt |
| `PriorityQueue.SiftUp` | components/linuxptp-3.1/pqueue.c:121-124 | moving the parent down leaves only its place in doubt |
| `PriorityQueue.PQueue.Heapify` | components/linuxptp-3.1/pqueue.c:41-62 | terminates with the heap order restored and the same elements |
| `PriorityQueue.PQueue.Extract` | components/linuxptp-3.1/pqueue.c:90-103 | takes out a greatest element and nothing else, or answers that there is none |
| `PriorityQueue.PQueue.Insert` | components/linuxptp-3.1/pqueue.c:105-128 | puts in one element and keeps the others, whether or not the array had to grow |
| `PriorityQueue.PQueue.Grow` | components/linuxptp-3.1/pqueue.c:109-117 | doubles the array and keeps its contents |
| `PriorityQueue.PQueue.Peek` | components/linuxptp-3.1/pqueue.c:135-138 | a greatest element, left where it is |
| `Statistics.DeviationsMove` | components/linuxptp-3.1/stats.c:56-59 | the one-pass update gives the squared deviations from the new mean |
| `Statistics.Stats.AddValue` | components/linuxptp-3.1/stats.c:47-60 | after any values: the mean, the sum of squares, the squared deviations from the mean, and the true bounds |
| `Statistics.Stats.GetResult` | components/linuxptp-3.1/stats.c:67-80 | the figures reported: bounds, largest absolute value, mean, root mean square and standard deviation |
| `ServoPi.FollowStays` | components/linuxptp-3.1/pi.c:140-148 | with gains and weight not negative, answer and drift stay within the bounds, because the integrator advances only on answers that were not clamped |
| `ServoPi.FollowPulls` | components/linuxptp-3.1/pi.c:140-148 | the answer pulls the way of the offset, the new drift lies between the old one and the answer, and within the bounds they differ by exactly the proportional and the integral term |
| `ServoPi.EstimateIsExact` | components/linuxptp-3.1/pi.c:104-106 | the estimate is exact: slowed down by it, the clock would have kept step with the reference between the two samples |
| `ServoPi.FarEnough` | components/linuxptp-3.1/pi.c:92-102 | exactly when two samples are far enough apart for an estimate |
| `ServoPi.PiServo.StepsIff` | components/linuxptp-3.1/pi.c:113-117 | exactly which offsets are stepped over |
| `ServoPi.PiServo.Sample` | components/linuxptp-3.1/pi.c:64-155 | the servo's steps, and both bounds in every state |
| `ServoPi.PiServo.Reset` | components/linuxptp-3.1/pi.c:173-178 | starts over, within the bounds |
| `ServoPi.PiServo.Run` | components/linuxptp-3.1/pi.c:64-178 | over every run of samples, resets and changes of gains every answer is within the bounds |
| `Regression.QuotientsSolve` | components/linuxptp-3.1/linreg.c:185-188 | the computed slope and intercept solve the weighted normal equations |
| `Regression.SpreadDetermines` | components/linuxptp-3.1/linreg.c:185-188 | with positive weights and two different places the divisors are positive |
| `Regression.LeastSquares` | components/linuxptp-3.1/linreg.c:138-190 | a line that solves them has the least weighted squares of all lines |
| `ServoLinreg.SameLine` | components/linuxptp-3.1/linreg.c:92-105 | moving the reference leaves a line where it was |
| `ServoLinreg.SameDistance` | components/linuxptp-3.1/linreg.c:174-176 | a line is as far off a sample relative to the reference as off the point itself |
| `ServoLinreg.Linreg.MoveReference` | components/linuxptp-3.1/linreg.c:92-105 | so for every fitted line |
| `ServoLinreg.Linreg.AddSample` | components/linuxptp-3.1/linreg.c:126-136 | the ring holds the newest samples |
| `ServoLinreg.Linreg.Accumulate` | components/linuxptp-3.1/linreg.c:170-183 | the sums run on to those of the newest points |
| `ServoLinreg.Linreg.Regress` | components/linuxptp-3.1/linreg.c:138-190 | for each size with enough points the fit solves the normal equations over exactly the newest so many samples if these are spread, whatever the other sizes; the others are unchanged; the prediction errors are updated |
| `ServoLinreg.ErrorAverages` | components/linuxptp-3.1/linreg.c:157-168 | the prediction error is how far the line was off the newest point; the average is the mean of the first ten, then moves a fiftieth of the way |
| `ServoLinreg.PointsDouble` | components/linuxptp-3.1/linreg.c:149-150 | the sizes take 4, 8, 16, 32 and 64 points |
| `ServoLinreg.FitIsClosest` | components/linuxptp-3.1/linreg.c:138-190 | no other line is closer to those samples, if they are spread |

## Left out

- Rounding of floating point numbers and 64-bit overflow: doubles are reals, time values and corrections are unbounded integers.
- Failed memory allocation and the pools that memory is taken from and returned to, reference counts included.
- libnvavl: node offsets inside user structures and the packing of parent pointer, child bit and balance into one word; `avl_numnodes` and `avl_is_empty` only read a field.
- Best master selection: runs with the BMCA noop setting (only its effect on one port is modelled), path trace, unicast masters, the local management port, and what a clock does with its servo and data sets beyond parent and steps removed.
- PtpClock.Clock.Run: assumes, like the claim it states, that every port runs the best master algorithm, and that recommendations reach ports only from state decisions.
- Foreign masters are kept as values in a sequence and the best one as an index, so aliasing of records is not modelled; the designated state machines are not modelled.
- Transparent clock: pruning of old entries, faults on failed sends (which flush the queue), the forwarding of other messages, and the peer-to-peer form; the clock's rate ratio is a function on residence times.
- TcQueue.EveryExchangeIsCompletedOnce: supposes that no two messages on a queue have one identity, as the protocol's sequence numbers promise until they wrap.
- Message codec: the conversion of TLV values by type is a parameter (values that keep their length and what they mean); time of arrival, duplication and the message pool are not modelled.
- The linear regression servo's choice of a size and its frequency output; the update of its reference by elapsed time.
- ServoLinreg.Linreg.Regress: says of a size whose points are not spread (two different places, positive weights) only that its line may be no number.
- The square root function is a parameter of `Statistics.Stats.GetResult`.
- FilterAverage.Mave.constructor: asks for a length of one at least, which the code does not check and divides by.
- PriorityQueue.PQueue.constructor: asks for room for one element at least, as an array of none cannot be doubled.
- Template expansion: the environment and the execution of commands; `Expansion.ParseCommand` takes the three characters in memory before the template as a parameter.
- The other components of the repository: daemons, network configuration parsing and scripts, which would add breadth but no harder properties.
