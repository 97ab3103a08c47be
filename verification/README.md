# zrsocket in Dafny

zrsocket is a reactor framework in C++.  This project models its state machines and proves what they
are for.  It has five parts.

* **wepoll**, the epoll emulation that the library compiles in. `RbShapes` and `RbTree` are its
  red-black tree with parent links, changed in place; `WepollQueue` is its circular intrusive queue;
  `WepollEvents`, `WepollState`, `WepollBooks`, `WepollPort`, `WepollRuns` and `WepollReports` are a
  port with its sockets, poll groups and waiting threads; `Reflock` is the lock that decides when a
  closed port may be freed.
* **Queues between threads.** `RingIndex`, `SlotTraces`, `MpmcRing`, `MpmcDelivery`, `RingVariants`,
  `RingProgress`, `VariantDelivery` and `SpscQueue` are the bounded ring queues, `DoubleBuffer` is
  the double-buffered queue and the loop that drains it.
* **Decoders.** `Http` says what a byte stream means, `HttpDecoder` is the incremental decoder of
  requests and of responses, `HttpLaws` says what is delivered and what is refused, `ByteBuffer`,
  `HttpEncoder`, `HttpResponseEncoder`, `HttpRoundTrip` and `HttpResponseRoundTrip` are the way
  there and back. `Framing` and `LengthFieldDecoder` are the decoders of messages with a length
  field and of messages of fixed length.
* **Sending.** `SendQueue` is the outgoing side of a connection.
* **Timers and numbers.** `TimerList`, `TimerQueue`, `TimerRuns` and `SedaTimers`; `DecimalDigits`
  and `DataConvert`.

`Collections` has facts about sets, maps and sequences; `Basics` has what several components share.
`dafny verify dfyconfig.toml` checks everything.

## How threads are modelled

A port runs under its lock, so a critical section is one step, and the lock is given up while a thread
waits for completion packets.  Windows is the environment: every step is given its
answers to all requests that the step may make, it keeps at most the polls it was asked for, and it hands
out packets of outstanding polls, each once.  `WepollBooks` has what the operations do as functions of
these answers.  The
predicates `IsRun` put such steps together in any order; where there is a method `Run` beside one, it
takes the steps of the code and returns the states it goes through, which are such a run.

In the ring queues a step is one access to what the threads share, and accesses are sequentially
consistent; the code asks for relaxed ordering only, so this is an assumption.  A compare-and-swap may fail
without cause.  Indices do not wrap, the capacity is a power of two, and an event fits its slot.  As written,
the loops that publish or release a ticket go on with whatever ticket a failed compare-and-swap found, so
that one thread may publish the ticket of another before its event is in place.  `MpmcRing` has both
versions, the loops as written (`keep == false`) and loops that wait for their own ticket
(`keep == true`).  The counts hold for both.  In the second every consumer is given what was pushed under
its ticket.  In the first, `WrongEventDelivered` is a run that goes wrong.  A run that takes no careless
step keeps every live event in its slot, and so delivers rightly, but a run with a careless step may be
lucky (`MpmcDelivery.CarelessButRight`); delivery itself is right exactly if every slot is handed out
after the copy for its ticket and before any other (`MpmcDelivery.DeliveredIffTimely`).

## What is false of the code, and when it is true

* The publish and release loops of the queues, as above: `MpmcRing.SafeIffCareful` for the slots,
  `MpmcDelivery.DeliveredIffTimely` for what is delivered.  `VariantDelivery` has the same of the queues
  with one consumer or one producer, `MpscWrongEvent` and `SpmcWrongEvent` are runs.
* `HttpRequest::encode` reserves 32 bytes for the length line with a function that drops the data when it
  enlarges the buffer: `HttpEncoder.Encode` has the exact condition, `HttpEncoder.LengthLost` an input;
  of `HttpResponse::encode`, `HttpResponseEncoder.EncodeResponse` and `ResponseLengthLost`.
* It prints the uri up to its first NUL, though the decoder accepts one: `HttpRoundTrip.UriSurvives` and
  `HttpEncoder.UriCut`.
* The length-field decoder delivers late, or never, when a buffered head tells a length that is not above
  the size of the head: `LengthFieldDecoder.Decoder.Decode` and `CuttingTheHead` say exactly when;
  `NeverDelivered` is an input.
* Updating a timer of `SedaLRUTimerQueue` blanks its interval first, so it comes due at once and stands
  behind timers that are due later: `SedaTimers.Queue.UpdateTimer` has the exact condition,
  `SedaTimers.UpdateHidesADueTimer` an input.
* A SEDA timer that has expired keeps its flag; cancelling or updating it damages the lists:
  `SedaTimers.Queue.CancelTimer` and `UpdateTimer` have the exact condition,
  `SedaTimers.CancelAnExpiredTimer` is an input.
* Deleting a timer resets its interval to 0 and enables it (`TimerQueue.TimerQueue.DeleteTimer`).

Some methods group writes of the C code that touch different fields, where their order cannot matter:
the first half of `tree_del`, the branches of a macro that is instantiated for both sides, the links
forward and backward of a queue node.  A macro or a `switch` branch is a method of its own.

## Model

| member | source | states |
|---|---|---|
| RbTree.Tree.constructor | dependency/wepoll/wepoll.c:1972-1978 | an empty tree: valid, no keys, no nodes |
| RbTree.Tree.Add | dependency/wepoll/wepoll.c:2036-2069 | keeps search order, parent links, no red node with a red child and equal black heights; returns -1 and changes nothing exactly if the key is present, else the keys grow by exactly this node; the rebalancing loop ends |
| RbTree.Tree.FindSlot | dependency/wepoll/wepoll.c:2036-2052 | the descent ends at the node with the key, or at the one free link where the key belongs in the order, and says on which side of which parent it is |
| RbTree.Tree.Attach | dependency/wepoll/wepoll.c:2009-2058 | the new red leaf hangs on that link; everything around it is unchanged |
| RbTree.Tree.Rotate | dependency/wepoll/wepoll.c:1980-2007 | the subtree becomes its rotation in place, with all child and parent links and the link from above or from the root mended |
| RbTree.Tree.RebalanceAfterInsert | dependency/wepoll/wepoll.c:2017-2034 | one turn of the macro, for either side: the order of the keys is the same, the black heights fit, and the one possible red-red pair is gone or strictly higher |
| RbTree.Tree.FixAfterInsert | dependency/wepoll/wepoll.c:2060-2066 | the loop ends without a red-red pair and with the same keys in the same order |
| RbTree.Tree.Find | dependency/wepoll/wepoll.c:2169-2180 | returns the node of the key if the key is in the tree, and null exactly if it is not |
| RbTree.Tree.Del | dependency/wepoll/wepoll.c:2096-2167 | removes exactly this node with its key and keeps all invariants of the tree; the rebalancing loop ends |
| RbTree.Tree.TakeOut | dependency/wepoll/wepoll.c:2096-2144 | a node with no, one or two children leaves; its place, colour and children go to its child or to its in-order successor, and the one subtree that may be a black node short is identified |
| RbTree.Tree.RebalanceAfterRemove | dependency/wepoll/wepoll.c:2071-2094 | one turn of the macro, for either side: it mends the missing black node or moves it strictly up, and keeps the keys in order |
| RbTree.Tree.FixAfterRemove | dependency/wepoll/wepoll.c:2151-2166 | the loop ends with equal black heights, once the node it stops at is painted black |
| RbTree.Tree.Mend | dependency/wepoll/wepoll.c:2146-2166 | nothing to do after a red node, a red child is painted black, otherwise the loop rebalances: the result is a valid tree with the keys in place |
| RbShapes.PlugBalanced | dependency/wepoll/wepoll.c:2036-2069 | a balanced subtree whose black height and root colour fit its place makes the whole tree balanced |
| RbShapes.RotatedInorder | dependency/wepoll/wepoll.c:1980-1999 | a rotation does not change the in-order sequence of keys |
| RbShapes.InsertedFlat | dependency/wepoll/wepoll.c:2036-2058 | a key put where the search ends keeps the whole sequence sorted and is the only one added |
| RbShapes.RecoloredFits | dependency/wepoll/wepoll.c:2021-2024 | recolouring parent, uncle and grandparent keeps black heights and leaves at most the grandparent in conflict |
| RbShapes.OuterFits | dependency/wepoll/wepoll.c:2031-2033 | the outer rotation keeps the in-order sequence and every black height, and leaves at most one red-red pair, at the node looked at |
| RbShapes.RedSiblingShort | dependency/wepoll/wepoll.c:2074-2079 | rotating a red sibling above the parent keeps the keys and leaves the short side with a black sibling |
| RbShapes.NearTurnedShort | dependency/wepoll/wepoll.c:2082-2087 | rotating the near red nephew above the sibling makes the far nephew red and keeps the rest |
| RbShapes.FarTurnedBalanced | dependency/wepoll/wepoll.c:2088-2092 | with a red far nephew the last rotation restores equal black heights |
| RbShapes.LoweredShort | dependency/wepoll/wepoll.c:2094-2094 | painting the sibling red moves the missing black node to the parent's subtree |
| WepollQueue.Queue.Prepend | dependency/wepoll/wepoll.c:1483-1488 | the ring of links represents the node followed by the old sequence |
| WepollQueue.Queue.Append | dependency/wepoll/wepoll.c:1490-1495 | the ring of links represents the old sequence followed by the node |
| WepollQueue.Queue.MoveToStart | dependency/wepoll/wepoll.c:1497-1500 | the node moves to the front, the others keep their order |
| WepollQueue.Queue.MoveToEnd | dependency/wepoll/wepoll.c:1502-1505 | the node moves to the back, the others keep their order |
| WepollQueue.Queue.Remove | dependency/wepoll/wepoll.c:1507-1510 | the node leaves the sequence, the others keep their order, and the node no longer counts as enqueued |
| WepollQueue.Queue.First | dependency/wepoll/wepoll.c:1475-1477 | the first element, or null exactly if the queue is empty |
| WepollQueue.Queue.Last | dependency/wepoll/wepoll.c:1479-1481 | the last element, or null exactly if the queue is empty |
| WepollQueue.Queue.IsEmpty | dependency/wepoll/wepoll.c:1512-1514 | a queue is empty exactly if its head points to itself |
| WepollQueue.Detach | dependency/wepoll/wepoll.c:1470-1473 | the neighbours of any enqueued node are linked to each other and the ring stays consistent |
| WepollQueue.EnqueuedIff | dependency/wepoll/wepoll.c:1516-1518 | a node of a ring points to itself exactly if it is alone, so the test for being enqueued is right |
| WepollQueue.RemovedIsDrop | dependency/wepoll/wepoll.c:1507-1510 | taking a node out of the ring is removing its address from the sequence that the port's model works on |
| WepollEvents.CoveredIsWatched | dependency/wepoll/wepoll.c:1730-1749 | if the pending events cover the wanted ones, the kernel mask of the pending poll contains every condition behind the wanted events |
| WepollEvents.PolledIsReported | dependency/wepoll/wepoll.c:1730-1770 | every condition that was polled for the wanted events, other than a close, is reported as at least one wanted event |
| WepollEvents.WatchedIffReported | dependency/wepoll/wepoll.c:1713-1770 | for masks with the two events that are always added, a condition is watched exactly if reporting it would tell the user something |
| WepollEvents.MaskTable | dependency/wepoll/wepoll.c:1730-1770 | the kernel is always asked to look for a close, and for exactly the conditions behind the events of a mask; each condition is reported as exactly its events; no other bits occur |
| WepollState.NobodySleeps | dependency/wepoll/wepoll.c:1168-1184 | with an empty update queue every socket in the tree has its poll outstanding, and that poll is cancelled or its kernel mask contains every wanted condition |
| WepollState.LingeringReturns | dependency/wepoll/wepoll.c:1693-1702 | a record that waits to be freed still has its poll outstanding |
| WepollState.CompletionIsHeard | dependency/wepoll/wepoll.c:1834-1887 | a successful completion for conditions behind the wanted events is reported to the user as exactly those wanted events |
| WepollState.HeardIs | dependency/wepoll/wepoll.c:1845-1887 | what a packet tells the user, case by case: nothing of a deleted record, of a cancelled poll, of one without handles or of a close; of a failed poll the error event, of any other the events of its conditions, and of these only what is wanted |
| WepollState.AskedOrWatched | dependency/wepoll/wepoll.c:1713-1728 | a mask that needs no update request belongs to a pending poll that covers it |
| WepollState.SizesSum | dependency/wepoll/wepoll.c:994-1024 | the sizes of all poll groups add up to the number of unfreed socket records |
| WepollState.AllFull | dependency/wepoll/wepoll.c:994-1006 | because full groups come first in the queue, a full last group means that every group is full |
| WepollState.FillQueue | dependency/wepoll/wepoll.c:1008-1009 | moving a group that has become full to the front keeps the full groups a prefix |
| WepollState.ReleaseQueue | dependency/wepoll/wepoll.c:1014-1024 | moving a group that a record has left to the end keeps the full groups a prefix |
| WepollState.AcquireQueue | dependency/wepoll/wepoll.c:1006-1011 | a group that does not fill up may stay last |
| WepollState.StartPoll | dependency/wepoll/wepoll.c:1797-1823 | a record that is idle has no poll outstanding, so submitting one never makes two |
| WepollState.EndPoll | dependency/wepoll/wepoll.c:1840-1842 | when its packet is fed back, a record is idle and nothing of it is outstanding |
| WepollState.PutBack | dependency/wepoll/wepoll.c:1191-1207 | packets that threads hold belong to distinct outstanding polls, also while a thread feeds them back one by one |
| WepollState.TakePackets | dependency/wepoll/wepoll.c:1216-1231 | a thread that is given packets of distinct outstanding polls which nobody else holds keeps that true |
| WepollState.FreeRecord | dependency/wepoll/wepoll.c:1690-1697 | freeing a record marked for deletion keeps the tree and the poll bookkeeping consistent; if it is idle, no outstanding poll is lost |
| WepollState.EmptyPort | dependency/wepoll/wepoll.c:1137-1160 | without records the tree and both queues are empty |
| WepollPort.Port.constructor | dependency/wepoll/wepoll.c:1086-1114 | a new port satisfies the invariant, with no socket and nobody waiting |
| WepollPort.Port.NobodySleeps | dependency/wepoll/wepoll.c:1241-1310 | while some thread waits, and unless the last walk of the update queue was refused a request, every socket in the tree has its poll outstanding, which covers what is wanted or has been cancelled; `WepollRuns.StepFaulted` says exactly when that flag is set |
| WepollPort.Port.NothingDangles | dependency/wepoll/wepoll.c:1676-1703 | every outstanding poll and every packet in a thread's hands belongs to a record that is not freed; a record marked for deletion is in the deleted queue, in no other, not in the tree, and its poll is outstanding |
| WepollPort.Port.GroupsAddUp | dependency/wepoll/wepoll.c:946-1024 | group sizes lie between 0 and 32 and add up to the number of unfreed records |
| WepollPort.Port.Requeue | dependency/wepoll/wepoll.c:1412-1418 | asking for an update of a live record appends it to the update queue unless it is there, and keeps the whole invariant |
| WepollPort.Port.PollGroupAcquire | dependency/wepoll/wepoll.c:994-1012 | a new group is used exactly if every existing one holds 32; otherwise the record joins an existing group; full groups stay first and every size counts its records |
| WepollPort.Port.PollGroupRelease | dependency/wepoll/wepoll.c:1014-1024 | one record less is counted and full groups stay first |
| WepollPort.Port.SockCancelPoll | dependency/wepoll/wepoll.c:1623-1633 | a pending poll becomes cancelled with no pending events, or nothing changes if the request is refused |
| WepollPort.Port.Retire | dependency/wepoll/wepoll.c:1679-1688 | the record leaves the tree and the update queue, is marked for deletion, and its poll is cancelled if it was pending and the kernel agrees |
| WepollPort.Port.Free | dependency/wepoll/wepoll.c:1693-1697 | the record's memory and its place in queue and group go; nothing refers to it any more |
| WepollPort.Port.SockDelete | dependency/wepoll/wepoll.c:1676-1703 | the record is freed at once exactly if forced or if no poll of it is outstanding; otherwise it lingers, marked for deletion, in the deleted queue |
| WepollPort.Port.SockSetEvent | dependency/wepoll/wepoll.c:1713-1728 | records what the user wants, with the two events that are always added; a record whose poll does not cover that is queued for an update |
| WepollPort.Port.Submit | dependency/wepoll/wepoll.c:1797-1823 | a poll for exactly the wanted events is outstanding, or nothing has changed |
| WepollPort.Port.SockUpdate | dependency/wepoll/wepoll.c:1772-1829 | fails exactly if the one request it makes is refused, and then changes nothing; else the record leaves the update queue being watched, or is gone exactly if it was idle and its socket is found closed |
| WepollPort.Port.Report | dependency/wepoll/wepoll.c:1863-1887 | the record is queued for its next poll, the user is told the wanted events among those reported, and a one-shot record then wants nothing |
| WepollPort.Port.SockFeedEvent | dependency/wepoll/wepoll.c:1834-1887 | the poll is no longer outstanding; the user is told, and the records, tree, queue and polls become, what `WepollState.HeardIs` and `WepollBooks.FedIs` say case by case; keeps the invariant |
| WepollPort.Port.UpdateEvents | dependency/wepoll/wepoll.c:1168-1184 | for all answers of the kernel, the walk does what the updates do one after the other, up to the first refused request; it says so, and so does the flag; it ends |
| WepollPort.Port.FeedEvents | dependency/wepoll/wepoll.c:1191-1207 | the events returned are, in order, those that the packets mean for the records as they were; records, tree, queue and outstanding polls are what the packets, one after the other, leave of them |
| WepollPort.Port.Poll | dependency/wepoll/wepoll.c:1209-1221 | the thread waits, with an empty update queue, exactly if no request is refused |
| WepollPort.Port.UpdateIfPolling | dependency/wepoll/wepoll.c:1186-1189 | the walk is made exactly if somebody waits, and the invariant of the free lock holds again |
| WepollPort.Port.BeginWait | dependency/wepoll/wepoll.c:1241-1284 | critical section of entering the wait: for all answers of the kernel the exact new state; the thread waits exactly if none of its requests is refused; keeps the invariant |
| WepollPort.Port.Arrive | dependency/wepoll/wepoll.c:1223-1231 | packets reach a thread that has not got the lock back yet: the invariant holds |
| WepollPort.Port.FinishWait | dependency/wepoll/wepoll.c:1233-1239 | the thread stops counting as waiting and feeds its packets back |
| WepollPort.Port.Resume | dependency/wepoll/wepoll.c:1231-1310 | critical section of coming back: returns what its packets mean; polls again exactly if that is nothing and time remains; for all answers of the kernel the exact new state; keeps the invariant |
| WepollPort.Port.SockNew | dependency/wepoll/wepoll.c:1635-1674 | succeeds exactly if the socket is valid and new and a group and memory are to be had; then there is one new idle record in the tree, in a group that has room; otherwise the books are unchanged; a group is made only if every existing one is full |
| WepollPort.Port.AddRecord | dependency/wepoll/wepoll.c:1652-1664 | a fresh record in a counted group joins the tree and keeps every invariant |
| WepollPort.Port.CtlAdd | dependency/wepoll/wepoll.c:1319-1334 | critical section: succeeds exactly under the same conditions; then the record is in the tree and wants what was asked, and the kernel is brought up to date if somebody waits, exactly; keeps the invariant |
| WepollPort.Port.CtlMod | dependency/wepoll/wepoll.c:1336-1349 | critical section: fails exactly if the socket is unknown; else the record wants what was asked and the kernel is brought up to date if somebody waits, exactly; keeps the invariant |
| WepollPort.Port.CtlDel | dependency/wepoll/wepoll.c:1351-1359 | critical section: the socket is forgotten at once; its record is freed exactly if its poll was not outstanding, and lingers otherwise; nothing else changes; keeps the invariant |
| WepollPort.Port.PortDelete | dependency/wepoll/wepoll.c:1137-1166 | every record is freed, every group is unused when it is deleted, and the update queue is empty as asserted |
| WepollBooks.WalkIs | dependency/wepoll/wepoll.c:1168-1184 | a walk amounts to this, for all answers: of the records up to the first refused one, exactly those whose sockets are found closed go, from the records and the tree, every idle one gets a poll for what is wanted, a poll that does not cover that is cancelled, and all others stay |
| WepollBooks.WalkFails | dependency/wepoll/wepoll.c:1168-1184 | a walk fails if and only if some queued record needs a request that the kernel refuses |
| WepollBooks.WalkKeepsUsers | dependency/wepoll/wepoll.c:1772-1829 | a walk changes nothing that a user has asked for |
| WepollBooks.FeedTree | dependency/wepoll/wepoll.c:1834-1887 | feeding packets takes out of the tree exactly the live sockets that a packet says were closed |
| WepollBooks.FedOrderly | dependency/wepoll/wepoll.c:1834-1887 | feeding a packet keeps tree, queue and polls in order |
| WepollBooks.FedIs | dependency/wepoll/wepoll.c:1834-1887 | feeding a packet, case by case: a deleted record, or one whose socket was closed, goes; any other is idle and queued and wants what it wanted, but nothing if it is one-shot and the user was told something; an aborted packet, or one without handles, changes nothing that is wanted |
| WepollBooks.WalkCases | dependency/wepoll/wepoll.c:1772-1829 | what a walk that is not cut short makes of every record: a poll that covers what is wanted, or is being cancelled, is left alone, one that does not is cancelled, an idle record gets a poll for exactly what is wanted or goes if its socket is closed, a record that is not queued stays as it is |
| WepollBooks.WalkCutShort | dependency/wepoll/wepoll.c:1168-1184 | a walk is cut short exactly if the poll of a queued idle record, or the cancelling of a queued pending poll that does not cover what is wanted, is refused |
| WepollBooks.DeletedCases | dependency/wepoll/wepoll.c:1676-1703 | an idle record is freed, any other lingers with its poll, which is cancelled if it was pending and that was granted; its socket and its place in the update queue go at once; nothing else changes |
| WepollBooks.EventSetCases | dependency/wepoll/wepoll.c:1713-1728 | what is asked for is recorded with the two events that are always wanted, and the record is queued exactly if it was or its pending poll does not cover that |
| WepollRuns.TakeStep | dependency/wepoll/wepoll.c:1209-1359 | every critical section, whatever Windows answers, leads to exactly the state that the step relation says, and returns what it says |
| WepollRuns.StepWants | dependency/wepoll/wepoll.c:1319-1349 | a socket that was added or modified is in the port with what was asked, if it is there at all |
| WepollRuns.StepTree | dependency/wepoll/wepoll.c:1209-1359 | one step: a socket is in the port if it was or is added, unless it is deleted or found closed |
| WepollRuns.InPortIff | dependency/wepoll/wepoll.c:1209-1359 | in every state of every run the port has exactly the sockets that were added and since then neither deleted nor found closed |
| WepollRuns.StepFaulted | dependency/wepoll/wepoll.c:1168-1189 | the flag is set exactly if the last walk was refused a request |
| WepollRuns.NobodyEverSleeps | dependency/wepoll/wepoll.c:1168-1317 | in a run in which the kernel refuses nothing every socket is monitored in every state in which some thread waits |
| WepollRuns.Run | dependency/wepoll/wepoll.c:1209-1388 | for any number of threads, any order of critical sections and arriving packets and all answers of the kernel: the states of the code are a run of the step relation, and in each of them no socket sleeps unmonitored unless the last walk was refused, every outstanding poll and packet belongs to a live record, and no group is too large |
| WepollReports.HeardAllIs | dependency/wepoll/wepoll.c:1191-1207 | a batch of packets tells the user what each has to tell of its record, in their order and nothing else |
| WepollReports.StepKept | dependency/wepoll/wepoll.c:1209-1359 | in one step, whoever takes it, nothing but modifying the socket, or telling its user something, changes what is wanted of a socket that stays in the port |
| WepollReports.WantsLastAsked | dependency/wepoll/wepoll.c:1713-1887 | in every run a socket wants exactly the events and has the data it was last asked for, with the two events that are always added; only a one-shot socket wants nothing from when its user was told something until it is modified |
| WepollReports.OneShotOnce | dependency/wepoll/wepoll.c:1877-1881 | in every run the user of a one-shot socket is told something of it at most once until it is modified |
| Reflock.Epoll.Create | dependency/wepoll/wepoll.c:1915-1923 | a new port enters the table with no references |
| Reflock.Epoll.Enter | dependency/wepoll/wepoll.c:1950-1962 | a reference is taken exactly if the handle is in the table; the port has not been freed and the assertion on the count holds |
| Reflock.Epoll.Leave | dependency/wepoll/wepoll.c:1562-1570 | the reference goes; the thread releases the event exactly if the port is being destroyed and it was the last; the assertion holds |
| Reflock.Epoll.Close | dependency/wepoll/wepoll.c:1934-1948 | the handle leaves the table for good and its closer holds a reference; only one thread gets it |
| Reflock.Epoll.Destroy | dependency/wepoll/wepoll.c:1572-1583 | the closer waits exactly if some thread is still inside the port; the assertion holds |
| Reflock.Epoll.Signal | dependency/wepoll/wepoll.c:1540-1552 | the last thread out and the waiting closer meet at the event and both go on |
| Reflock.Epoll.Poison | dependency/wepoll/wepoll.c:1582-1585 | the state is exactly the destroy flag when it is exchanged, as asserted |
| Reflock.Epoll.Delete | dependency/wepoll/wepoll.c:591-611 | the port is freed when nobody holds or can get a reference to it |
| Reflock.NobodyElse | dependency/wepoll/wepoll.c:591-611 | when a port is about to be freed, no other thread is in it, signals or closes it, and no handle leads to it |
| Reflock.Woken | dependency/wepoll/wepoll.c:1562-1585 | a waiting closer has either threads still inside or exactly one that is about to signal, never both |
| Reflock.ReleaseIsAwaited | dependency/wepoll/wepoll.c:1562-1585 | a thread that releases the event finds a closer that awaits it |
| Reflock.DestroyOk | dependency/wepoll/wepoll.c:1572-1580 | the count left by the closer is not zero exactly if some thread is inside |
| Reflock.EnterOk | dependency/wepoll/wepoll.c:1554-1560 | taking a reference keeps the counts of all ports exact |
| Reflock.LeaveOk | dependency/wepoll/wepoll.c:1562-1570 | giving one back keeps the counts of all ports exact |
| Reflock.StepSound | dependency/wepoll/wepoll.c:1540-1585 | every step of every thread keeps all counts exact |
| Reflock.RunSound | dependency/wepoll/wepoll.c:591-681 | in every state of every run, for fewer than 2^28 threads in any interleaving: no thread is concerned with a freed port and no handle leads to one |
| Reflock.Run | dependency/wepoll/wepoll.c:1520-1585 | the code runs like that: the states it goes through are those of the step function, and the assertions on the counts hold |
| RingIndex.SlotInjective | include/zrsocket/event_type_queue.h:835-835 | different tickets of a window of at most the capacity, a power of two, have different slots under the bit mask |
| RingIndex.SlotPeriodic | include/zrsocket/event_type_queue.h:835-835 | a whole turn comes back to the same slot |
| RingIndex.SlotInBounds | include/zrsocket/event_type_queue.h:835-835 | the masked index lies in the buffer |
| MpmcRing.NextCounted | include/zrsocket/event_type_queue.h:823-886 | every single step of either retry loop keeps min_write <= read <= max_read <= write <= min_write + capacity, max_read + pushers between claim and publish = write, min_write + poppers between claim and release = read, and no ticket is held twice; `RingProgress` says when steps go through |
| MpmcRing.RunCounted | include/zrsocket/lockfree_queue.h:147-233 | the same in every state of every run, for any number of threads, with the retry loops as written or in ticket order |
| MpmcRing.SafeIffCareful | include/zrsocket/event_type_queue.h:840-842 | from a safe state a step leads to a safe one exactly if it does not publish a ticket whose event is not copied yet nor release one that is still being handled |
| MpmcRing.RunSafeIffCareful | include/zrsocket/event_type_queue.h:823-886 | a run, as written, keeps every live event in its slot throughout exactly if all its steps are careful in that sense |
| MpmcDelivery.DeliveredIffTimely | include/zrsocket/event_type_queue.h:823-886 | in any run of either version in which no two events are equal: every consumer has been given what was pushed under its ticket if and only if each slot was handed out while the event last copied into it was that of the ticket |
| MpmcDelivery.TimelyDelivers | include/zrsocket/event_type_queue.h:823-886 | one half of this also holds if events are equal |
| SlotTraces.SlotsHoldLast | include/zrsocket/event_type_queue.h:834-836 | in any run a slot holds the event last copied into it, or what it held from the start |
| MpmcDelivery.UnwrittenIsUntimely | include/zrsocket/event_type_queue.h:840-842 | handing out a ticket whose event is still to be copied is never timely |
| MpmcDelivery.CarelessButRight | include/zrsocket/event_type_queue.h:840-842 | a run that publishes a ticket too early and yet delivers both events rightly |
| MpmcRing.OrderedRunSafe | include/zrsocket/event_type_queue.h:823-886 | if tickets are published and released in ticket order, every state of every run is safe |
| MpmcRing.OwnIsCareful | include/zrsocket/event_type_queue.h:840-842 | a thread that publishes or releases its own ticket is always careful |
| MpmcRing.DeliveredIsPushed | include/zrsocket/event_type_queue.h:852-886 | in a safe state every consumer was given exactly the event that was pushed under its ticket |
| MpmcRing.NoLiveSlotOverwritten | include/zrsocket/event_type_queue.h:833-868 | in a safe state a producer that copies never touches the slot of an event that is being handled, and that slot holds the right event |
| MpmcRing.WriteSafe | include/zrsocket/event_type_queue.h:834-836 | copying an event disturbs no other live slot |
| MpmcRing.HandleSafe | include/zrsocket/event_type_queue.h:864-870 | the handler is given what was pushed under the ticket |
| MpmcRing.WrongEventDelivered | include/zrsocket/event_type_queue.h:840-842 | a reachable run of the code as written in which a retry publishes another thread's ticket and a consumer is given an event that was never pushed under it |
| RingVariants.MpscRefines | include/zrsocket/event_type_queue.h:677-723 | every step of the queue with one consumer is one or two moves of the queue with many |
| RingVariants.MpscRunSafe | include/zrsocket/lockfree_queue.h:295-375 | so its runs keep the counts, and with ordered publication deliver every ticket's event |
| RingVariants.SpmcRefines | include/zrsocket/event_type_queue.h:984-1031 | every step of the queue with one producer is one or two moves of the queue with many |
| RingVariants.SpmcRunSafe | include/zrsocket/lockfree_queue.h:425-490 | so its runs keep the counts, and with ordered release deliver every ticket's event |
| RingVariants.MpscEnabledIff | include/zrsocket/event_type_queue.h:677-723 | with one consumer exactly those steps are possible that are with many |
| RingVariants.SpmcEnabledIff | include/zrsocket/event_type_queue.h:984-1031 | with one producer exactly those steps are possible that are with many |
| RingProgress.PushAlone | include/zrsocket/event_type_queue.h:823-834 | from any state with right counts: a push that runs alone has its event at the end of the queue after three moves if and only if write < min_write + capacity; otherwise nothing has changed |
| RingProgress.PushBlocked | include/zrsocket/lockfree_queue.h:147-172 | while the queue is full, a push that runs alone changes nothing, however often it tries |
| RingProgress.FailureRetries | include/zrsocket/event_type_queue.h:823-886 | a compare-and-swap that fails without cause changes nothing shared: a claim begins again, a ticket is still to be published or released |
| RingProgress.CopyAlone | include/zrsocket/event_type_queue.h:836-838 | the event is copied into the slot of its ticket and nowhere else |
| RingProgress.PublishAlone | include/zrsocket/event_type_queue.h:840-842 | in ticket order a producer that runs alone publishes exactly if its ticket is the next one, and else stays; as written it always publishes some ticket within two moves |
| RingProgress.WholePush | include/zrsocket/event_type_queue.h:823-845 | with room and no other push on the way, five moves copy and publish the event |
| RingProgress.PopAlone | include/zrsocket/event_type_queue.h:852-882 | a pop that runs alone has taken the oldest ticket after three moves if and only if read < max_read; otherwise it has found the queue empty after two and changed nothing |
| RingProgress.HandleAlone | include/zrsocket/event_type_queue.h:867-871 | the handler is given what is in the slot of the ticket |
| RingProgress.ReleaseAlone | include/zrsocket/event_type_queue.h:873-875 | the same of releasing as of publishing |
| RingProgress.WholePop | include/zrsocket/event_type_queue.h:852-877 | in a safe state, with a published event and no other pop on the way, five moves give the handler the oldest event and free its slot |
| RingProgress.MpscPushAlone | include/zrsocket/event_type_queue.h:677-690 | with one consumer: a push that runs alone has its event at the end of the queue after three steps if and only if write < read + capacity |
| RingProgress.MpscFillAlone | include/zrsocket/event_type_queue.h:690-698 | and copies and publishes it in two more, with no other push on the way |
| RingProgress.MpscPopAlone | include/zrsocket/event_type_queue.h:706-723 | the one consumer pops, and is given what is in the oldest slot, if and only if the oldest ticket is published; otherwise nothing has changed |
| RingProgress.SpmcPushAlone | include/zrsocket/event_type_queue.h:984-995 | the one producer pushes its event if and only if a slot is free; otherwise nothing has changed |
| RingProgress.SpmcPopAlone | include/zrsocket/event_type_queue.h:997-1031 | a pop that runs alone takes the oldest ticket if and only if there is one |
| RingProgress.SpmcDrainAlone | include/zrsocket/event_type_queue.h:1011-1022 | its handler is given what is in the slot, which is free again with no other pop on the way |
| VariantDelivery.MpscSafeIffCareful | include/zrsocket/event_type_queue.h:677-723 | with one consumer, as written: from a safe state a step leads to a safe one exactly if it does not publish a ticket whose event is not copied yet |
| VariantDelivery.MpscDeliveredIffTimely | include/zrsocket/event_type_queue.h:677-723 | with one consumer, as written or ordered: if no two events are equal, every event is delivered under its ticket if and only if each slot was looked at while the event last copied into it was that of the ticket |
| VariantDelivery.MpscWrongEvent | include/zrsocket/event_type_queue.h:695-696 | a reachable run as written in which the consumer is given an event that was never pushed under its ticket |
| VariantDelivery.SpmcSafeIffCareful | include/zrsocket/event_type_queue.h:984-1031 | with one producer, as written: exactly if it does not release a ticket that is still being handled |
| VariantDelivery.SpmcDeliveredIffTimely | include/zrsocket/event_type_queue.h:984-1031 | with one producer: the same condition for delivery |
| VariantDelivery.SpmcWrongEvent | include/zrsocket/event_type_queue.h:1019-1020 | a reachable run as written in which the producer overwrites an event that a consumer is about to handle |
| SpscQueue.Queue.PushCheck | include/zrsocket/event_type_queue.h:441-447 | push finds no room exactly if the queue is full at that moment |
| SpscQueue.Queue.PushCopy | include/zrsocket/event_type_queue.h:558-565 | copying the event disturbs nothing that is queued |
| SpscQueue.Queue.PushPublish | include/zrsocket/lockfree_queue.h:53-64 | storing the write index appends the event to the queue |
| SpscQueue.Queue.PopCheck | include/zrsocket/event_type_queue.h:456-459 | pop finds nothing exactly if the queue is empty at that moment |
| SpscQueue.Queue.PopHandle | include/zrsocket/event_type_queue.h:573-582 | the handler is given the oldest event |
| SpscQueue.Queue.PopRelease | include/zrsocket/lockfree_queue.h:81-96 | storing the read index removes the oldest event from the queue |
| SpscQueue.Queue.EventInHand | include/zrsocket/event_type_queue.h:455-470 | whatever the producer does, an event in the consumer's hands stays in its slot until it is released |
| SpscQueue.Run | include/zrsocket/event_type_queue.h:441-470 | however producer and consumer take turns, access by access, the queue with its slots does what a list does, and what the handler is given for a ticket is what was pushed under it |
| RingIndex.CopyElsewhere | include/zrsocket/event_type_queue.h:441-447 | the next free slot is none of those that hold queued events |
| DoubleBuffer.Buffer.Push | include/zrsocket/event_type_queue.h:157-168 | appends unless the buffer is full |
| DoubleBuffer.Buffer.Pop | include/zrsocket/event_type_queue.h:170-199 | removes the oldest event and leaves it untouched in its slot |
| DoubleBuffer.DoubleBufferQueue.Push | include/zrsocket/event_type_queue.h:68-75 | active contents followed by standby contents are one queue: push appends to it, or is refused exactly if the standby buffer is full |
| DoubleBuffer.DoubleBufferQueue.Pop | include/zrsocket/event_type_queue.h:77-86 | pop removes the head of that queue if the active buffer has one |
| DoubleBuffer.DoubleBufferQueue.SwapBuffer | include/zrsocket/event_type_queue.h:90-101 | swapping on an empty active buffer preserves the queue and succeeds exactly if it is not empty |
| DoubleBuffer.DoubleBufferQueue.PushAll | include/zrsocket/event_type_queue.h:68-75 | of several pushes the first ones are accepted, as many as there is room for |
| DoubleBuffer.Turn | include/zrsocket/event_loop_queue.h:35-45 | one turn of the loop, with producers pushing before and after the pop: the head is handled exactly if the active buffer has one, otherwise the buffers are swapped exactly if anything is queued; what is accepted is what fits; the popped event is still intact when its type is read |
| DoubleBuffer.LoopInOrder | include/zrsocket/event_loop_queue.h:32-50 | handled events and what is left are what was queued and what was accepted meanwhile, in this order; at least every second turn handles an event; the loop ends early only at a quit event or when nothing is queued |
| DoubleBuffer.Loop | include/zrsocket/event_loop_queue.h:32-50 | for any pushes at any point of any turn the loop does what its turns do one after the other, so none is lost, none handled twice and none overtaken |
| Http.FeedConcat | include/zrsocket/http_request_handler.h:174-374 | feeding two pieces of a stream one after the other is feeding them together |
| Http.ChunksDoNotMatter | include/zrsocket/http_request_handler.h:174-374 | however a stream is cut, the messages delivered, the place of an error and the state left are the same |
| Http.FeedBodyEnd | include/zrsocket/http_request_handler.h:345-364 | the bytes that complete a body deliver the message with the whole body |
| HttpLaws.Accounted | include/zrsocket/http_request_handler.h:174-374 | for all bytes, from a new parser of either side: the bytes taken are those of whole messages from the first byte on, each a header of fewer than maxHeaderLength bytes and a body, and of the beginning of one more |
| HttpLaws.DeliveredFit | include/zrsocket/http_request_handler.h:307-325 | for all bytes: every message delivered has a body of exactly the announced length, which is at most maxBodyLength |
| HttpLaws.BlankLine | include/zrsocket/http_request_handler.h:307-330 | at the LF of the blank line: a negative announced length or one above the limit breaks the stream there with nothing delivered, one of 0 delivers the message, any other begins the body |
| HttpLaws.HeadersDecide | include/zrsocket/http_request_handler.h:267-330 | the same for the text of any header lines, of each name the first |
| HttpLaws.RefusedRequest | include/zrsocket/http_request_handler.h:307-317 | a request whose headers announce a negative length, or one above the limit, breaks the stream at the LF of its blank line, and nothing is delivered whatever follows |
| HttpLaws.RefusedResponse | include/zrsocket/http_response_handler.h:208-218 | the same of a response |
| HttpLaws.AnnouncedLength | include/zrsocket/http_common.h:288-301 | the length that the headers announce is the number, or the negative number, in the first line that gives one |
| HttpLaws.AtoiReads | include/zrsocket/http_common.h:292-292 | blanks of the six kinds, a sign perhaps, and the digits of a number are read as that number, whatever follows |
| HttpLaws.AtoiNothing | include/zrsocket/http_common.h:292-292 | without digits the length is 0 |
| HttpLaws.MethodWord | include/zrsocket/http_request_handler.h:192-207 | a request begins with one of the eight methods, or breaks at the blank behind its first word |
| HttpLaws.VersionWord | include/zrsocket/http_request_handler.h:216-233 | a version is one of the three, or the stream breaks behind it |
| HttpLaws.AfterCr | include/zrsocket/http_request_handler.h:234-264 | nothing but an LF may follow a CR that ends a line |
| HttpLaws.TooLong | include/zrsocket/http_request_handler.h:186-189 | a header that has not ended breaks the stream at the byte that reaches maxHeaderLength |
| HttpLaws.NothingElseBreaks | include/zrsocket/http_request_handler.h:186-330 | no other byte of a header breaks the stream, and none but its last delivers anything |
| HttpDecoder.Decoder.constructor | include/zrsocket/http_request_handler.h:134-149 | a decoder starts in the initial state of its side |
| HttpDecoder.Decoder.DecodeReset | include/zrsocket/http_request_handler.h:152-172 | the handler is given the message; unless it objects, decoding starts afresh |
| HttpDecoder.Decoder.DecodeBody | include/zrsocket/http_request_handler.h:344-368 | whether the body is taken from the data without a copy or collected in the buffer, what is delivered is the same as byte by byte |
| HttpDecoder.Decoder.Decode | include/zrsocket/http_request_handler.h:174-374 | decoding any data from any reachable state delivers the messages, breaks off at the byte and leaves the state that the byte-by-byte specification gives, of which `HttpLaws` says what it delivers and what it refuses |
| HttpDecoder.DecodeChunks | include/zrsocket/http_response_handler.h:84-276 | any sequence of chunks gives the same deliveries, the same error position and the same final state as their concatenation, for requests and for responses |
| HttpRoundTrip.StartLineFed | include/zrsocket/http_common.h:348-365 | the encoded request line is decoded to its method, uri and version |
| HttpRoundTrip.LinesFed | include/zrsocket/http_common.h:367-373 | the encoded header lines are decoded to the headers |
| HttpRoundTrip.LengthReadsBack | include/zrsocket/http_common.h:288-301 | a length written in decimal behind one blank is read back by atoi |
| HttpRoundTrip.ReceivedIsSent | include/zrsocket/http_common.h:367-373 | every name comes back with the value of its first line behind one blank |
| HttpRoundTrip.AnnouncedIs | include/zrsocket/http_common.h:375-392 | a length line is printed exactly if the body or the given length is not empty, for the greater of the two, and never by a HEAD request |
| HttpRoundTrip.RoundTrip | include/zrsocket/http_common.h:348-406 | an encoded request is decoded as one message, no byte left over, with the same method, version and body, the same uri if and only if it has no NUL, every header value behind one blank, and the length of a non-empty body added; nothing else is among the headers |
| HttpRoundTrip.UriSurvives | include/zrsocket/http_common.h:355-361 | what arrives as the uri is the uri if and only if there is no NUL in it |
| HttpResponseRoundTrip.StatusLineFed | include/zrsocket/http_common.h:444-459 | the encoded status line is decoded to its version, status and reason |
| HttpResponseRoundTrip.ResponseRoundTrip | include/zrsocket/http_common.h:444-496 | an encoded response is decoded as one message with the same version, status, reason, body and headers, and its length, which is announced even if it is 0 |
| HttpResponseEncoder.EncodeResponseHeaders | include/zrsocket/http_common.h:444-487 | the buffer holds the encoded status line and headers, or only the length line if fewer than 32 bytes are spare for it |
| HttpResponseEncoder.EncodeResponse | include/zrsocket/http_common.h:489-500 | the buffer holds the encoded response if and only if the length is 0 or 32 bytes are spare behind the header lines; otherwise it holds the length line and the body alone |
| HttpResponseEncoder.ResponseLengthLost | include/zrsocket/http_common.h:470-479 | a response for which fewer are spare |
| ByteBuffer.Buffer.Reserve | include/zrsocket/byte_buffer.h:297-323 | owned memory that is large enough is kept with its data; otherwise there is new owned memory of that size and the data is lost |
| ByteBuffer.Buffer.Write | include/zrsocket/byte_buffer.h:331-355 | the bytes come behind the data, the memory growing by the stated amount if needed; a buffer that does not own its memory refuses |
| ByteBuffer.Buffer.Read | include/zrsocket/byte_buffer.h:424-442 | the bytes read and the data left are the data before; it fails exactly if there is too little |
| ByteBuffer.Buffer.SetDataEnd | include/zrsocket/byte_buffer.h:264-273 | the end is clamped to the memory and the beginning to the end |
| HttpEncoder.EncodeStartLine | include/zrsocket/http_common.h:351-365 | the request line, its uri printed up to the first NUL, at the front of the buffer |
| HttpEncoder.EncodeLines | include/zrsocket/http_common.h:367-373 | the header lines are appended and the memory grows by the stated amount |
| HttpEncoder.EncodeLength | include/zrsocket/http_common.h:375-388 | the length line is appended if 32 bytes are spare; otherwise the data before it is lost |
| HttpEncoder.Encode | include/zrsocket/http_common.h:395-406 | the buffer holds the encoded request if and only if no length is announced or 32 bytes are spare behind the header lines; otherwise it holds the length line and the body alone |
| HttpEncoder.LengthLost | include/zrsocket/http_common.h:375-388 | a request for which fewer are spare |
| HttpEncoder.UriCut | include/zrsocket/http_common.h:355-361 | a request whose uri is cut |
| HttpEncoder.SendAndReceive | include/zrsocket/http_request_handler.h:174-374 | encoding into a buffer and decoding its contents gives the handler the request |
| Framing.ParseMore | include/zrsocket/length_field_message_handler.h:113-197 | parsing a stream continues where it stood when more bytes come |
| Framing.ParseConserves | include/zrsocket/length_field_message_handler.h:113-197 | the delivered messages one after the other and the bytes left over are the bytes consumed, and what is left over is shorter than a head or than its message, which is at most the maximum |
| Framing.ParseWhole | include/zrsocket/length_field_message_handler.h:113-197 | whole messages that tell their own lengths, one after the other, are delivered as they are |
| Framing.ParseRest | include/zrsocket/length_field_message_handler.h:122-191 | what follows them waits while it is incomplete, and is refused exactly if it tells a length of 0 or above the limit or the handler objects |
| LengthFieldDecoder.Decoder.FromData | include/zrsocket/length_field_message_handler.h:122-152 | a message wholly in the data is delivered from there; a bad length is refused |
| LengthFieldDecoder.Decoder.CompleteHead | include/zrsocket/length_field_message_handler.h:174-191 | a buffered head is completed and its length read or refused |
| LengthFieldDecoder.Decoder.CompleteMessage | include/zrsocket/length_field_message_handler.h:154-173 | a buffered message is completed and delivered; with a length below what is buffered the unsigned difference wraps and it is stuck |
| LengthFieldDecoder.Decoder.Decode | include/zrsocket/length_field_message_handler.h:113-197 | what has been delivered and what is buffered always parses on like the whole stream; everything complete has been delivered if and only if the call does not complete a buffered head with a length below the head's, or equal to it at the end of the data; the loop ends although one step consumes no byte |
| LengthFieldDecoder.DecodeChunks | include/zrsocket/length_field_message_handler.h:113-197 | if every length is above the head's size, any chunking delivers the same messages, refuses the same streams and leaves the same bytes as the whole; the buffer stays below the maximum or the head |
| LengthFieldDecoder.CuttingTheHead | include/zrsocket/length_field_message_handler.h:154-191 | for a given message, cutting its head in two makes a difference if and only if the head has more than one byte and the length is below it, or equal to it with nothing following |
| LengthFieldDecoder.NeverDelivered | include/zrsocket/length_field_message_handler.h:154-191 | two bytes that give a message when they come at once, and leave the decoder stuck when they come apart |
| LengthFieldDecoder.DecodeStuck | include/zrsocket/length_field_message_handler.h:154-173 | a decoder stuck with such a length never delivers again and only buffers |
| LengthFieldDecoder.FixedDecoder.Decode | include/zrsocket/fixed_length_message_handler.h:61-117 | messages of a fixed positive length are delivered as from the whole stream, whatever is buffered |
| LengthFieldDecoder.DecodeFixedChunks | include/zrsocket/fixed_length_message_handler.h:61-117 | any chunking gives the same messages and the same rest |
| SendQueue.Handler.Send | include/zrsocket/message_handler.h:159-222 | both overloads, for every amount the socket takes: data is refused exactly if a direct send broke, a direct send is made exactly if nothing is queued, and wire, queued bytes and accepted bytes grow by just what was sent, kept and accepted |
| SendQueue.SuccessSendsAll | include/zrsocket/message_handler.h:159-222 | a send that reports success leaves nothing unsent: all accepted bytes are on the wire |
| SendQueue.Handler.WriteBegin | include/zrsocket/message_handler.h:278-308 | the standby queue becomes active exactly if the active one is empty, without changing the byte stream; nothing to do exactly if both are empty |
| SendQueue.Handler.WriteSend | include/zrsocket/message_handler.h:309-351 | a prefix of the gathered pieces goes onto the wire, and the result says failure exactly if the socket is broken, and success exactly if it took all of them |
| SendQueue.Handler.WriteTake | include/zrsocket/message_handler.h:320-333 | one turn of the loop takes sent bytes off the front: a whole piece or a part of it |
| SendQueue.TakeFirst | include/zrsocket/message_handler.h:320-333 | taking n bytes off the first piece leaves the queue's bytes without their first n, or n less the size of the piece still to take |
| SendQueue.HandleWrite | include/zrsocket/message_handler.h:278-351 | a call from beginning to end writes exactly what the socket takes of the first pieces; it reports no data exactly if nothing is queued, failure exactly if the socket is broken, success exactly if it takes all it is offered, and a part exactly if it takes less or would block; it ends |
| SendQueue.Run | include/zrsocket/message_handler.h:159-351 | however senders and the loop take turns, after every step the bytes on the wire followed by the unsent ones are the accepted bytes, which are the data of the sends that were not refused, in lock order; each step moves exactly the bytes that the socket took |
| SendQueue.SendReports | include/zrsocket/message_handler.h:159-222 | in every run: a send is refused exactly if nothing was queued and the socket broke under a direct send, and then adds nothing; after one that succeeds, and after a loop that finds nothing to do, no byte is unsent |
| SendQueue.LoopReports | include/zrsocket/message_handler.h:278-351 | in every run: the loop is told of a failure exactly when it finds the socket broken, of no data exactly when nothing is queued, of success exactly when the socket took all it was offered; the wire grows by just what the socket took |
| TimerList.Timer.Init | include/zrsocket/timer.h:32-43 | a timer that no queue holds is reset and points to itself; one that is held is not touched |
| TimerList.List.PushFront | include/zrsocket/timer.h:157-170 | the links represent the timer followed by the old sequence |
| TimerList.List.PushBack | include/zrsocket/timer.h:172-185 | the links represent the old sequence followed by the timer |
| TimerList.List.PopFront | include/zrsocket/timer.h:187-196 | the links represent the old sequence without its first |
| TimerList.List.PopBack | include/zrsocket/timer.h:198-208 | the links represent the old sequence without its last |
| TimerList.List.InsertBefore | include/zrsocket/timer.h:211-224 | the timer stands before the given one |
| TimerList.List.InsertAfter | include/zrsocket/timer.h:227-240 | the timer stands after the given one |
| TimerList.List.Remove | include/zrsocket/timer.h:242-262 | the timer leaves the sequence; if its queue has let go of it, its interval becomes 0 |
| TimerQueue.TimerQueue.AddTimer | include/zrsocket/timer_queue.h:31-48 | arms exactly an enabled timer that is not armed, for now plus its interval, and keeps every list sorted and every armed timer in exactly the list of its interval |
| TimerQueue.TimerQueue.DeleteTimer | include/zrsocket/timer_queue.h:50-66 | disarms exactly an armed timer, which loses its interval, and keeps the lists in order |
| TimerQueue.TimerQueue.CollectList | include/zrsocket/timer_queue.h:73-83 | takes the due timers off the front of a list, in the order in which they expire, and leaves none that is due in it |
| TimerQueue.NoneDue | include/zrsocket/timer_queue.h:73-83 | if the first timer of a list is not due, none in it is |
| TimerQueue.TimerQueue.Loop | include/zrsocket/timer_queue.h:68-100 | fires exactly the armed timers whose time has come, each once, by ascending interval and those of one interval in the order in which they expire; afterwards one of these is armed exactly if it repeats and is enabled, for now plus its interval; no other timer changes, and no interval, kind or enabling does; the lists stay sorted |
| TimerQueue.TimerQueue.Size | include/zrsocket/timer_queue.h:140-147 | the sizes of the lists add up to the number of armed timers |
| TimerRuns.Run | include/zrsocket/timer_queue.h:31-100 | for any order of adding, deleting and passes of the loop with a clock that does not run backwards: the states of the code are a run of the step relation |
| TimerRuns.FiresInTime | include/zrsocket/timer_queue.h:68-100 | in every run: once armed, a timer that is not deleted fires in the first pass made when its interval has gone by and in none before; so one that repeats fires again and again |
| TimerRuns.FiresOnlyArmed | include/zrsocket/timer_queue.h:86-97 | in every run: having fired or been deleted, a timer does not fire before it is armed again, by adding it or, if it repeats and is enabled, by firing; so any other fires at most once for each time it is added |
| TimerRuns.NeverAdded | include/zrsocket/timer_queue.h:31-48 | in every run: a timer that has never been armed does not fire |
| SedaTimers.Queue.constructor | src/seda_timer_queue.cpp:20-37 | all timers of the pool are free |
| SedaTimers.Queue.SetTimer | src/seda_timer_queue.cpp:53-83 | the first free timer is set and placed by its deadline, or appended in the LRU queue; free and active timers partition the pool; the active list stays sorted, in the LRU queue as long as no deadline lies after the new one |
| SedaTimers.PlaceSuits | src/seda_timer_queue.cpp:53-83 | sorted insertion puts a timer behind the last one with an earlier deadline, ahead of those with the same |
| SedaTimers.Queue.CancelTimer | src/seda_timer_queue.cpp:85-95 | an active timer goes back to the free list, blank, and partition, counts and order remain; they remain if and only if the timer is not flagged or has not expired |
| SedaTimers.Queue.UpdateTimer | src/seda_timer_queue.cpp:97-125 | an active timer comes due now, its parameter and interval lost; the lists remain right under the same condition; the sorted queue stays sorted, the LRU queue if and only if no other deadline is later than now |
| SedaTimers.Queue.Expire | src/seda_timer_queue.cpp:127-165 | once the clock has advanced, fires a due prefix of the list; if the list is sorted these are exactly the due timers, by deadline |
| SedaTimers.CancelAnExpiredTimer | src/seda_timer_queue.cpp:85-95 | the only timer of a pool, expired and then cancelled: the free list counts two |
| SedaTimers.UpdateHidesADueTimer | src/seda_timer_queue.cpp:248-262 | an LRU queue in which an updated timer that is due is not fired |
| SedaTimers.AppendIsPlace | src/seda_timer_queue.cpp:218-234 | with no deadline later than the new one, appending gives the same sequence of deadlines as sorted insertion |
| SedaTimers.ExpireBoth | src/seda_timer_queue.cpp:264-302 | an inserting and an appending queue with the same deadlines fire timers of the same deadlines and keep the same |
| SedaTimers.RunBoth | src/seda_timer_queue.cpp:218-302 | in any run of settings and expiries with one interval and a clock that does not run backwards the appending queue has the deadlines of the inserting one, in the same order |
| DataConvert.Digits10IsLength | include/zrsocket/data_convert.h:132-172 | for every 64-bit value the branches give the number of decimal digits |
| DataConvert.TwoDigits | src/data_convert.cpp:618-631 | two digits from the table are the last two of the number |
| DataConvert.Mod100 | src/data_convert.cpp:302-309 | one macro writes the last two digits of the value in place and leaves the value without them |
| DataConvert.ToDecimal | src/data_convert.cpp:616-674 | the loop writes the canonical decimal string of any 64-bit value and a NUL behind it, or nothing if it does not fit |
| DataConvert.ToDecimalUnrolled | src/data_convert.cpp:284-611 | the unrolled form does the same |
| DataConvert.FromDecimal | src/data_convert.cpp:161-184 | reads blanks, at most one plus sign and as many digits as there are, to the exact place behind them, and returns their number reduced to the width of the type |
| DataConvert.NumberReads | src/data_convert.cpp:63-94 | blanks, a plus sign perhaps and the digits of a number are read as that number, whatever follows |
| DataConvert.NumberNothing | src/data_convert.cpp:63-94 | without digits the number is 0 |
| DataConvert.WriteAndRead | src/data_convert.cpp:250-274 | for every 32- and 64-bit unsigned value either form, read back, gives the value |
| DecimalDigits.DecimalLength | include/zrsocket/data_convert.h:109-172 | a number has k digits exactly if it lies between the powers of ten |
| DecimalDigits.DecimalReadsBack | src/data_convert.cpp:63-94 | reading the digits of a number gives the number |

## Left out

- Sockets, files, the AFD and NT calls, clocks and the creation of threads: their results are parameters or chosen freely.
- A call of `epoll_ctl` that adds a socket while another thread closes the port: the new poll group would ask for a completion port that is gone, which the code asserts against.
- WepollPort.Port.PortDelete: assumes, as the reference lock guarantees, that no thread waits; what the kernel still reports to freed records after the completion port is closed is not modelled.
- WepollPort.Port.CtlAdd: addresses of new records and groups are parameters, required not to be in use; which of several groups with room is taken is left open in `WepollRuns`, though the code takes the last.
- The port's tree and queues are a map and sequences in `WepollPort`; `RbTree` and `WepollQueue` show separately that the linked ones behave so.
- `EPOLL_CTL` operations other than add, modify and delete, which are refused without effect, and the wait's arguments and time arithmetic.
- MpmcRing.OrderedRunSafe: is about loops that wait for their own ticket, not about those in the code, for which `RunSafeIffCareful` and `MpmcDelivery.DeliveredIffTimely` have the exact conditions; that a waiting thread gets its turn is not shown.
- The batch `pop` of the plain single-producer queue, and the rounding of capacities with floating-point logarithms.
- DoubleBuffer.Loop: the mutex makes a push or a swap one step; producers push before and after the pop of a turn, handlers do not push.
- `DoublePointerSwapQueue`, which is the double buffer over deques.
- HttpDecoder.Decoder.Decode: a string that has been moved into the headers is taken to be empty, also if its name was there already; `do_message` does not change the message; growing a buffer does not fail.
- HttpRoundTrip.LengthReadsBack: lengths of 2^31 and more, on which atoi is undefined, are read as they are.
- HttpResponseRoundTrip.ResponseRoundTrip: the reason stands for the entry of the table of status descriptions; in `HttpResponseEncoder` the status line is taken to be as short as that makes it.
- `HttpRequestHandler::send`, which writes responses that a handler leaves to it.
- HttpEncoder.Encode: the buffer is empty when encoding begins; fresh memory holds anything.
- ByteBuffer.Buffer.Write: the growth of the memory is computed in 32 bits, so a buffer of more than 42,949,672 bytes grows by less than stated; buffers are taken to be smaller.
- LengthFieldDecoder.Decoder.Decode: buffers stay below 2^31 bytes; the readers of the length field are any function of the head.
- SendQueue.Handler.Send: the overload for several buffers, whose partial sends do not keep the unsent rest, is not modelled; nor are closing, which drops what is queued, and write interest.
- TimerQueue.TimerQueue.Loop: handlers that add or delete timers themselves; timers of other queues; overflow of timestamps.
- The timer queues work on sequences of timers; `TimerList` shows that the linked lists, which those of the SEDA timers repeat, behave so.
- SedaTimers.Queue.CancelTimer: which free timers can still be reached once the lists have been damaged is left open.
- SedaTimers.Queue.Expire: handlers that set, cancel or update timers themselves.
- DataConvert.ToDecimal: the loop's terminator needs one byte beyond the stated length; the undeclared length in it is read as the number of digits; signed and floating-point numbers are not modelled; the digit table is given by its rule.
- The wakeup flag of the event loops, the bookkeeping of `SelectEventLoop`, UDP, logging, pools, `SharedBuffer`, memory primitives.
