/** The polling engine of wepoll: one epoll port, its sockets and the threads that wait on it.

    Every method below runs under the port lock or is part of one that does; the lock is free
    between the methods marked as critical sections.  What Windows answers (out of memory, what becomes
    of each poll or cancel request, which packets arrive) are parameters. */
module WepollPort {
  import opened Basics
  import opened Collections
  import opened WepollEvents
  import opened WepollState
  import opened WepollBooks

  const INVALID_SOCKET: Socket := 0xFFFF_FFFF_FFFF_FFFF

  datatype Result = Done | InvalidHandle | NoBaseSocket | NoGroup | NoMemory | AlreadyExists | NotFound

  // Some group has room for a record.
  ghost predicate Roomy(size: map<Group, nat>) { exists g :: HasRoom(size, g) }

  predicate HasRoom(size: map<Group, nat>, g: Group) { g in size && size[g] < MAX_GROUP_SIZE }

  function Made(made: Option<Group>): set<Group> { if made.Some? then {made.value} else {} }

  // The group that a call to add a socket creates, if it comes to that.
  ghost function Taken(socket: Socket, hasBase: bool, size: map<Group, nat>, made: Option<Group>): set<Group> {
    if socket == 0 || socket == INVALID_SOCKET || !hasBase || Roomy(size) then {} else Made(made)
  }

  class Port {
    var sock: map<Ref, Sock>
    var tree: map<Socket, Ref>
    var updateQueue: seq<Ref>
    var deletedQueue: seq<Ref>
    var groups: seq<Group>
    var groupSize: map<Group, nat>
    var activePolls: nat
    // The environment: the polls that are outstanding, and the threads that have let go of the lock
    // to wait, each with the packets it has taken from the completion port.
    var kernel: map<Ref, Mask>
    var waiting: map<Thread, seq<Packet>>
    // The last walk of the update queue was cut short because a request was refused.
    ghost var faulted: bool

    ghost function Now(): Books
      reads this
    {
      Books(sock, tree, updateQueue, kernel)
    }

    // What holds throughout a critical section, between the calls of the functions below.
    ghost predicate Core()
      reads this
    {
      && TreeInv(tree, sock) && QueueInv(updateQueue, deletedQueue, sock) && PollInv(sock, kernel)
      && HeldInv(waiting, kernel)
      && GroupQueue(groups, groupSize) && GroupCount(sock, groupSize, None)
    }

    // What holds between the steps of a critical section.
    ghost predicate Locked()
      reads this
    {
      Core() && WatchInv(sock, updateQueue) && activePolls == |waiting|
    }

    // What holds whenever the lock is free.
    ghost predicate Inv()
      reads this
    {
      Locked() && (activePolls > 0 && !faulted ==> updateQueue == [])
    }

    // While some thread waits, and the kernel has not refused a request, every socket is monitored.
    lemma NobodySleeps(k: Socket)
      requires Inv() && activePolls > 0 && !faulted && k in tree
      ensures tree[k] in sock && sock[tree[k]].key == k
      ensures Monitored(sock[tree[k]], tree[k] in kernel, MaskOf(kernel, tree[k]))
    {
      hide EpollToAfd, HeldInv, QueueInv, PollInv, GroupQueue, GroupCount, WatchInv, Monitored;
      WepollState.NobodySleeps(tree, sock, deletedQueue, kernel, k);
    }

    // Every outstanding poll, and every packet on its way to a waiting thread, belongs to a record
    // that has not been freed; a record that is to be freed still has its poll outstanding.
    lemma NothingDangles(r: Ref)
      requires Inv()
      ensures r in kernel ==> r in sock
      ensures Held(waiting, r) ==> r in kernel
      ensures r in sock && sock[r].deletePending ==>
        r in kernel && r in deletedQueue && r !in updateQueue && r !in tree.Values
    {
      hide EpollToAfd, GroupQueue, GroupCount, Settled, PollOk;
      if r in sock && sock[r].deletePending {
        LingeringReturns(sock, updateQueue, kernel, r);
      }
    }

    lemma GroupsAddUp()
      requires Inv()
      ensures (forall g :: g in groups <==> g in groupSize) && SizeSum(groups, groupSize) == |sock|
      ensures forall g :: g in groups ==> groupSize[g] <= MAX_GROUP_SIZE
    {
      hide EpollToAfd, HeldInv, TreeInv, QueueInv, PollInv, WatchInv, FullFirst, Counted;
      SizesSum(sock, groups, groupSize);
    }

    constructor ()
      ensures Inv() && !faulted && activePolls == 0 && updateQueue == [] && deletedQueue == [] && groups == []
      ensures sock == map[] && tree == map[] && groupSize == map[] && kernel == map[] && waiting == map[]
    {
      sock, tree, updateQueue, deletedQueue, groups, groupSize := map[], map[], [], [], [], map[];
      activePolls, kernel, waiting, faulted := 0, map[], map[], false;
    }

    // ---------- queue membership ----------

    // A record has one queue node, so it counts as enqueued when it is in either queue.
    predicate Enqueued(r: Ref)
      reads this
    {
      r in updateQueue || r in deletedQueue
    }

    method RequestSocketUpdate(r: Ref)
      modifies `updateQueue
      ensures updateQueue == if old(Enqueued(r)) then old(updateQueue) else old(updateQueue) + [r]
    {
      if Enqueued(r) {
        return;
      }
      updateQueue := updateQueue + [r];
    }

    // Also port_remove_deleted_socket: both unlink the node from whichever queue it is in.
    method Unqueue(r: Ref)
      modifies `updateQueue, `deletedQueue
      ensures updateQueue == Drop(old(updateQueue), r) && deletedQueue == Drop(old(deletedQueue), r)
    {
      updateQueue, deletedQueue := Drop(updateQueue, r), Drop(deletedQueue, r);
    }

    // ---------- poll groups ----------

    // `made` is the group that malloc and the AFD device give, if they do.
    method PollGroupAcquire(made: Option<Group>) returns (g: Option<Group>)
      requires GroupQueue(groups, groupSize) && GroupCount(sock, groupSize, None)
      requires made.Some? ==> made.value !in groupSize
      modifies `groups, `groupSize
      ensures GroupQueue(groups, groupSize) && GroupCount(sock, groupSize, g)
      ensures g.None? ==> groups == old(groups) && groupSize == old(groupSize)
      // The group that was made is used only when every existing one is full.
      ensures if Roomy(old(groupSize)) then g.Some? && HasRoom(old(groupSize), g.value) else g == made
      ensures (forall x :: x in old(groupSize) ==> old(groupSize)[x] == 32) <==> !Roomy(old(groupSize))
      ensures groupSize.Keys == old(groupSize).Keys + if Roomy(old(groupSize)) then {} else Made(made)
    {
      hide NoDup, FullFirst, GroupCount;
      g := if groups != [] then Some(groups[|groups| - 1]) else None;
      if g == None || groupSize[g.value] >= MAX_GROUP_SIZE {
        AllFull(groups, groupSize);
        assert !Roomy(groupSize);
        g := made;
        if g == None {
          return;
        }
        AddGroup(g.value);
      } else {
        assert HasRoom(groupSize, g.value);
      }
      JoinLast(g.value);
    }

    method AddGroup(g: Group)
      requires GroupQueue(groups, groupSize) && GroupCount(sock, groupSize, None)
      requires g !in groupSize && forall x :: x in groupSize ==> groupSize[x] == MAX_GROUP_SIZE
      modifies `groups, `groupSize
      ensures GroupQueue(groups, groupSize) && GroupCount(sock, groupSize, None)
      ensures groups == old(groups) + [g] && groupSize == old(groupSize)[g := 0]
    {
      hide GroupQueue, GroupCount;
      NewGroupQueue(g, groups, groupSize);
      NewGroupCount(sock, g, groupSize);
      groups, groupSize := groups + [g], groupSize[g := 0];
    }

    // One more record in the last group; if that fills the group, it moves to the front.
    method JoinLast(g: Group)
      requires GroupQueue(groups, groupSize) && GroupCount(sock, groupSize, None)
      requires groups != [] && g == groups[|groups| - 1] && groupSize[g] < MAX_GROUP_SIZE
      modifies `groups, `groupSize
      ensures GroupQueue(groups, groupSize) && GroupCount(sock, groupSize, Some(g))
        && groupSize.Keys == old(groupSize).Keys
    {
      hide GroupCount, Drop, NoDup, FullFirst;
      assert g in groupSize;
      hide GroupQueue;
      CountStep(sock, g, groupSize);
      var n := groupSize[g] + 1;
      if n == MAX_GROUP_SIZE {
        FillQueue(g, groups, groupSize);
        groups := [g] + Drop(groups, g);
      } else {
        AcquireQueue(g, groups, groupSize);
      }
      groupSize := groupSize[g := n];
    }

    method PollGroupRelease(g: Group, ghost others: map<Ref, Sock>)
      requires GroupQueue(groups, groupSize) && GroupCount(others, groupSize, Some(g))
      modifies `groups, `groupSize
      ensures GroupQueue(groups, groupSize) && GroupCount(others, groupSize, None)
      ensures groupSize.Keys == old(groupSize).Keys
    {
      CountStep(others, g, groupSize);
      ReleaseQueue(g, groups, groupSize);
      groupSize := groupSize[g := groupSize[g] - 1];
      groups := Drop(groups, g) + [g];
    }

    // ---------- one socket ----------

    // Cancels the poll of a record, unless the kernel refuses.
    method SockCancelPoll(r: Ref, granted: bool) returns (ok: bool)
      requires Core() && r in sock && sock[r].status == Pending
      modifies `sock
      ensures Core() && ok == granted
      ensures sock == if ok then old(sock)[r := old(sock)[r].(status := Cancelled, pendingEvents := 0)] else old(sock)
    {
      hide EpollToAfd, HeldInv, TreeInv, QueueInv, PollInv, GroupQueue, GroupCount;
      ok := granted;
      if ok {
        var s := sock[r].(status := Cancelled, pendingEvents := 0);
        SameGroup(sock, r, s, groupSize, None);
        ChangeRecord(sock, r, s, tree, updateQueue, deletedQueue);
        CancelPoll(sock, r, kernel);
        sock := sock[r := s];
      }
    }

    // The first half of sock__delete: the record leaves the tree and the queues for good.
    method Retire(r: Ref, granted: bool)
      requires Core() && r in sock && !sock[r].deletePending
      modifies `sock, `tree, `updateQueue, `deletedQueue
      ensures TreeInv(tree, sock) && PollInv(sock, kernel) && GroupCount(sock, groupSize, None)
      ensures QueueInv(updateQueue, deletedQueue, sock - {r}) && r !in updateQueue && r !in deletedQueue
      ensures sock == old(sock)[r := Retired(old(sock)[r], granted)] && tree == old(tree) - {old(sock)[r].key}
      ensures updateQueue == Drop(old(updateQueue), r)
    {
      hide EpollToAfd, HeldInv, TreeInv, QueueInv, PollInv, GroupQueue, GroupCount;
      if sock[r].status == Pending {
        var _ := SockCancelPoll(r, granted);
      }
      LeaveQueues(updateQueue, deletedQueue, sock, r);
      Unqueue(r);
      var s := sock[r].(deletePending := true);
      LeaveTree(tree, sock, r, s);
      SameGroup(sock, r, s, groupSize, None);
      DeletePoll(sock, r, kernel);
      tree := tree - {sock[r].key};
      ghost var before := sock;
      sock := sock[r := s];
      assert sock - {r} == before - {r};
    }

    // The record has left the tree: unlink its queue node and give its memory back.
    method Free(r: Ref)
      requires TreeInv(tree, sock) && PollInv(sock, kernel) && HeldInv(waiting, kernel)
      requires GroupQueue(groups, groupSize) && GroupCount(sock, groupSize, None)
      requires QueueInv(Drop(updateQueue, r), Drop(deletedQueue, r), sock - {r})
      requires r in sock && sock[r].deletePending && (sock[r].status == Idle || waiting == map[])
      modifies `sock, `updateQueue, `deletedQueue, `groups, `groupSize, `kernel
      ensures Core() && sock == old(sock) - {r} && kernel == old(kernel) - {r}
      ensures updateQueue == Drop(old(updateQueue), r) && groupSize.Keys == old(groupSize).Keys
    {
      hide EpollToAfd, HeldInv, TreeInv, QueueInv, PollInv, GroupQueue, GroupCount;
      Unqueue(r);
      TakeOutOfGroup(sock, r, groupSize);
      PollGroupRelease(sock[r].group, sock - {r});
      FreeRecord(tree, sock, kernel, r);
      if waiting == map[] {
        NothingHeld(waiting, kernel - {r});
      }
      sock := sock - {r};
      kernel := kernel - {r};
    }

    // Frees the record now if its poll is not outstanding or if forced to, else lets it linger.
    method SockDelete(r: Ref, force: bool, granted: bool)
      requires Core() && r in sock && (force ==> waiting == map[])
      modifies `sock, `tree, `updateQueue, `deletedQueue, `groups, `groupSize, `kernel
      ensures Core() && groupSize.Keys == old(groupSize).Keys
      ensures !force ==> Now() == Deleted(old(Now()), r, granted)
      ensures force ==> sock == old(sock) - {r} && kernel == old(kernel) - {r}
    {
      hide EpollToAfd, HeldInv, TreeInv, QueueInv, PollInv, GroupQueue, GroupCount, Retired, Drop;
      LeaveQueues(updateQueue, deletedQueue, sock, r);
      RetiredStays(sock[r], granted);
      if !sock[r].deletePending {
        Retire(r, granted);
        DropAbsent(updateQueue, r);
        DropAbsent(deletedQueue, r);
      } else {
        DeletedQueued(updateQueue, deletedQueue, sock, r);
      }
      if force || sock[r].status == Idle {
        Free(r);
      } else if !Enqueued(r) {
        JoinDeleted(updateQueue, deletedQueue, sock, r);
        deletedQueue := deletedQueue + [r];
      }
    }

    // port_request_socket_update on a live record.
    method Requeue(r: Ref)
      requires Core() && r in sock && !sock[r].deletePending
      modifies `updateQueue
      ensures Core() && updateQueue == Queued(old(updateQueue), r)
    {
      hide EpollToAfd, HeldInv, TreeInv, QueueInv, PollInv, GroupQueue, GroupCount;
      if !Enqueued(r) {
        JoinUpdate(updateQueue, deletedQueue, sock, r);
      } else {
        LiveQueued(updateQueue, deletedQueue, sock, r);
      }
      RequestSocketUpdate(r);
    }

    // The user's side of a record changes; its poll, its group and its place do not.
    method ChangeWanted(r: Ref, s: Sock)
      requires Core() && r in sock && s == sock[r].(userEvents := s.userEvents, userData := s.userData)
      modifies `sock
      ensures Core() && sock == old(sock)[r := s]
    {
      hide EpollToAfd, HeldInv, TreeInv, QueueInv, PollInv, GroupQueue, GroupCount;
      SameGroup(sock, r, s, groupSize, None);
      ChangeRecord(sock, r, s, tree, updateQueue, deletedQueue);
      RequestPoll(sock, r, s, kernel);
      sock := sock[r := s];
    }

    method SockSetEvent(r: Ref, events: Mask, data: nat)
      requires Core() && r in sock && !sock[r].deletePending && WatchInv(sock - {r}, updateQueue)
      modifies `sock, `updateQueue
      ensures Core() && WatchInv(sock, updateQueue)
      ensures Now() == EventSet(old(Now()), r, events, data)
    {
      hide EpollToAfd, Covers, HeldInv, TreeInv, QueueInv, PollInv, GroupQueue, GroupCount, WatchInv;
      var wanted := events | EPOLLERR | EPOLLHUP;
      ghost var before := sock;
      ChangeWanted(r, sock[r].(userEvents := wanted, userData := data));
      if !Covers(wanted, sock[r].pendingEvents) {
        Requeue(r);
      } else {
        AskedOrWatched(sock, r, events, kernel);
      }
      Resettle(before, old(updateQueue), sock, updateQueue, r);
    }

    // Starts a poll for an idle record, if the kernel takes it.
    method Submit(r: Ref, answer: SubmitResult) returns (result: SubmitResult)
      requires Core() && r in sock && sock[r].status == Idle
      modifies `sock, `kernel
      ensures Core() && result == answer
      ensures result == Submitted ==>
        && r !in old(kernel) && kernel == old(kernel)[r := EpollToAfd(sock[r].userEvents)]
        && sock == old(sock)[r := old(sock)[r].(status := Pending, pendingEvents := old(sock)[r].userEvents)]
      ensures result != Submitted ==> sock == old(sock) && kernel == old(kernel)
    {
      hide EpollToAfd, HeldInv, TreeInv, QueueInv, PollInv, GroupQueue, GroupCount;
      result := answer;
      if result == Submitted {
        var s := sock[r].(status := Pending, pendingEvents := sock[r].userEvents);
        SameGroup(sock, r, s, groupSize, None);
        ChangeRecord(sock, r, s, tree, updateQueue, deletedQueue);
        StartPoll(sock, r, kernel);
        HeldMore(waiting, kernel, r, EpollToAfd(sock[r].userEvents));
        kernel := kernel[r := EpollToAfd(sock[r].userEvents)];
        sock := sock[r := s];
      }
    }

    // Brings the kernel up to date with what is wanted of a live record; leaves it queued on failure.
    method SockUpdate(r: Ref, a: Answers) returns (ok: bool)
      requires Core() && r in sock && !sock[r].deletePending && WatchInv(sock, updateQueue)
      modifies `sock, `tree, `updateQueue, `deletedQueue, `groups, `groupSize, `kernel
      ensures Core() && WatchInv(sock, updateQueue) && groupSize.Keys == old(groupSize).Keys
      // It fails exactly if the one request it makes is refused; the record goes exactly if its socket is found closed.
      ensures ok == !Refused(old(sock)[r], r, a)
      ensures Now() == if ok then AfterUpdate(old(Now()), r, a) else old(Now())
    {
      hide EpollToAfd, Covers, HeldInv, TreeInv, QueueInv, PollInv, GroupQueue, GroupCount, WatchInv, Drop, NoDup;
      ghost var before := sock;
      WatchWithout(sock, updateQueue, r);
      DropWithin(updateQueue, r);
      ok := true;
      if sock[r].status == Pending && Covers(sock[r].userEvents, sock[r].pendingEvents) {
      } else if sock[r].status == Pending {
        ok := SockCancelPoll(r, a.cancel(r));
        if !ok {
          return;
        }
      } else if sock[r].status == Cancelled {
      } else {
        var result := Submit(r, a.poll(r));
        if result == SocketClosed {
          SockDelete(r, false, false);
          Resettle(before, old(updateQueue), sock, updateQueue, r);
          return;
        } else if result == SubmitError {
          return false;
        }
        CoversItself(sock[r].userEvents);
      }
      LiveLeaves(updateQueue, deletedQueue, sock, r);
      Unqueue(r);
      Resettle(before, old(updateQueue), sock, updateQueue, r);
    }

    // The packet of a poll has come back: the record is idle from here on.
    method PollReturned(r: Ref)
      requires Core() && r in sock && r in kernel && HeldInv(waiting, kernel - {r})
      modifies `sock, `kernel
      ensures Core() && kernel == old(kernel) - {r}
      ensures sock == old(sock)[r := old(sock)[r].(status := Idle, pendingEvents := 0)]
    {
      hide EpollToAfd, HeldInv, TreeInv, QueueInv, PollInv, GroupQueue, GroupCount;
      var s := sock[r].(status := Idle, pendingEvents := 0);
      SameGroup(sock, r, s, groupSize, None);
      ChangeRecord(sock, r, s, tree, updateQueue, deletedQueue);
      EndPoll(sock, r, kernel);
      sock := sock[r := s];
      kernel := kernel - {r};
    }

    // An idle record goes.
    method DropIdle(r: Ref)
      requires Core() && r in sock && sock[r].status == Idle && WatchInv(sock - {r}, updateQueue)
      modifies `sock, `tree, `updateQueue, `deletedQueue, `groups, `groupSize, `kernel
      ensures Core() && WatchInv(sock, updateQueue) && groupSize.Keys == old(groupSize).Keys
      ensures Now() == Deleted(old(Now()), r, false)
    {
      hide EpollToAfd, Covers, HeldInv, TreeInv, QueueInv, PollInv, GroupQueue, GroupCount, WatchInv;
      SockDelete(r, false, false);
      FreedSettled(old(sock), old(updateQueue), sock, updateQueue, r);
    }

    // A live idle record is queued for its next poll, and the user is told what he asked for.
    method Report(r: Ref, events: Mask) returns (ev: Option<Event>)
      requires Core() && r in sock && !sock[r].deletePending && WatchInv(sock - {r}, updateQueue)
      modifies `sock, `updateQueue
      ensures Core() && WatchInv(sock, updateQueue) && updateQueue == Queued(old(updateQueue), r)
      ensures ev == EventFor(old(sock)[r], events) && sock == old(sock)[r := AfterEvent(old(sock)[r], events)]
    {
      hide EpollToAfd, Covers, HeldInv, TreeInv, QueueInv, PollInv, GroupQueue, GroupCount, WatchInv;
      hide EventFor, AfterEvent;
      Requeue(r);
      ev := EventFor(sock[r], events);
      AfterEventKeeps(sock[r], events);
      if ev != None {
        ChangeWanted(r, AfterEvent(sock[r], events));
      } else {
        assert sock == sock[r := sock[r]];
      }
      Resettle(old(sock), old(updateQueue), sock, updateQueue, r);
    }

    method SockFeedEvent(p: Packet) returns (ev: Option<Event>)
      requires Core() && WatchInv(sock, updateQueue) && p.sock in sock && p.sock in kernel
      requires HeldInv(waiting, kernel - {p.sock})
      modifies `sock, `tree, `updateQueue, `deletedQueue, `groups, `groupSize, `kernel
      ensures Core() && WatchInv(sock, updateQueue) && groupSize.Keys == old(groupSize).Keys
      ensures ev == Heard(old(sock)[p.sock], p)
      // A record that waited for this poll, or whose socket was closed, is freed; any other is queued again.
      ensures Now() == Fed(old(Now()), p)
    {
      hide EpollToAfd, AfdToEpoll, Covers, Reported, EventFor, AfterEvent, HeldInv, TreeInv, QueueInv, PollInv,
        GroupQueue, GroupCount, WatchInv;
      var r := p.sock;
      WatchWithout(sock, updateQueue, r);
      PollReturned(r);
      assert sock - {r} == old(sock) - {r};
      if sock[r].deletePending || Reported(p) == None {
        DropIdle(r);
        ev := None;
      } else {
        ev := Report(r, Reported(p).value);
        IdleHears(old(sock)[r], Reported(p).value);
      }
    }

    // ---------- walking the queue and feeding packets ----------

    // Walks the update queue until it is empty or the kernel refuses a request.
    method UpdateEvents(a: Answers) returns (ok: bool)
      requires Core() && WatchInv(sock, updateQueue)
      modifies `sock, `tree, `updateQueue, `deletedQueue, `groups, `groupSize, `kernel, `faulted
      ensures Core() && WatchInv(sock, updateQueue) && groupSize.Keys == old(groupSize).Keys
      ensures Walk(Now(), ok) == Walked(old(Now()), a) && faulted == !ok && (ok ==> updateQueue == [])
    {
      hide EpollToAfd, Covers, HeldInv, TreeInv, PollInv, GroupQueue, GroupCount, WatchInv, NoDup;
      hide AfterUpdate, Refused, Walked;
      ok := true;
      while ok && updateQueue != []
        invariant Core() && WatchInv(sock, updateQueue) && groupSize.Keys == old(groupSize).Keys
        invariant if ok then Walked(Now(), a) == Walked(old(Now()), a) else Walk(Now(), false) == Walked(old(Now()), a)
        decreases |updateQueue|, ok
      {
        assert updateQueue[0] in updateQueue;
        WalkOn(Now(), a);
        AfterUpdateQueue(Now(), updateQueue[0], a);
        ok := SockUpdate(updateQueue[0], a);
      }
      WalkEnds(Now(), a);
      faulted := !ok;
    }

    // Feeds back every packet that a thread came back with.
    method FeedEvents(t: Thread) returns (events: seq<Event>)
      requires Core() && WatchInv(sock, updateQueue) && t in waiting
      modifies `sock, `tree, `updateQueue, `deletedQueue, `groups, `groupSize, `kernel, `waiting
      ensures Core() && WatchInv(sock, updateQueue) && waiting == old(waiting)[t := []]
      ensures groupSize.Keys == old(groupSize).Keys
      ensures Known(old(sock), old(waiting)[t]) && events == HeardAll(old(sock), old(waiting)[t])
      ensures Now() == FedAll(old(Now()), old(waiting)[t])
    {
      HeldRecords(waiting, t, sock, kernel);
      FeedingStarts(Now(), waiting, t);
      hide EpollToAfd, AfdToEpoll, Covers, HeldInv, TreeInv, QueueInv, PollInv, GroupQueue, GroupCount, WatchInv,
        Heard, HeardAll, Known, Fed, FedAll, Feeding;
      events := [];
      while waiting[t] != []
        invariant Core() && WatchInv(sock, updateQueue) && t in waiting && Known(sock, waiting[t])
        invariant groupSize.Keys == old(groupSize).Keys
        invariant Feeding(old(Now()), old(waiting), Now(), waiting, t, events)
        decreases |waiting[t]|
      {
        ghost var b, waiting0, events0 := Now(), waiting, events;
        events := FeedFirst(t, events);
        FeedingGoesOn(old(Now()), old(waiting), b, waiting0, t, events0, Now(), waiting, events);
      }
      FeedingEnds(old(Now()), old(waiting), Now(), waiting, t, events);
    }

    // The loop's body: the first packet is fed back.
    method FeedFirst(t: Thread, events: seq<Event>) returns (more: seq<Event>)
      requires Core() && WatchInv(sock, updateQueue) && t in waiting && waiting[t] != []
      requires Known(sock, waiting[t])
      modifies `sock, `tree, `updateQueue, `deletedQueue, `groups, `groupSize, `kernel, `waiting
      ensures Core() && WatchInv(sock, updateQueue) && waiting == old(waiting)[t := old(waiting)[t][1..]]
      ensures Known(sock, waiting[t]) && groupSize.Keys == old(groupSize).Keys
      ensures more + HeardAll(sock, waiting[t]) == events + HeardAll(old(sock), old(waiting)[t])
      ensures Now() == Fed(old(Now()), old(waiting)[t][0])
    {
      hide EpollToAfd, AfdToEpoll, Covers, HeldInv, TreeInv, QueueInv, PollInv, GroupQueue, GroupCount, WatchInv,
        Heard;
      var p, rest := waiting[t][0], waiting[t][1..];
      PutBack(waiting, t, kernel);
      waiting := waiting[t := rest];
      var ev := SockFeedEvent(p);
      FedOthers(old(Now()), p);
      HeardAllSame(old(sock), sock, rest);
      Told(events, ev, HeardAll(sock, rest));
      more := if ev.Some? then events + [ev.value] else events;
    }

    // ---------- epoll_wait: the critical sections around the wait ----------

    // port__poll up to the point where the lock is let go.
    method Poll(t: Thread, a: Answers) returns (ok: bool)
      requires Locked() && t !in waiting
      modifies `sock, `tree, `updateQueue, `deletedQueue, `groups, `groupSize, `kernel, `faulted, `waiting, `activePolls
      ensures Locked() && groupSize.Keys == old(groupSize).Keys
      ensures Walk(Now(), ok) == Walked(old(Now()), a) && faulted == !ok && (ok ==> updateQueue == [])
      ensures waiting == if ok then old(waiting)[t := []] else old(waiting)
    {
      hide EpollToAfd, Covers, HeldInv, TreeInv, QueueInv, PollInv, GroupQueue, GroupCount, WatchInv, Walked;
      ok := UpdateEvents(a);
      if ok {
        activePolls := activePolls + 1;
        WaitMore(waiting, t, kernel);
        waiting := waiting[t := []];
      }
    }

    // port__update_events_if_polling, before the lock is let go.
    method UpdateIfPolling(a: Answers)
      requires Locked()
      modifies `sock, `tree, `updateQueue, `deletedQueue, `groups, `groupSize, `kernel, `faulted
      ensures Inv() && groupSize.Keys == old(groupSize).Keys
      ensures (Now(), faulted) == BroughtUpToDate(old(Now()), activePolls, old(faulted), a)
    {
      hide EpollToAfd, Covers, HeldInv, TreeInv, QueueInv, PollInv, GroupQueue, GroupCount, WatchInv, Walked;
      if activePolls > 0 {
        var ok := UpdateEvents(a);
      }
    }

    // Critical section: a thread enters epoll_wait and waits, unless a request is refused; then it brings what can
    // be up to date, for which the kernel is asked once more, and fails.
    method BeginWait(t: Thread, a: Answers, last: Answers) returns (ok: bool)
      requires Inv() && t !in waiting
      modifies `sock, `tree, `updateQueue, `deletedQueue, `groups, `groupSize, `kernel, `faulted, `waiting, `activePolls
      ensures Inv() && groupSize.Keys == old(groupSize).Keys
      ensures waiting == if ok then old(waiting)[t := []] else old(waiting)
      ensures var w := Walked(old(Now()), a);
        && ok == w.ok && (ok ==> updateQueue == [])
        && (Now(), faulted) == if ok then (w.books, false) else BroughtUpToDate(w.books, old(activePolls), true, last)
    {
      hide EpollToAfd, Covers, HeldInv, TreeInv, QueueInv, PollInv, GroupQueue, GroupCount, WatchInv, Walked;
      ok := Poll(t, a);
      if !ok {
        UpdateIfPolling(last);
      }
    }

    // A waiting thread is given packets of outstanding polls; it does not hold the lock yet.
    method Arrive(t: Thread, packets: seq<Packet>)
      requires Inv() && t in waiting && waiting[t] == [] && Distinct(packets)
      requires forall p: Packet :: p in packets ==> p.sock in kernel && !Held(waiting, p.sock)
      modifies `waiting
      ensures Inv() && waiting == old(waiting)[t := packets]
    {
      hide EpollToAfd, Covers, TreeInv, QueueInv, PollInv, GroupQueue, GroupCount, WatchInv;
      TakePackets(waiting, t, packets, kernel);
      assert waiting[t := packets].Keys == waiting.Keys;
      assert |waiting[t := packets]| == |waiting|;
      waiting := waiting[t := packets];
    }

    // A thread has the lock again: its packets are fed back and it no longer counts as waiting.
    method FinishWait(t: Thread) returns (events: seq<Event>)
      requires Locked() && t in waiting
      modifies `sock, `tree, `updateQueue, `deletedQueue, `groups, `groupSize, `kernel, `waiting, `activePolls
      ensures Locked() && waiting == old(waiting) - {t} && groupSize.Keys == old(groupSize).Keys
      ensures Known(old(sock), old(waiting)[t]) && events == HeardAll(old(sock), old(waiting)[t])
      ensures Now() == FedAll(old(Now()), old(waiting)[t])
    {
      hide EpollToAfd, AfdToEpoll, Covers, HeldInv, TreeInv, QueueInv, PollInv, GroupQueue, GroupCount, WatchInv,
        HeardAll, FedAll;
      WaitLess(waiting, t, kernel);
      activePolls := activePolls - 1;
      events := FeedEvents(t);
      WaitLess(waiting, t, kernel);
      waiting := waiting - {t};
    }

    // Critical section: a thread comes back from the wait, with packets or empty-handed.  If that gave
    // no event and its time is not up (`again`), it polls once more; else it leaves epoll_wait.
    method Resume(t: Thread, again: bool, a: Answers, last: Answers) returns (left: bool, events: seq<Event>)
      requires Inv() && t in waiting
      modifies `sock, `tree, `updateQueue, `deletedQueue, `groups, `groupSize, `kernel, `faulted, `waiting, `activePolls
      ensures Inv() && groupSize.Keys == old(groupSize).Keys
      ensures waiting == if left then old(waiting) - {t} else old(waiting)[t := []]
      ensures Known(old(sock), old(waiting)[t]) && events == HeardAll(old(sock), old(waiting)[t])
      ensures !left ==> updateQueue == []
      ensures var fed := FedAll(old(Now()), old(waiting)[t]);
        var polls := |old(waiting)| - 1;
        if events == [] && again then
          var w := Walked(fed, a);
          && left == !w.ok
          && (Now(), faulted) == if w.ok then (w.books, false) else BroughtUpToDate(w.books, polls, true, last)
        else
          left && (Now(), faulted) == BroughtUpToDate(fed, polls, old(faulted), last)
    {
      hide EpollToAfd, AfdToEpoll, Covers, HeldInv, TreeInv, QueueInv, PollInv, GroupQueue, GroupCount, WatchInv,
        HeardAll, FedAll, Walked, BroughtUpToDate;
      events := FinishWait(t);
      left := true;
      if events == [] && again {
        var ok := Poll(t, a);
        left := !ok;
      }
      if left {
        UpdateIfPolling(last);
      }
    }

    // ---------- epoll_ctl ----------

    // A record for a new socket.  `hasBase`, `made` and `block` are what Winsock, the AFD device and
    // malloc give.
    method SockNew(socket: Socket, hasBase: bool, made: Option<Group>, block: Option<Ref>)
      returns (result: Result, ghost group: Option<Group>)
      requires Core() && (made.Some? ==> made.value !in groupSize) && (block.Some? ==> block.value !in sock)
      modifies `sock, `tree, `groups, `groupSize
      ensures Core() && (result != Done ==> group == None)
      ensures result == Done <==>
        && socket != 0 && socket != INVALID_SOCKET && hasBase && socket !in old(tree) && block.Some?
        && (made.Some? || Roomy(old(groupSize)))
      ensures result == AlreadyExists ==> socket in old(tree)
      ensures result == Done ==>
        && group.Some? && group.value in groupSize
        && Now() == Registered(old(Now()), block.value, NewSock(group.value, socket))
      ensures result != Done ==> Now() == old(Now())
      // The group that was made is taken only if every existing one is full.
      ensures result == Done ==>
        if Roomy(old(groupSize)) then HasRoom(old(groupSize), group.value) else group == made
      ensures groupSize.Keys == old(groupSize).Keys + Taken(socket, hasBase, old(groupSize), made)
    {
      hide EpollToAfd, HeldInv, TreeInv, QueueInv, PollInv, GroupQueue, GroupCount;
      if socket == 0 || socket == INVALID_SOCKET {
        return InvalidHandle, None;
      }
      if !hasBase {
        return NoBaseSocket, None;
      }
      GroupSizes(groups, groupSize);
      var g := PollGroupAcquire(made);
      if g == None {
        return NoGroup, None;
      }
      if block.Some? && socket !in tree {
        result := Done;
        group := g;
        AddRecord(block.value, NewSock(g.value, socket));
      } else {
        result, group := if block.None? then NoMemory else AlreadyExists, None;
        PollGroupRelease(g.value, sock);
      }
    }

    // port_register_socket, where the tree does not have the socket yet.
    method AddRecord(r: Ref, s: Sock)
      requires TreeInv(tree, sock) && QueueInv(updateQueue, deletedQueue, sock) && PollInv(sock, kernel)
        && HeldInv(waiting, kernel)
      requires GroupQueue(groups, groupSize) && GroupCount(sock, groupSize, Some(s.group))
      requires r !in sock && s.key !in tree && s.status == Idle && s.pendingEvents == 0 && !s.deletePending
      modifies `sock, `tree
      ensures Core() && Now() == Registered(old(Now()), r, s) && s.group in groupSize
    {
      hide TreeInv, QueueInv, PollInv, HeldInv, GroupQueue, Counted;
      assert s.group in groupSize;
      hide EpollToAfd, GroupCount;
      PutIntoGroup(sock, r, s, groupSize);
      NewRecord(tree, updateQueue, deletedQueue, sock, kernel, r, s);
      sock := sock[r := s];
      tree := tree[s.key := r];
    }

    // Critical section: EPOLL_CTL_ADD.
    method CtlAdd(socket: Socket, events: Mask, data: nat, hasBase: bool, made: Option<Group>, block: Option<Ref>,
        a: Answers) returns (result: Result, ghost group: Option<Group>)
      requires Inv() && (made.Some? ==> made.value !in groupSize) && (block.Some? ==> block.value !in sock)
      modifies `sock, `tree, `updateQueue, `deletedQueue, `groups, `groupSize, `kernel, `faulted
      ensures Inv() && (result != Done ==> group == None)
      ensures result == Done <==>
        && socket != 0 && socket != INVALID_SOCKET && hasBase && socket !in old(tree) && block.Some?
        && (made.Some? || Roomy(old(groupSize)))
      ensures result == AlreadyExists ==> socket in old(tree)
      ensures result == Done ==>
        && group.Some? && group.value in groupSize
        && if Roomy(old(groupSize)) then HasRoom(old(groupSize), group.value) else group == made
      ensures groupSize.Keys == old(groupSize).Keys + Taken(socket, hasBase, old(groupSize), made)
      // The record is in the tree and wants what was asked, unless its first poll finds the socket closed.
      ensures (Now(), faulted) ==
        if result == Done then
          BroughtUpToDate(Joined(old(Now()), block.value, group.value, socket, events, data), activePolls,
            old(faulted), a)
        else (old(Now()), old(faulted))
    {
      hide EpollToAfd, Covers, HeldInv, TreeInv, QueueInv, PollInv, GroupQueue, GroupCount, WatchInv, BroughtUpToDate,
        Roomy, HasRoom, Taken, EventSet;
      result, group := SockNew(socket, hasBase, made, block);
      if result != Done {
        return;
      }
      assert sock - {block.value} == old(sock) - {block.value};
      WatchWithout(old(sock), updateQueue, block.value);
      SockSetEvent(block.value, events, data);
      UpdateIfPolling(a);
    }

    // Critical section: EPOLL_CTL_MOD.
    method CtlMod(socket: Socket, events: Mask, data: nat, a: Answers) returns (result: Result)
      requires Inv()
      modifies `sock, `tree, `updateQueue, `deletedQueue, `groups, `groupSize, `kernel, `faulted
      ensures Inv() && result == (if socket in old(tree) then Done else NotFound)
        && groupSize.Keys == old(groupSize).Keys
      ensures result == Done ==> old(tree)[socket] in old(sock)
      ensures (Now(), faulted) ==
        if result == Done then
          BroughtUpToDate(EventSet(old(Now()), old(tree)[socket], events, data), activePolls, old(faulted), a)
        else (old(Now()), old(faulted))
    {
      hide EpollToAfd, Covers, HeldInv, QueueInv, PollInv, GroupQueue, GroupCount, WatchInv, BroughtUpToDate, EventSet;
      if socket !in tree {
        return NotFound;
      }
      var r := tree[socket];
      WatchWithout(sock, updateQueue, r);
      SockSetEvent(r, events, data);
      UpdateIfPolling(a);
      result := Done;
    }

    // Critical section: EPOLL_CTL_DEL.
    method CtlDel(socket: Socket, granted: bool) returns (result: Result)
      requires Inv()
      modifies `sock, `tree, `updateQueue, `deletedQueue, `groups, `groupSize, `kernel
      ensures Inv() && result == (if socket in old(tree) then Done else NotFound)
        && groupSize.Keys == old(groupSize).Keys
      ensures result == Done ==> old(tree)[socket] in old(sock)
      // The socket is forgotten; its record is freed at once, or it lingers until its poll comes back.
      ensures socket !in tree
      ensures Now() == if result == Done then Deleted(old(Now()), old(tree)[socket], granted) else old(Now())
    {
      hide EpollToAfd, Covers, HeldInv, QueueInv, PollInv, GroupQueue, GroupCount, WatchInv, Drop;
      if socket !in tree {
        return NotFound;
      }
      Forget(tree[socket], granted);
      result := Done;
    }

    // sock_delete on a live record.
    method Forget(r: Ref, granted: bool)
      requires Core() && WatchInv(sock, updateQueue) && r in sock && !sock[r].deletePending
      modifies `sock, `tree, `updateQueue, `deletedQueue, `groups, `groupSize, `kernel
      ensures Core() && WatchInv(sock, updateQueue) && groupSize.Keys == old(groupSize).Keys
      ensures Now() == Deleted(old(Now()), r, granted) && (old(updateQueue) == [] ==> updateQueue == [])
    {
      hide EpollToAfd, Covers, HeldInv, TreeInv, QueueInv, PollInv, GroupQueue, GroupCount, WatchInv, Retired;
      WatchWithout(sock, updateQueue, r);
      RetiredStays(sock[r], granted);
      SockDelete(r, false, granted);
      DropWithin(old(updateQueue), r);
      Resettle(old(sock), old(updateQueue), sock, updateQueue, r);
    }

    // ---------- the end of the port ----------

    // Everything is freed; no thread is left in the port, and the completion port has been closed.
    method PortDelete()
      requires Core() && waiting == map[]
      modifies this
      ensures sock == map[] && tree == map[] && updateQueue == [] && deletedQueue == [] && groups == []
    {
      hide EpollToAfd, HeldInv, TreeInv, QueueInv, PollInv, GroupQueue, GroupCount;
      FreeLive();
      FreeLingering();
      EmptyPort(tree, sock, updateQueue, deletedQueue);
      while groups != []
        invariant forall g :: g in groups ==> g in groupSize && groupSize[g] == 0
        invariant sock == map[] && tree == map[] && updateQueue == [] && deletedQueue == []
      {
        // poll_group_delete asserts that the group is unused.
        assert groups[0] in groups;
        assert groupSize[groups[0]] == 0;
        groups := groups[1..];
      }
    }

    method FreeLive()
      requires Core() && waiting == map[]
      modifies `sock, `tree, `updateQueue, `deletedQueue, `groups, `groupSize, `kernel
      ensures Core() && tree == map[]
    {
      hide EpollToAfd, HeldInv, QueueInv, PollInv, GroupQueue, GroupCount;
      while tree != map[]
        invariant Core() && waiting == map[]
        decreases |sock|
      {
        var k :| k in tree;
        SmallerMap(sock, tree[k]);
        SockDelete(tree[k], true, false);
      }
    }

    method FreeFirst()
      requires Core() && waiting == map[] && deletedQueue != []
      modifies `sock, `tree, `updateQueue, `deletedQueue, `groups, `groupSize, `kernel
      ensures Core() && |sock| < |old(sock)| && forall r :: r in sock ==> r in old(sock) && sock[r] == old(sock)[r]
    {
      hide EpollToAfd, HeldInv, TreeInv, PollInv, GroupQueue, GroupCount, NoDup;
      assert deletedQueue[0] in deletedQueue;
      SmallerMap(sock, deletedQueue[0]);
      SockDelete(deletedQueue[0], true, false);
    }

    method FreeLingering()
      requires Core() && waiting == map[] && tree == map[]
      modifies `sock, `tree, `updateQueue, `deletedQueue, `groups, `groupSize, `kernel
      ensures Core() && sock == map[] && forall g :: g in groups ==> g in groupSize && groupSize[g] == 0
    {
      AllDeleted(tree, sock);
      hide EpollToAfd, HeldInv, TreeInv, QueueInv, PollInv, GroupQueue, GroupCount;
      while deletedQueue != []
        invariant Core() && waiting == map[] && forall r :: r in sock ==> sock[r].deletePending
        decreases |sock|
      {
        FreeFirst();
      }
      NoRecords(sock, deletedQueue, updateQueue, groups, groupSize);
    }
  }
}
