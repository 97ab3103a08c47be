/** What the operations of an epoll port do to its records, its tree, its update queue and the polls
    that the kernel has outstanding, as functions of what the kernel answers. */
module WepollBooks {
  import opened Basics
  import opened Collections
  import opened WepollEvents
  import opened WepollState

  datatype SubmitResult = Submitted | SocketClosed | SubmitError

  // The kernel's answers to a request to poll the socket of a record, and to cancel its poll.
  datatype Answers = Answers(poll: Ref -> SubmitResult, cancel: Ref -> bool)

  datatype Books = Books(sock: map<Ref, Sock>, tree: map<Socket, Ref>, queue: seq<Ref>, kernel: map<Ref, Mask>)

  // ---------- deleting a record ----------

  function Retired(s: Sock, granted: bool): Sock {
    (if s.status == Pending && granted then s.(status := Cancelled, pendingEvents := 0) else s).(deletePending := true)
  }

  // sock_delete: the record is freed if its poll is not outstanding, else it lingers.
  function Deleted(b: Books, r: Ref, granted: bool): Books
    requires r in b.sock
  {
    var s := b.sock[r];
    Books(
      if s.status == Idle then b.sock - {r} else if s.deletePending then b.sock else b.sock[r := Retired(s, granted)],
      if s.deletePending then b.tree else b.tree - {s.key},
      Drop(b.queue, r),
      if s.status == Idle then b.kernel - {r} else b.kernel)
  }

  // ---------- asking for events ----------

  function Queued(queue: seq<Ref>, r: Ref): seq<Ref> { if r in queue then queue else queue + [r] }

  function Wanting(s: Sock, events: Mask, data: nat): Sock {
    s.(userEvents := events | EPOLLERR | EPOLLHUP, userData := data)
  }

  function EventSet(b: Books, r: Ref, events: Mask, data: nat): Books
    requires r in b.sock
  {
    var s := Wanting(b.sock[r], events, data);
    b.(sock := b.sock[r := s], queue := if Covers(s.userEvents, s.pendingEvents) then b.queue else Queued(b.queue, r))
  }

  function NewSock(group: Group, socket: Socket): Sock { Sock(group, socket, 0, 0, 0, Idle, false) }

  function Registered(b: Books, r: Ref, s: Sock): Books { b.(sock := b.sock[r := s], tree := b.tree[s.key := r]) }

  // A new record, with what the user wants of it.
  function Joined(b: Books, r: Ref, group: Group, socket: Socket, events: Mask, data: nat): Books {
    EventSet(Registered(b, r, NewSock(group, socket)), r, events, data)
  }

  // ---------- updating a record ----------

  // The one request that an update makes of the kernel, if it makes one, is refused.
  predicate Refused(s: Sock, r: Ref, a: Answers) {
    match s.status
    case Pending => !Covers(s.userEvents, s.pendingEvents) && !a.cancel(r)
    case Cancelled => false
    case Idle => a.poll(r) == SubmitError
  }

  // It finds the socket closed.
  predicate FoundClosed(s: Sock, r: Ref, a: Answers) { s.status == Idle && a.poll(r) == SocketClosed }

  // What it leaves of the record otherwise.
  function Updated(s: Sock): Sock {
    match s.status
    case Pending => if Covers(s.userEvents, s.pendingEvents) then s else s.(status := Cancelled, pendingEvents := 0)
    case Cancelled => s
    case Idle => s.(status := Pending, pendingEvents := s.userEvents)
  }

  function AfterUpdate(b: Books, r: Ref, a: Answers): Books
    requires r in b.sock
  {
    var s := b.sock[r];
    if FoundClosed(s, r, a) then Deleted(b, r, false)
    else
      Books(b.sock[r := Updated(s)], b.tree, Drop(b.queue, r),
        if s.status == Idle then b.kernel[r := EpollToAfd(s.userEvents)] else b.kernel)
  }

  datatype Walk = Walk(books: Books, ok: bool)

  // port__update_events: updates record after record, until one is refused.
  function Walked(b: Books, a: Answers): Walk
    decreases |b.queue|
  {
    if b.queue == [] then Walk(b, true)
    else if b.queue[0] !in b.sock || Refused(b.sock[b.queue[0]], b.queue[0], a) then Walk(b, false)
    else Walked(AfterUpdate(b, b.queue[0], a), a)
  }

  lemma WalkOn(b: Books, a: Answers)
    requires b.queue != [] && b.queue[0] in b.sock
    ensures Walked(b, a) == if Refused(b.sock[b.queue[0]], b.queue[0], a) then Walk(b, false)
      else Walked(AfterUpdate(b, b.queue[0], a), a)
  {
  }

  lemma WalkEnds(b: Books, a: Answers)
    ensures b.queue == [] ==> Walked(b, a) == Walk(b, true)
  {
  }

  // port__update_events_if_polling: the books, and whether the last walk was cut short by a refusal.
  function BroughtUpToDate(b: Books, polls: nat, faulted: bool, a: Answers): (Books, bool) {
    if polls == 0 then (b, faulted) else (Walked(b, a).books, !Walked(b, a).ok)
  }

  lemma RetiredStays(s: Sock, granted: bool)
    ensures var s1 := Retired(s, granted);
      s1.deletePending && s1.group == s.group && s1.key == s.key && (s1.status == Idle <==> s.status == Idle)
  {
  }

  // ---------- feeding packets ----------

  function Fed(b: Books, p: Packet): Books {
    if p.sock !in b.sock then b
    else
      var s := b.sock[p.sock].(status := Idle, pendingEvents := 0);
      var b0 := b.(sock := b.sock[p.sock := s], kernel := b.kernel - {p.sock});
      if s.deletePending || Reported(p) == None then Deleted(b0, p.sock, false)
      else b0.(sock := b0.sock[p.sock := AfterEvent(s, Reported(p).value)], queue := Queued(b0.queue, p.sock))
  }

  function FedAll(b: Books, packets: seq<Packet>): Books
    decreases |packets|
  {
    if packets == [] then b else FedAll(Fed(b, packets[0]), packets[1..])
  }

  // Feeding a packet leaves the other records as they are.
  lemma FedOthers(b: Books, p: Packet)
    ensures var b1 := Fed(b, p);
      forall r :: r != p.sock ==> (r in b1.sock <==> r in b.sock) && (r in b.sock ==> b1.sock[r] == b.sock[r])
  {
    hide Drop;
  }

  // Feeding a packet to its record, case by case: it frees one that waited for it, or whose socket was closed; any
  // other is idle, queued again and wants what it wanted, save that one that has told something of a one-shot
  // record leaves it wanting nothing.
  lemma FedIs(b: Books, p: Packet)
    requires Orderly(b) && p.sock in b.sock
    ensures var s, b1 := b.sock[p.sock], Fed(b, p);
      && (p.sock in b1.sock <==> !s.deletePending && !Closes(p))
      && b1.tree == (if !s.deletePending && Closes(p) then b.tree - {s.key} else b.tree)
      && b1.kernel == b.kernel - {p.sock} && (p.sock in b1.queue <==> p.sock in b1.sock)
      && (p.sock in b1.sock ==> b1.sock[p.sock] == s.(status := Idle, pendingEvents := 0,
           userEvents := if Tells(s, p) != 0 && s.userEvents & EPOLLONESHOT != 0 then 0 else s.userEvents))
  {
    hide Closes, TreeInv, AfdToEpoll;
    HeardIs(b.sock[p.sock], p);
    DropMembers(b.queue, p.sock);
    hide Reported, Tells, Drop, NoDup;
    assert b.kernel - {p.sock} - {p.sock} == b.kernel - {p.sock};
  }

  // A thread is feeding back its packets: what it still has to tell, and what that will leave, is what it
  // was at the beginning.
  ghost predicate Feeding(b0: Books, waiting0: map<Thread, seq<Packet>>, b: Books, waiting: map<Thread, seq<Packet>>,
      t: Thread, events: seq<Event>) {
    && t in waiting0 && t in waiting && waiting == waiting0[t := waiting[t]]
    && Known(b0.sock, waiting0[t]) && Known(b.sock, waiting[t])
    && events + HeardAll(b.sock, waiting[t]) == HeardAll(b0.sock, waiting0[t])
    && FedAll(b, waiting[t]) == FedAll(b0, waiting0[t])
  }

  lemma FeedingStarts(b: Books, waiting: map<Thread, seq<Packet>>, t: Thread)
    requires t in waiting && Known(b.sock, waiting[t])
    ensures Feeding(b, waiting, b, waiting, t, [])
  {
    hide Known, HeardAll, FedAll;
    PutSame(waiting, t);
    assert [] + HeardAll(b.sock, waiting[t]) == HeardAll(b.sock, waiting[t]);
  }

  lemma FeedingGoesOn(b0: Books, waiting0: map<Thread, seq<Packet>>, b: Books, waiting: map<Thread, seq<Packet>>,
      t: Thread, events: seq<Event>, b1: Books, waiting1: map<Thread, seq<Packet>>, events1: seq<Event>)
    requires Feeding(b0, waiting0, b, waiting, t, events) && waiting[t] != []
    requires waiting1 == waiting[t := waiting[t][1..]] && b1 == Fed(b, waiting[t][0]) && Known(b1.sock, waiting1[t])
    requires events1 + HeardAll(b1.sock, waiting1[t]) == events + HeardAll(b.sock, waiting[t])
    ensures Feeding(b0, waiting0, b1, waiting1, t, events1)
  {
    hide Known, HeardAll, Fed;
    PutTwice(waiting0, t, waiting[t], waiting1[t]);
  }

  lemma FeedingEnds(b0: Books, waiting0: map<Thread, seq<Packet>>, b: Books, waiting: map<Thread, seq<Packet>>,
      t: Thread, events: seq<Event>)
    requires Feeding(b0, waiting0, b, waiting, t, events) && waiting[t] == []
    ensures waiting == waiting0[t := []] && Known(b0.sock, waiting0[t])
    ensures events == HeardAll(b0.sock, waiting0[t]) && b == FedAll(b0, waiting0[t])
  {
    hide Known;
    assert events + [] == events;
  }

  // ---------- what a walk amounts to ----------

  // The place in the queue at which the kernel refuses a request, or its end.
  function Stop(sock: map<Ref, Sock>, queue: seq<Ref>, a: Answers): (n: nat)
    ensures n <= |queue|
    ensures forall i :: 0 <= i < n ==> queue[i] in sock && !Refused(sock[queue[i]], queue[i], a)
    ensures n < |queue| ==> queue[n] !in sock || Refused(sock[queue[n]], queue[n], a)
  {
    if queue == [] || queue[0] !in sock || Refused(sock[queue[0]], queue[0], a) then 0
    else 1 + Stop(sock, queue[1..], a)
  }

  // What a walk that has updated the records in `done` leaves of the records, the tree and the kernel's polls.
  ghost predicate SockOver(sock: map<Ref, Sock>, a: Answers, done: seq<Ref>, sock1: map<Ref, Sock>) {
    && (forall r :: r in sock1 <==> r in sock && !(r in done && FoundClosed(sock[r], r, a)))
    && (forall r :: r in sock1 ==> sock1[r] == if r in done then Updated(sock[r]) else sock[r])
  }

  ghost predicate TreeOver(tree: map<Socket, Ref>, tree1: map<Socket, Ref>, sock1: map<Ref, Sock>) {
    && (forall k :: k in tree1 <==> k in tree && tree[k] in sock1)
    && (forall k :: k in tree1 ==> tree1[k] == tree[k])
  }

  ghost predicate Begun(sock: map<Ref, Sock>, a: Answers, done: seq<Ref>, r: Ref) {
    r in done && r in sock && sock[r].status == Idle && !FoundClosed(sock[r], r, a)
  }

  ghost predicate KernelOver(sock: map<Ref, Sock>, kernel: map<Ref, Mask>, a: Answers, done: seq<Ref>,
      kernel1: map<Ref, Mask>) {
    && (forall r :: r in kernel1 <==> r in kernel || Begun(sock, a, done, r))
    && (forall r :: r in kernel1 ==>
          kernel1[r] == if Begun(sock, a, done, r) then EpollToAfd(sock[r].userEvents) else MaskOf(kernel, r))
  }

  ghost predicate WalkedOver(b: Books, a: Answers, done: seq<Ref>, b1: Books) {
    && SockOver(b.sock, a, done, b1.sock) && TreeOver(b.tree, b1.tree, b1.sock)
    && KernelOver(b.sock, b.kernel, a, done, b1.kernel)
  }

  // The books of a port, so far as a walk relies on them.
  ghost predicate Orderly(b: Books) {
    && NoDup(b.queue) && TreeInv(b.tree, b.sock)
    && (forall r :: r in b.queue ==> r in b.sock && !b.sock[r].deletePending)
    && (forall r :: r in b.sock && b.sock[r].status == Idle ==> r !in b.kernel)
  }

  lemma SockOneMore(sock: map<Ref, Sock>, a: Answers, done: seq<Ref>, sock1: map<Ref, Sock>, r: Ref)
    requires SockOver(sock, a, done, sock1) && r !in done && r in sock
    ensures r in sock1 && sock1[r] == sock[r]
    ensures SockOver(sock, a, done + [r], if FoundClosed(sock[r], r, a) then sock1 - {r}
      else sock1[r := Updated(sock[r])])
  {
    hide FoundClosed, Updated;
    assert forall x :: x in done + [r] <==> x in done || x == r;
  }

  lemma TreeOneMore(tree: map<Socket, Ref>, sock: map<Ref, Sock>, tree1: map<Socket, Ref>, sock1: map<Ref, Sock>,
      r: Ref, s: Sock)
    requires TreeInv(tree, sock) && TreeOver(tree, tree1, sock1) && r in sock && !sock[r].deletePending && r in sock1
    ensures TreeOver(tree, tree1 - {sock[r].key}, sock1 - {r})
    ensures TreeOver(tree, tree1, sock1[r := s])
  {
  }

  lemma KernelOneMore(sock: map<Ref, Sock>, kernel: map<Ref, Mask>, a: Answers, done: seq<Ref>,
      kernel1: map<Ref, Mask>, r: Ref)
    requires KernelOver(sock, kernel, a, done, kernel1) && r !in done && r in sock
    requires sock[r].status == Idle ==> r !in kernel
    ensures KernelOver(sock, kernel, a, done + [r],
      if FoundClosed(sock[r], r, a) then kernel1 - {r}
      else if sock[r].status == Idle then kernel1[r := EpollToAfd(sock[r].userEvents)]
      else kernel1)
  {
    hide EpollToAfd;
    var done1 := done + [r];
    assert forall x :: x in done1 <==> x in done || x == r;
    assert forall x :: x != r ==> Begun(sock, a, done1, x) == Begun(sock, a, done, x);
  }

  lemma OneMoreOver(b: Books, a: Answers, done: seq<Ref>, b1: Books, r: Ref)
    requires Orderly(b) && WalkedOver(b, a, done, b1) && r !in done && r in b.sock && !b.sock[r].deletePending
    ensures r in b1.sock && b1.sock[r] == b.sock[r]
    ensures WalkedOver(b, a, done + [r], AfterUpdate(b1, r, a))
  {
    SockOneMore(b.sock, a, done, b1.sock, r);
    TreeOneMore(b.tree, b.sock, b1.tree, b1.sock, r, Updated(b.sock[r]));
    KernelOneMore(b.sock, b.kernel, a, done, b1.kernel, r);
    hide NoDup, EpollToAfd, Drop, SockOver, TreeOver, KernelOver, Updated, TreeInv;
  }

  lemma {:induction false} WalkFrom(b: Books, a: Answers, done: seq<Ref>, b1: Books)
    requires Orderly(b) && b.queue == done + b1.queue && WalkedOver(b, a, done, b1)
    ensures var n := Stop(b.sock, b1.queue, a);
      var w := Walked(b1, a);
      && (w.ok <==> n == |b1.queue|) && w.books.queue == b1.queue[n..]
      && WalkedOver(b, a, done + b1.queue[..n], w.books)
    decreases |b1.queue|
  {
    if b1.queue == [] {
      NoneOver(done, b1.queue);
    } else {
      var r := b1.queue[0];
      NextInQueue(b.queue, done, b1.queue);
      assert b1.queue[0] in b.queue;
      OneMoreOver(b, a, done, b1, r);
      hide WalkedOver, Orderly, Refused, FoundClosed, Updated, Covers, Drop, EpollToAfd;
      AfterUpdateQueue(b1, r, a);
      hide AfterUpdate;
      if Refused(b.sock[r], r, a) {
        NoneOver(done, b1.queue);
      } else {
        WalkFrom(b, a, done + [r], AfterUpdate(b1, r, a));
        OneOver(done, b1.queue, Stop(b.sock, b1.queue, a));
      }
    }
  }

  lemma AfterUpdateQueue(b: Books, r: Ref, a: Answers)
    requires r in b.sock
    ensures AfterUpdate(b, r, a).queue == Drop(b.queue, r)
  {
  }

  lemma NoneOver(done: seq<Ref>, queue: seq<Ref>)
    ensures done + queue[..0] == done && queue[0..] == queue
  {
  }

  lemma OneOver(done: seq<Ref>, queue: seq<Ref>, n: nat)
    requires 0 < n <= |queue|
    ensures (done + [queue[0]]) + queue[1..][..n - 1] == done + queue[..n] && queue[1..][n - 1..] == queue[n..]
  {
  }

  lemma NextInQueue(queue: seq<Ref>, done: seq<Ref>, rest: seq<Ref>)
    requires NoDup(queue) && queue == done + rest && rest != []
    ensures rest[0] in queue && rest[0] !in done && queue == (done + [rest[0]]) + rest[1..]
      && Drop(rest, rest[0]) == rest[1..]
  {
    assert queue[|done|] == rest[0];
    assert forall i :: 0 <= i < |done| ==> done[i] == queue[i];
  }

  // A walk updates the records up to the first one for which a request is refused: exactly those of them whose
  // sockets are found closed go, from the records and from the tree, every idle one gets a poll for what is
  // wanted of it, and a poll that does not cover that is cancelled.
  lemma WalkIs(b: Books, a: Answers)
    requires Orderly(b)
    ensures var n := Stop(b.sock, b.queue, a);
      var w := Walked(b, a);
      && (w.ok <==> n == |b.queue|) && w.books.queue == b.queue[n..] && WalkedOver(b, a, b.queue[..n], w.books)
  {
    NothingBefore(b.queue, Stop(b.sock, b.queue, a));
    NothingDone(b, a);
    hide Orderly, WalkedOver;
    WalkFrom(b, a, [], b);
  }

  lemma NothingBefore(queue: seq<Ref>, n: nat)
    requires n <= |queue|
    ensures [] + queue == queue && [] + queue[..n] == queue[..n]
  {
  }

  lemma NothingDone(b: Books, a: Answers)
    requires TreeInv(b.tree, b.sock)
    ensures WalkedOver(b, a, [], b)
  {
    hide EpollToAfd;
  }

  // Some event that is wanted is not among those that the pending poll was started for.
  predicate Uncovered(s: Sock) { s.userEvents & KNOWN_EPOLL_EVENTS & !s.pendingEvents != 0 }

  lemma UncoveredIs(s: Sock)
    ensures Uncovered(s) <==> !Covers(s.userEvents, s.pendingEvents)
  {
  }

  lemma UpdateCases(s: Sock, r: Ref, a: Answers)
    ensures Refused(s, r, a) <==>
      (s.status == Idle && a.poll(r) == SubmitError) || (s.status == Pending && Uncovered(s) && !a.cancel(r))
    ensures FoundClosed(s, r, a) <==> s.status == Idle && a.poll(r) == SocketClosed
    ensures Updated(s) ==
      if s.status == Idle then s.(status := Pending, pendingEvents := s.userEvents)
      else if s.status == Pending && Uncovered(s) then s.(status := Cancelled, pendingEvents := 0)
      else s
  {
    UncoveredIs(s);
    hide Uncovered, Covers;
  }

  // What a walk that is not cut short makes of each record in the queue: a poll that still covers what is wanted, or
  // is being cancelled already, is left alone; one that does not cover it is cancelled; a record without a poll gets
  // one for what is wanted, or goes if its socket turns out to be closed.  The other records stay as they are.
  lemma WalkCases(b: Books, a: Answers, r: Ref)
    requires Orderly(b) && Walked(b, a).ok && r in b.sock
    ensures var s, b1 := b.sock[r], Walked(b, a).books;
      && b1.queue == []
      && if r in b.queue && s.status == Idle then
           if a.poll(r) == SocketClosed then r !in b1.sock && s.key !in b1.tree
           else
             && r in b1.sock && b1.sock[r] == s.(status := Pending, pendingEvents := s.userEvents)
             && r in b1.kernel && b1.kernel[r] == EpollToAfd(s.userEvents)
         else if r in b.queue && s.status == Pending && Uncovered(s) then
           r in b1.sock && b1.sock[r] == s.(status := Cancelled, pendingEvents := 0)
         else r in b1.sock && b1.sock[r] == s
  {
    WalkIs(b, a);
    UpdateCases(b.sock[r], r, a);
    assert b.queue[..|b.queue|] == b.queue;
    assert r in b.queue ==> b.sock[r].key in b.tree && b.tree[b.sock[r].key] == r;
    hide Orderly, EpollToAfd, Uncovered, Updated, FoundClosed, Refused, Walked;
  }

  // It is cut short exactly if the poll of some record without one, or the cancelling of some poll that does not cover
  // what is wanted, is refused.
  lemma WalkCutShort(b: Books, a: Answers)
    requires Orderly(b)
    ensures !Walked(b, a).ok <==>
      exists r ::
        && r in b.queue && r in b.sock
        && ((b.sock[r].status == Idle && a.poll(r) == SubmitError)
            || (b.sock[r].status == Pending && Uncovered(b.sock[r]) && !a.cancel(r)))
  {
    WalkFails(b, a);
    assert forall r :: r in b.queue ==> r in b.sock;
    hide Orderly, Walked, Refusal, Uncovered, Refused;
    forall r | r in b.queue
      ensures Refused(b.sock[r], r, a) <==>
        (b.sock[r].status == Idle && a.poll(r) == SubmitError)
          || (b.sock[r].status == Pending && Uncovered(b.sock[r]) && !a.cancel(r))
    {
      UpdateCases(b.sock[r], r, a);
    }
  }

  // Deleting a record, case by case: without a poll it is freed, otherwise it lingers and its poll is cancelled if
  // that was granted; its socket and its place in the queue go at once.
  lemma DeletedCases(b: Books, r: Ref, granted: bool)
    requires Orderly(b) && r in b.sock && !b.sock[r].deletePending
    ensures var s, b1 := b.sock[r], Deleted(b, r, granted);
      && b1.tree == b.tree - {s.key} && r !in b1.queue && (forall x :: x in b.queue && x != r ==> x in b1.queue)
      && b1.kernel == b.kernel
      && if s.status == Idle then b1.sock == b.sock - {r}
         else
           && b1.sock.Keys == b.sock.Keys && (forall x :: x in b.sock && x != r ==> b1.sock[x] == b.sock[x])
           && b1.sock[r] == (if s.status == Pending && granted then s.(status := Cancelled, pendingEvents := 0,
                deletePending := true) else s.(deletePending := true))
  {
    DropMembers(b.queue, r);
    hide NoDup, Drop, TreeInv;
    assert b.sock[r].status == Idle ==> b.kernel - {r} == b.kernel;
  }

  // Asking for events: they are recorded with the two that are always wanted, and the record is queued for an update
  // exactly if it was or the pending poll does not cover them.
  lemma EventSetCases(b: Books, r: Ref, events: Mask, data: nat)
    requires r in b.sock
    ensures var s, b1 := b.sock[r], EventSet(b, r, events, data);
      && b1.sock == b.sock[r := s.(userEvents := events | EPOLLERR | EPOLLHUP, userData := data)]
      && b1.tree == b.tree && b1.kernel == b.kernel
      && (r in b1.queue <==>
           r in b.queue || (events | EPOLLERR | EPOLLHUP) & KNOWN_EPOLL_EVENTS & !s.pendingEvents != 0)
      && forall x :: x != r ==> (x in b1.queue <==> x in b.queue)
  {
  }

  // A walk changes nothing that a user has asked for.
  lemma WalkKeepsUsers(b: Books, a: Answers)
    requires Orderly(b)
    ensures SameUsers(b.sock, Walked(b, a).books.sock)
    ensures forall k :: k in Walked(b, a).books.tree ==>
      k in b.tree && Walked(b, a).books.tree[k] == b.tree[k] && b.tree[k] in Walked(b, a).books.sock
  {
    WalkIs(b, a);
    var n := Stop(b.sock, b.queue, a);
    OverKeepsUsers(b.sock, a, b.queue[..n], Walked(b, a).books.sock);
    hide Orderly, KernelOver, SockOver, SameUsers, Walked;
  }

  lemma OverKeepsUsers(sock: map<Ref, Sock>, a: Answers, done: seq<Ref>, sock1: map<Ref, Sock>)
    requires SockOver(sock, a, done, sock1)
    ensures SameUsers(sock, sock1)
  {
    hide FoundClosed, Covers;
  }

  // A walk is cut short: the kernel refuses the one request that some queued record needs.
  ghost predicate Refusal(b: Books, a: Answers) { Stop(b.sock, b.queue, a) < |b.queue| }

  lemma WalkFails(b: Books, a: Answers)
    requires Orderly(b)
    ensures Walked(b, a).ok <==> !Refusal(b, a)
    ensures Refusal(b, a) <==> exists r :: r in b.queue && Refused(b.sock[r], r, a)
  {
    WalkIs(b, a);
    hide NoDup, TreeInv, WalkedOver, Refused;
    var n := Stop(b.sock, b.queue, a);
    if n < |b.queue| {
      assert b.queue[n] in b.queue;
    } else {
      assert forall r :: r in b.queue ==> !Refused(b.sock[r], r, a);
    }
  }

  // A kernel that refuses nothing.
  ghost predicate Willing(a: Answers) { forall r :: a.poll(r) != SubmitError && a.cancel(r) }

  lemma {:induction false} WillingWalk(b: Books, a: Answers)
    requires Orderly(b) && Willing(a)
    ensures Walked(b, a).ok && Walked(b, a).books.queue == []
  {
    hide NoDup;
    WalkIs(b, a);
  }

  // ---------- every operation keeps the books in order ----------

  lemma DeletedOrderly(b: Books, r: Ref, granted: bool)
    requires Orderly(b) && r in b.sock
    ensures Orderly(Deleted(b, r, granted))
  {
    RetiredStays(b.sock[r], granted);
    DropMembers(b.queue, r);
    DeletedTree(b.tree, b.sock, r, Retired(b.sock[r], granted));
    hide Retired, NoDup, Drop, TreeInv;
  }

  lemma DeletedTree(tree: map<Socket, Ref>, sock: map<Ref, Sock>, r: Ref, s: Sock)
    requires TreeInv(tree, sock) && r in sock && s.deletePending
    ensures var tree1 := if sock[r].deletePending then tree else tree - {sock[r].key};
      TreeInv(tree1, sock[r := s]) && TreeInv(tree1, sock - {r})
  {
    if !sock[r].deletePending {
      LeaveTree(tree, sock, r, s);
    }
  }

  // A record changes, but neither its key nor whether it is to be freed.
  lemma ChangedOrderly(b: Books, r: Ref, s: Sock, kernel: map<Ref, Mask>)
    requires Orderly(b) && r in b.sock && s.key == b.sock[r].key && s.deletePending == b.sock[r].deletePending
    requires forall x :: x in kernel && x != r ==> x in b.kernel
    requires s.status == Idle ==> r !in kernel
    ensures Orderly(b.(sock := b.sock[r := s], kernel := kernel))
  {
    hide NoDup;
  }

  lemma QueuedOrderly(b: Books, r: Ref)
    requires Orderly(b) && r in b.sock && !b.sock[r].deletePending
    ensures Orderly(b.(queue := Queued(b.queue, r)))
  {
    if r !in b.queue {
      NoDupAppend(b.queue, [r]);
    }
    hide NoDup;
  }

  lemma DroppedOrderly(b: Books, r: Ref)
    requires Orderly(b)
    ensures Orderly(b.(queue := Drop(b.queue, r)))
  {
    DropMembers(b.queue, r);
    hide NoDup;
  }

  lemma EventSetOrderly(b: Books, r: Ref, events: Mask, data: nat)
    requires Orderly(b) && r in b.sock && !b.sock[r].deletePending
    ensures Orderly(EventSet(b, r, events, data))
  {
    hide Covers;
    ChangedOrderly(b, r, Wanting(b.sock[r], events, data), b.kernel);
    QueuedOrderly(b.(sock := b.sock[r := Wanting(b.sock[r], events, data)]), r);
    hide Orderly, Queued;
  }

  lemma JoinedOrderly(b: Books, r: Ref, group: Group, socket: Socket, events: Mask, data: nat)
    requires Orderly(b) && r !in b.sock && r !in b.kernel && socket !in b.tree
    ensures Orderly(Joined(b, r, group, socket, events, data))
  {
    RegisteredOrderly(b, r, NewSock(group, socket));
    hide Orderly, EventSet;
    EventSetOrderly(Registered(b, r, NewSock(group, socket)), r, events, data);
  }

  lemma RegisteredOrderly(b: Books, r: Ref, s: Sock)
    requires Orderly(b) && r !in b.sock && r !in b.kernel && s.key !in b.tree && !s.deletePending
    ensures Orderly(Registered(b, r, s))
  {
    hide NoDup;
  }

  lemma FedOrderly(b: Books, p: Packet)
    requires Orderly(b)
    ensures Orderly(Fed(b, p))
  {
    hide AfterEvent, Reported;
    if p.sock in b.sock {
      var s := b.sock[p.sock].(status := Idle, pendingEvents := 0);
      ChangedOrderly(b, p.sock, s, b.kernel - {p.sock});
      var b0 := b.(sock := b.sock[p.sock := s], kernel := b.kernel - {p.sock});
      if s.deletePending || Reported(p) == None {
        DeletedOrderly(b0, p.sock, false);
      } else {
        AfterEventKeeps(s, Reported(p).value);
        ChangedOrderly(b0, p.sock, AfterEvent(s, Reported(p).value), b0.kernel);
        QueuedOrderly(b0.(sock := b0.sock[p.sock := AfterEvent(s, Reported(p).value)]), p.sock);
      }
    }
    hide Orderly;
  }

  lemma AfterUpdateOrderly(b: Books, r: Ref, a: Answers)
    requires Orderly(b) && r in b.sock
    ensures Orderly(AfterUpdate(b, r, a))
  {
    hide EpollToAfd, Covers;
    var s := b.sock[r];
    if FoundClosed(s, r, a) {
      DeletedOrderly(b, r, false);
    } else {
      var kernel := if s.status == Idle then b.kernel[r := EpollToAfd(s.userEvents)] else b.kernel;
      ChangedOrderly(b, r, Updated(s), kernel);
      DroppedOrderly(b.(sock := b.sock[r := Updated(s)], kernel := kernel), r);
    }
    hide Orderly;
  }

  lemma {:induction false} WalkedOrderly(b: Books, a: Answers)
    requires Orderly(b)
    ensures Orderly(Walked(b, a).books)
    decreases |b.queue|
  {
    if b.queue != [] && b.queue[0] in b.sock {
      AfterUpdateOrderly(b, b.queue[0], a);
      AfterUpdateQueue(b, b.queue[0], a);
      hide Orderly, AfterUpdate, Refused;
      if !Refused(b.sock[b.queue[0]], b.queue[0], a) {
        WalkedOrderly(AfterUpdate(b, b.queue[0], a), a);
      }
    }
  }

  // ---------- which sockets go ----------

  // A walk over the update queue finds the socket closed.
  ghost predicate ClosedInWalk(b: Books, a: Answers, k: Socket) {
    exists r :: r in b.queue[..Stop(b.sock, b.queue, a)] && r in b.sock && FoundClosed(b.sock[r], r, a)
      && b.sock[r].key == k
  }

  lemma WalkTree(b: Books, a: Answers, k: Socket)
    requires Orderly(b)
    ensures k in Walked(b, a).books.tree <==> k in b.tree && !ClosedInWalk(b, a, k)
  {
    WalkIs(b, a);
    hide NoDup, Refused, FoundClosed, Updated, KernelOver;
    var n := Stop(b.sock, b.queue, a);
    assert forall r :: r in b.queue[..n] ==> r in b.queue;
  }

  // One of the packets says that the socket was closed.
  ghost predicate ClosedInFeed(b: Books, packets: seq<Packet>, k: Socket) {
    exists p: Packet :: p in packets && p.sock in b.sock && !b.sock[p.sock].deletePending && Reported(p) == None
      && b.sock[p.sock].key == k
  }

  lemma FedTree(b: Books, p: Packet, k: Socket)
    requires Orderly(b)
    ensures k in Fed(b, p).tree <==>
      k in b.tree && !(p.sock in b.sock && !b.sock[p.sock].deletePending && Reported(p) == None
        && b.sock[p.sock].key == k)
  {
    hide Reported, Drop, NoDup, AfterEvent, Queued;
  }

  lemma {:induction false} FeedTree(b: Books, packets: seq<Packet>, k: Socket)
    requires Orderly(b) && Distinct(packets)
    ensures Orderly(FedAll(b, packets))
    ensures k in FedAll(b, packets).tree <==> k in b.tree && !ClosedInFeed(b, packets, k)
    decreases |packets|
  {
    hide Orderly, Reported, Fed;
    if packets != [] {
      var p, rest := packets[0], packets[1..];
      FedOrderly(b, p);
      FedTree(b, p, k);
      FedOthers(b, p);
      assert forall q: Packet :: q in packets <==> q == p || q in rest;
      assert forall q: Packet :: q in rest ==> q.sock != p.sock;
      FeedTree(Fed(b, p), rest, k);
    }
  }
}
