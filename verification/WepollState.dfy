/** The state of a wepoll port and what holds of it whenever the port lock is free.

    Socket records and poll groups are blocks of memory, named by their address: `sock` maps the
    address of every allocated record to its fields, so that reading a record that has been freed
    does not verify.  `kernel` maps each record that has a poll outstanding to the AFD mask of that
    poll; the kernel, the completion port and the packets that a waiting thread has taken but not
    yet fed back all count as outstanding. */
module WepollState {
  import opened Basics
  import opened Collections
  import opened WepollEvents

  type Ref = nat
  type Group = nat
  type Socket = nat
  type Thread = nat

  const MAX_GROUP_SIZE := 32

  datatype PollStatus = Idle | Pending | Cancelled

  datatype Sock = Sock(
    group: Group,
    key: Socket,
    userData: nat,
    userEvents: Mask,
    pendingEvents: Mask,
    status: PollStatus,
    deletePending: bool)

  datatype IoStatus = Success | Aborted | Failed

  // A completion packet: the record it belongs to and what the kernel wrote there.
  datatype Packet = Packet(sock: Ref, status: IoStatus, handles: nat, events: Mask)

  datatype Event = Event(data: nat, events: Mask)

  // What a packet tells the user, before it is filtered; None if it says that the socket was closed.
  function Reported(p: Packet): Option<Mask> {
    match p.status
    case Aborted => Some(0)
    case Failed => Some(EPOLLERR)
    case Success =>
      if p.handles < 1 then Some(0)
      else if p.events & AFD_POLL_LOCAL_CLOSE != 0 then None
      else Some(AfdToEpoll(p.events))
  }

  // What of this the user of record s has asked to hear.
  function EventFor(s: Sock, events: Mask): Option<Event> {
    Offer(events & s.userEvents, s.userData)
  }

  function Offer(events: Mask, data: nat): Option<Event> {
    if events == 0 then None else Some(Event(data, events))
  }

  // Reporting an event to a one-shot record leaves nothing monitored.
  function AfterEvent(s: Sock, events: Mask): Sock {
    if events & s.userEvents != 0 && s.userEvents & EPOLLONESHOT != 0 then s.(userEvents := 0) else s
  }

  // What feeding one packet tells the user.
  function Heard(s: Sock, p: Packet): Option<Event> {
    if s.deletePending || Reported(p) == None then None else EventFor(s, Reported(p).value)
  }

  // The packet says that the socket was closed.
  predicate Closes(p: Packet) { p.status == Success && p.handles >= 1 && p.events & AFD_POLL_LOCAL_CLOSE != 0 }

  // The events that a packet has to tell the user of its record; if there are none he is told nothing.
  function Tells(s: Sock, p: Packet): Mask {
    if s.deletePending || p.status == Aborted then 0
    else if p.status == Failed then EPOLLERR & s.userEvents
    else if p.handles < 1 || Closes(p) then 0
    else AfdToEpoll(p.events) & s.userEvents
  }

  lemma HeardIs(s: Sock, p: Packet)
    ensures Heard(s, p) == if Tells(s, p) == 0 then None else Some(Event(s.userData, Tells(s, p)))
    ensures Reported(p) == None <==> Closes(p)
    ensures !s.deletePending && !Closes(p) ==> Reported(p).Some? && Reported(p).value & s.userEvents == Tells(s, p)
  {
    hide AfdToEpoll;
  }

  // Every packet is about a record that is still there.
  ghost predicate Known(sock: map<Ref, Sock>, packets: seq<Packet>) {
    forall p: Packet :: p in packets ==> p.sock in sock
  }

  // What feeding a batch of packets tells the user, read off the records as they were before it.
  ghost function HeardAll(sock: map<Ref, Sock>, packets: seq<Packet>): (events: seq<Event>)
    requires Known(sock, packets)
    ensures |events| <= |packets|
  {
    if packets == [] then []
    else
      var rest := HeardAll(sock, packets[1..]);
      match Heard(sock[packets[0].sock], packets[0])
      case None => rest
      case Some(e) => [e] + rest
  }

  lemma {:induction false} HeardAllSame(sock: map<Ref, Sock>, sock1: map<Ref, Sock>, packets: seq<Packet>)
    requires forall p: Packet :: p in packets ==> p.sock in sock && p.sock in sock1 && sock[p.sock] == sock1[p.sock]
    ensures HeardAll(sock, packets) == HeardAll(sock1, packets)
  {
    hide Heard;
    if packets != [] {
      assert packets[0] in packets;
      HeardAllSame(sock, sock1, packets[1..]);
    }
  }

  lemma AfterEventKeeps(s: Sock, events: Mask)
    ensures AfterEvent(s, events) == s.(userEvents := AfterEvent(s, events).userEvents)
    ensures EventFor(s, events) == None ==> AfterEvent(s, events) == s
  {
  }

  // ---------- the parts of the invariant ----------

  ghost predicate TreeInv(tree: map<Socket, Ref>, sock: map<Ref, Sock>) {
    && (forall k :: k in tree ==> tree[k] in sock && sock[tree[k]].key == k && !sock[tree[k]].deletePending)
    && (forall r :: r in sock && !sock[r].deletePending ==> sock[r].key in tree && tree[sock[r].key] == r)
  }

  ghost predicate QueueInv(upd: seq<Ref>, del: seq<Ref>, sock: map<Ref, Sock>) {
    && NoDup(upd) && NoDup(del)
    && (forall r :: r in upd ==> r in sock && !sock[r].deletePending)
    && (forall r :: r in del ==> r in sock && sock[r].deletePending)
    && (forall r :: r in sock && sock[r].deletePending ==> r in del)
  }

  ghost predicate PollInv(sock: map<Ref, Sock>, kernel: map<Ref, Mask>) {
    && (forall r :: r in kernel ==> r in sock)
    && (forall r :: r in sock ==> PollOk(sock[r], r in kernel, MaskOf(kernel, r)))
  }

  ghost function MaskOf(kernel: map<Ref, Mask>, r: Ref): Mask { if r in kernel then kernel[r] else 0 }

  ghost predicate PollOk(s: Sock, outstanding: bool, mask: Mask) {
    && outstanding == (s.status != Idle)
    && (s.status != Pending ==> s.pendingEvents == 0)
    && (s.status == Pending ==> mask == EpollToAfd(s.pendingEvents))
  }

  // A live socket that is not queued for an update is being watched, or its poll is on the way back.
  ghost predicate Watched(s: Sock) {
    s.status == Cancelled || (s.status == Pending && Covers(s.userEvents, s.pendingEvents))
  }

  // A record waiting to be freed still has its poll outstanding.
  ghost predicate Settled(s: Sock, queued: bool) {
    if s.deletePending then s.status != Idle else queued || Watched(s)
  }

  ghost predicate WatchInv(sock: map<Ref, Sock>, upd: seq<Ref>) {
    forall r :: r in sock ==> Settled(sock[r], r in upd)
  }

  // The packets that the waiting threads hold belong to distinct outstanding polls.
  ghost predicate HeldInv(waiting: map<Thread, seq<Packet>>, kernel: map<Ref, Mask>) {
    && (forall t, i :: t in waiting && 0 <= i < |waiting[t]| ==> waiting[t][i].sock in kernel)
    && (forall t, i, u, j ::
          t in waiting && 0 <= i < |waiting[t]| && u in waiting && 0 <= j < |waiting[u]| && !(t == u && i == j)
          ==> waiting[t][i].sock != waiting[u][j].sock)
  }

  // A thread starts or stops waiting.
  lemma WaitMore(waiting: map<Thread, seq<Packet>>, t: Thread, kernel: map<Ref, Mask>)
    requires HeldInv(waiting, kernel) && t !in waiting
    ensures HeldInv(waiting[t := []], kernel) && |waiting[t := []]| == |waiting| + 1
  {
  }

  lemma WaitLess(waiting: map<Thread, seq<Packet>>, t: Thread, kernel: map<Ref, Mask>)
    requires HeldInv(waiting, kernel) && t in waiting
    ensures HeldInv(waiting - {t}, kernel) && |waiting - {t}| == |waiting| - 1
  {
    assert waiting.Keys == (waiting - {t}).Keys + {t};
  }

  predicate Distinct(packets: seq<Packet>) {
    forall i, j :: 0 <= i < j < |packets| ==> packets[i].sock != packets[j].sock
  }

  predicate Held(waiting: map<Thread, seq<Packet>>, r: Ref) {
    exists t, i :: t in waiting && 0 <= i < |waiting[t]| && waiting[t][i].sock == r
  }

  // A thread that is waiting takes packets from the completion port.
  lemma TakePackets(waiting: map<Thread, seq<Packet>>, t: Thread, packets: seq<Packet>, kernel: map<Ref, Mask>)
    requires HeldInv(waiting, kernel) && t in waiting && Distinct(packets)
    requires forall p: Packet :: p in packets ==> p.sock in kernel && !Held(waiting, p.sock)
    ensures HeldInv(waiting[t := packets], kernel)
  {
    var waiting1: map<Thread, seq<Packet>> := waiting[t := packets];
    forall u, i, v, j | u in waiting1 && 0 <= i < |waiting1[u]| && v in waiting1 && 0 <= j < |waiting1[v]|
      && !(u == v && i == j)
      ensures waiting1[u][i].sock != waiting1[v][j].sock
    {
      if u == t && v != t {
        assert packets[i] in packets;
      } else if u != t && v == t {
        assert packets[j] in packets;
      }
    }
  }

  // It feeds the first of them back.
  lemma PutBack(waiting: map<Thread, seq<Packet>>, t: Thread, kernel: map<Ref, Mask>)
    requires HeldInv(waiting, kernel) && t in waiting && waiting[t] != []
    ensures waiting[t][0].sock in kernel
    ensures HeldInv(waiting[t := waiting[t][1..]], kernel)
    ensures HeldInv(waiting[t := waiting[t][1..]], kernel - {waiting[t][0].sock})
    ensures forall p: Packet :: p in waiting[t][1..] ==> p.sock != waiting[t][0].sock
  {
    var q, r := waiting[t][1..], waiting[t][0].sock;
    var waiting1: map<Thread, seq<Packet>> := waiting[t := q];
    assert forall i :: 0 <= i < |q| ==> q[i] == waiting[t][i + 1];
    forall u, i | u in waiting1 && 0 <= i < |waiting1[u]|
      ensures waiting1[u][i].sock in kernel && waiting1[u][i].sock != r
    {
      assert u == t ==> waiting1[u][i] == waiting[t][i + 1];
    }
    forall u, i, v, j | u in waiting1 && 0 <= i < |waiting1[u]| && v in waiting1 && 0 <= j < |waiting1[v]|
      && !(u == v && i == j)
      ensures waiting1[u][i].sock != waiting1[v][j].sock
    {
      assert u == t ==> waiting1[u][i] == waiting[t][i + 1];
      assert v == t ==> waiting1[v][j] == waiting[t][j + 1];
    }
  }

  // ---------- poll groups ----------

  ghost function Members(sock: map<Ref, Sock>, g: Group): set<Ref> {
    set r | r in sock && sock[r].group == g
  }

  // The queue of groups: the full ones are a prefix of it.
  ghost predicate GroupQueue(groups: seq<Group>, size: map<Group, nat>) {
    && NoDup(groups)
    && (forall g :: g in groups <==> g in size)
    && (forall g :: g in size ==> size[g] <= MAX_GROUP_SIZE)
    && FullFirst(groups, size)
  }

  ghost predicate FullFirst(groups: seq<Group>, size: map<Group, nat>)
    requires forall g :: g in groups ==> g in size
  {
    forall i, j :: 0 <= i < j < |groups| && size[groups[j]] == MAX_GROUP_SIZE ==> size[groups[i]] == MAX_GROUP_SIZE
  }

  // Every group counts its records; `extra` is the group of one that is counted but not in `sock`.
  ghost predicate GroupCount(sock: map<Ref, Sock>, size: map<Group, nat>, extra: Option<Group>) {
    && (forall r :: r in sock ==> sock[r].group in size)
    && (extra.Some? ==> extra.value in size)
    && (forall g :: g in size ==> Counted(sock, g, size[g], extra))
  }

  ghost predicate Counted(sock: map<Ref, Sock>, g: Group, n: nat, extra: Option<Group>) {
    n == |Members(sock, g)| + if extra == Some(g) then 1 else 0
  }

  lemma TakeOutOfGroup(sock: map<Ref, Sock>, r: Ref, size: map<Group, nat>)
    requires GroupCount(sock, size, None) && r in sock
    ensures GroupCount(sock - {r}, size, Some(sock[r].group))
  {
    var sock1 := sock - {r};
    forall g | g in size
      ensures Counted(sock1, g, size[g], Some(sock[r].group))
    {
      assert Counted(sock, g, size[g], None);
      if sock[r].group == g {
        assert Members(sock, g) == Members(sock1, g) + {r};
      } else {
        assert Members(sock, g) == Members(sock1, g);
      }
    }
  }

  lemma MembersPut(sock: map<Ref, Sock>, r: Ref, s: Sock, g: Group)
    requires r !in sock
    ensures |Members(sock[r := s], g)| == |Members(sock, g)| + if s.group == g then 1 else 0
  {
    if s.group == g {
      assert Members(sock[r := s], g) == Members(sock, g) + {r};
    } else {
      assert Members(sock[r := s], g) == Members(sock, g);
    }
  }

  lemma PutIntoGroup(sock: map<Ref, Sock>, r: Ref, s: Sock, size: map<Group, nat>)
    requires GroupCount(sock, size, Some(s.group)) && r !in sock
    ensures GroupCount(sock[r := s], size, None)
  {
    var sock1 := sock[r := s];
    forall g | g in size
      ensures Counted(sock1, g, size[g], None)
    {
      assert Counted(sock, g, size[g], Some(s.group));
      MembersPut(sock, r, s, g);
    }
  }

  // Changing a record without moving it to another group.
  lemma SameGroup(sock: map<Ref, Sock>, r: Ref, s: Sock, size: map<Group, nat>, extra: Option<Group>)
    requires GroupCount(sock, size, extra) && r in sock && s.group == sock[r].group
    ensures GroupCount(sock[r := s], size, extra)
  {
    forall g | g in size
      ensures Counted(sock[r := s], g, size[g], extra)
    {
      assert Members(sock[r := s], g) == Members(sock, g);
      assert Counted(sock, g, size[g], extra);
    }
  }

  lemma CountStep(sock: map<Ref, Sock>, g: Group, size: map<Group, nat>)
    requires g in size
    ensures GroupCount(sock, size, None) ==> GroupCount(sock, size[g := size[g] + 1], Some(g))
    ensures GroupCount(sock, size, Some(g)) ==> size[g] > 0 && GroupCount(sock, size[g := size[g] - 1], None)
  {
    if GroupCount(sock, size, None) {
      assert forall x :: x in size ==> Counted(sock, x, size[x], None);
    }
    if GroupCount(sock, size, Some(g)) {
      assert forall x :: x in size ==> Counted(sock, x, size[x], Some(g));
    }
  }

  // Moving one entry of a queue to either end.
  lemma MoveEntry<T>(q: seq<T>, x: T)
    requires NoDup(q) && x in q
    ensures NoDup(Drop(q, x) + [x]) && NoDup([x] + Drop(q, x))
    ensures forall y :: y in Drop(q, x) + [x] <==> y in q
    ensures forall y :: y in [x] + Drop(q, x) <==> y in q
  {
    DropMembers(q, x);
  }

  // Leaving a group: it moves to the end of the queue.
  lemma ReleaseQueue(g: Group, groups: seq<Group>, size: map<Group, nat>)
    requires GroupQueue(groups, size) && g in size && size[g] > 0
    ensures GroupQueue(Drop(groups, g) + [g], size[g := size[g] - 1])
  {
    hide NoDup;
    MoveEntry(groups, g);
    DropMembers(groups, g);
    DropFullFirst(groups, g, size);
    FullFirstRelease(Drop(groups, g), g, size);
  }

  lemma FullFirstRelease(d: seq<Group>, g: Group, size: map<Group, nat>)
    requires (forall x :: x in d ==> x in size && x != g) && FullFirst(d, size) && g in size
      && 0 < size[g] <= MAX_GROUP_SIZE
    ensures FullFirst(d + [g], size[g := size[g] - 1])
  {
    var groups1 := d + [g];
    assert forall i :: 0 <= i < |d| ==> groups1[i] == d[i];
  }

  // Joining the last group while it does not fill up.
  lemma AcquireQueue(g: Group, groups: seq<Group>, size: map<Group, nat>)
    requires GroupQueue(groups, size) && groups != [] && g == groups[|groups| - 1] && size[g] + 1 < MAX_GROUP_SIZE
    ensures GroupQueue(groups, size[g := size[g] + 1])
  {
    var size1 := size[g := size[g] + 1];
    forall i, j | 0 <= i < j < |groups| && size1[groups[j]] == MAX_GROUP_SIZE
      ensures size1[groups[i]] == MAX_GROUP_SIZE
    {
      assert groups[i] != groups[|groups| - 1];
    }
  }

  // A group that has become full moves to the start of the queue.
  lemma FillQueue(g: Group, groups: seq<Group>, size: map<Group, nat>)
    requires GroupQueue(groups, size) && g in size
    ensures GroupQueue([g] + Drop(groups, g), size[g := MAX_GROUP_SIZE])
  {
    hide NoDup;
    MoveEntry(groups, g);
    DropMembers(groups, g);
    DropFullFirst(groups, g, size);
    FullFirstFill(Drop(groups, g), g, size);
  }

  lemma FullFirstFill(d: seq<Group>, g: Group, size: map<Group, nat>)
    requires (forall x :: x in d ==> x in size && x != g) && FullFirst(d, size)
    ensures FullFirst([g] + d, size[g := MAX_GROUP_SIZE])
  {
    var groups1 := [g] + d;
    assert forall i :: 0 < i < |groups1| ==> groups1[i] == d[i - 1] && d[i - 1] in d;
  }

  // If the last group is full, they all are.
  lemma AllFull(groups: seq<Group>, size: map<Group, nat>)
    requires GroupQueue(groups, size)
    requires groups == [] || size[groups[|groups| - 1]] >= MAX_GROUP_SIZE
    ensures forall g :: g in size ==> size[g] == MAX_GROUP_SIZE
  {
    forall g | g in size
      ensures size[g] == MAX_GROUP_SIZE
    {
      var i :| 0 <= i < |groups| && groups[i] == g;
    }
  }

  lemma NewGroupQueue(g: Group, groups: seq<Group>, size: map<Group, nat>)
    requires GroupQueue(groups, size) && g !in size && forall x :: x in size ==> size[x] == MAX_GROUP_SIZE
    ensures GroupQueue(groups + [g], size[g := 0])
  {
    var groups1 := groups + [g];
    assert forall i :: 0 <= i < |groups| ==> groups1[i] == groups[i] && groups[i] in groups;
  }

  lemma NewGroupCount(sock: map<Ref, Sock>, g: Group, size: map<Group, nat>)
    requires GroupCount(sock, size, None) && g !in size
    ensures GroupCount(sock, size[g := 0], None)
  {
    assert Members(sock, g) == {};
    assert forall x :: x in size ==> Counted(sock, x, size[x], None);
  }

  lemma FullFirstRest(groups: seq<Group>, size: map<Group, nat>)
    requires groups != [] && (forall x :: x in groups ==> x in size) && FullFirst(groups, size)
    ensures (forall x :: x in groups[1..] ==> x in groups) && FullFirst(groups[1..], size)
    ensures forall x :: x in groups[1..] && size[x] == MAX_GROUP_SIZE ==> size[groups[0]] == MAX_GROUP_SIZE
  {
    assert forall i :: 0 <= i < |groups| - 1 ==> groups[1..][i] == groups[i + 1];
  }

  lemma FullFirstPut(g: Group, groups: seq<Group>, size: map<Group, nat>)
    requires g in size && (forall x :: x in groups ==> x in size) && FullFirst(groups, size)
    requires forall x :: x in groups && size[x] == MAX_GROUP_SIZE ==> size[g] == MAX_GROUP_SIZE
    ensures (forall x :: x in [g] + groups ==> x in size) && FullFirst([g] + groups, size)
  {
    var groups1 := [g] + groups;
    assert forall i :: 0 < i < |groups1| ==> groups1[i] == groups[i - 1] && groups[i - 1] in groups;
  }

  lemma {:induction false} DropFullFirst(groups: seq<Group>, g: Group, size: map<Group, nat>)
    requires (forall x :: x in groups ==> x in size) && FullFirst(groups, size)
    ensures (forall x :: x in Drop(groups, g) ==> x in groups) && FullFirst(Drop(groups, g), size)
  {
    if groups != [] {
      FullFirstRest(groups, size);
      if groups[0] != g {
        DropFullFirst(groups[1..], g, size);
        FullFirstPut(groups[0], Drop(groups[1..], g), size);
      }
    }
  }

  // The sizes of all groups add up to the number of records.
  ghost function SizeSum(groups: seq<Group>, size: map<Group, nat>): nat
    requires forall g :: g in groups ==> g in size
  {
    if groups == [] then 0 else size[groups[0]] + SizeSum(groups[1..], size)
  }

  lemma SplitByGroup(sock: map<Ref, Sock>, g: Group) returns (others: map<Ref, Sock>)
    ensures forall r :: r in others <==> r in sock && sock[r].group != g
    ensures forall r :: r in others ==> others[r] == sock[r]
    ensures |sock| == |others| + |Members(sock, g)|
  {
    others := map r | r in sock && sock[r].group != g :: sock[r];
    assert sock.Keys == others.Keys + Members(sock, g);
  }

  lemma OthersCounted(sock: map<Ref, Sock>, others: map<Ref, Sock>, g: Group, x: Group, n: nat)
    requires Counted(sock, x, n, None) && x != g
    requires forall r :: r in others <==> r in sock && sock[r].group != g
    requires forall r :: r in others ==> others[r] == sock[r]
    ensures Counted(others, x, n, None)
  {
    assert Members(others, x) == Members(sock, x);
  }

  lemma {:induction false} SizesSum(sock: map<Ref, Sock>, groups: seq<Group>, size: map<Group, nat>)
    requires NoDup(groups) && (forall g :: g in groups ==> g in size && Counted(sock, g, size[g], None))
    requires forall r :: r in sock ==> sock[r].group in groups
    ensures SizeSum(groups, size) == |sock|
  {
    if groups == [] {
      assert sock == map[];
    } else {
      var g, rest := groups[0], groups[1..];
      assert groups == [g] + rest && g !in rest;
      var others := SplitByGroup(sock, g);
      assert Counted(sock, g, size[g], None);
      assert |sock| == |others| + size[g];
      hide Counted;
      forall x | x in rest
        ensures Counted(others, x, size[x], None)
      {
        OthersCounted(sock, others, g, x, size[x]);
      }
      SizesSum(others, rest, size);
    }
  }

  // ---------- changing one record ----------

  // A record changes, but neither its place in the tree and the queues nor its group.
  lemma ChangeRecord(sock: map<Ref, Sock>, r: Ref, s: Sock, tree: map<Socket, Ref>, upd: seq<Ref>, del: seq<Ref>)
    requires TreeInv(tree, sock) && QueueInv(upd, del, sock) && r in sock
    requires s.key == sock[r].key && s.deletePending == sock[r].deletePending
    ensures TreeInv(tree, sock[r := s]) && QueueInv(upd, del, sock[r := s])
  {
  }

  lemma ChangePoll(sock: map<Ref, Sock>, r: Ref, s: Sock, kernel: map<Ref, Mask>)
    requires PollInv(sock, kernel) && r in sock
    requires PollOk(s, r in kernel, MaskOf(kernel, r))
    ensures PollInv(sock[r := s], kernel)
  {
  }

  lemma CancelPoll(sock: map<Ref, Sock>, r: Ref, kernel: map<Ref, Mask>)
    requires PollInv(sock, kernel) && r in sock && sock[r].status == Pending
    ensures PollInv(sock[r := sock[r].(status := Cancelled, pendingEvents := 0)], kernel)
  {
    hide EpollToAfd;
    ChangePoll(sock, r, sock[r].(status := Cancelled, pendingEvents := 0), kernel);
  }

  lemma DeletePoll(sock: map<Ref, Sock>, r: Ref, kernel: map<Ref, Mask>)
    requires PollInv(sock, kernel) && r in sock
    ensures PollInv(sock[r := sock[r].(deletePending := true)], kernel)
  {
    hide EpollToAfd;
    ChangePoll(sock, r, sock[r].(deletePending := true), kernel);
  }

  // ---------- taking a record out ----------

  lemma LeaveQueues(upd: seq<Ref>, del: seq<Ref>, sock: map<Ref, Sock>, r: Ref)
    requires QueueInv(upd, del, sock)
    ensures QueueInv(Drop(upd, r), Drop(del, r), sock - {r}) && r !in Drop(upd, r) && r !in Drop(del, r)
  {
    DropMembers(upd, r);
    DropMembers(del, r);
  }

  lemma JoinDeleted(upd: seq<Ref>, del: seq<Ref>, sock: map<Ref, Sock>, r: Ref)
    requires QueueInv(upd, del, sock - {r}) && r !in del && r !in upd && r in sock && sock[r].deletePending
    ensures QueueInv(upd, del + [r], sock)
  {
  }

  lemma JoinUpdate(upd: seq<Ref>, del: seq<Ref>, sock: map<Ref, Sock>, r: Ref)
    requires QueueInv(upd, del, sock) && r !in upd && r in sock && !sock[r].deletePending
    ensures QueueInv(upd + [r], del, sock)
  {
  }

  lemma LeaveTree(tree: map<Socket, Ref>, sock: map<Ref, Sock>, r: Ref, s: Sock)
    requires TreeInv(tree, sock) && r in sock && !sock[r].deletePending && s.deletePending
    ensures TreeInv(tree - {sock[r].key}, sock[r := s])
  {
  }

  lemma FreeRecord(tree: map<Socket, Ref>, sock: map<Ref, Sock>, kernel: map<Ref, Mask>, r: Ref)
    requires TreeInv(tree, sock) && PollInv(sock, kernel) && r in sock && sock[r].deletePending
    ensures TreeInv(tree, sock - {r}) && PollInv(sock - {r}, kernel - {r})
    ensures sock[r].status == Idle ==> kernel - {r} == kernel
  {
    hide EpollToAfd;
    if sock[r].status == Idle {
      assert PollOk(sock[r], r in kernel, MaskOf(kernel, r));
      assert kernel - {r} == kernel;
    }
  }

  lemma NothingHeld(waiting: map<Thread, seq<Packet>>, kernel: map<Ref, Mask>)
    requires waiting == map[]
    ensures HeldInv(waiting, kernel)
  {
  }

  lemma {:induction false} DropAbsent<T>(q: seq<T>, x: T)
    requires x !in q
    ensures Drop(q, x) == q
  {
    if q != [] {
      DropAbsent(q[1..], x);
    }
  }

  lemma DeletedQueued(upd: seq<Ref>, del: seq<Ref>, sock: map<Ref, Sock>, r: Ref)
    requires QueueInv(upd, del, sock) && r in sock && sock[r].deletePending
    ensures r in del && r !in upd && Drop(upd, r) == upd
  {
    DropAbsent(upd, r);
  }

  // ---------- nobody is left unwatched ----------

  // A record changes or goes; its queue entry comes or goes with it.
  lemma Resettle(sock: map<Ref, Sock>, upd: seq<Ref>, sock1: map<Ref, Sock>, upd1: seq<Ref>, r: Ref)
    requires WatchInv(sock - {r}, upd)
    requires forall x :: x in sock1 && x != r ==> x in sock && sock1[x] == sock[x] && (x in upd ==> x in upd1)
    requires r in sock1 ==> Settled(sock1[r], r in upd1)
    ensures WatchInv(sock1, upd1)
  {
    hide Watched;
    forall x | x in sock1
      ensures Settled(sock1[x], x in upd1)
    {
      assert x != r ==> x in sock - {r} && Settled((sock - {r})[x], x in upd);
    }
  }

  lemma WatchWithout(sock: map<Ref, Sock>, upd: seq<Ref>, r: Ref)
    requires WatchInv(sock, upd)
    ensures WatchInv(sock - {r}, upd)
  {
    hide Settled;
  }

  lemma AlwaysAsks(events: Mask)
    ensures !Covers(events | EPOLLERR | EPOLLHUP, 0)
  {
  }

  // Events that a pending poll does not cover are asked for by an update; all others are watched.
  lemma AskedOrWatched(sock: map<Ref, Sock>, r: Ref, events: Mask, kernel: map<Ref, Mask>)
    requires PollInv(sock, kernel) && r in sock && Covers(events | EPOLLERR | EPOLLHUP, sock[r].pendingEvents)
    ensures sock[r].status == Pending
  {
    hide EpollToAfd;
    AlwaysAsks(events);
    assert PollOk(sock[r], r in kernel, MaskOf(kernel, r));
  }

  lemma LiveQueued(upd: seq<Ref>, del: seq<Ref>, sock: map<Ref, Sock>, r: Ref)
    requires QueueInv(upd, del, sock) && r in sock && !sock[r].deletePending && (r in upd || r in del)
    ensures r in upd
  {
  }

  // What the user wants may change while the poll does not.
  lemma RequestPoll(sock: map<Ref, Sock>, r: Ref, s: Sock, kernel: map<Ref, Mask>)
    requires PollInv(sock, kernel) && r in sock && s.status == sock[r].status
      && s.pendingEvents == sock[r].pendingEvents
    ensures PollInv(sock[r := s], kernel)
  {
    hide EpollToAfd;
    ChangePoll(sock, r, s, kernel);
  }

  lemma StartPoll(sock: map<Ref, Sock>, r: Ref, kernel: map<Ref, Mask>)
    requires PollInv(sock, kernel) && r in sock && sock[r].status == Idle
    ensures r !in kernel
    ensures PollInv(sock[r := sock[r].(status := Pending, pendingEvents := sock[r].userEvents)],
      kernel[r := EpollToAfd(sock[r].userEvents)])
  {
    hide EpollToAfd;
    assert PollOk(sock[r], r in kernel, MaskOf(kernel, r));
    var sock1 := sock[r := sock[r].(status := Pending, pendingEvents := sock[r].userEvents)];
    var kernel1 := kernel[r := EpollToAfd(sock[r].userEvents)];
    forall x | x in sock1
      ensures PollOk(sock1[x], x in kernel1, MaskOf(kernel1, x))
    {
      assert x != r ==> PollOk(sock[x], x in kernel, MaskOf(kernel, x));
    }
  }

  lemma HeldMore(waiting: map<Thread, seq<Packet>>, kernel: map<Ref, Mask>, r: Ref, m: Mask)
    requires HeldInv(waiting, kernel)
    ensures HeldInv(waiting, kernel[r := m])
  {
  }

  lemma CoversItself(events: Mask)
    ensures Covers(events, events)
  {
  }

  // A live record's only queue is the update queue.
  lemma LiveLeaves(upd: seq<Ref>, del: seq<Ref>, sock: map<Ref, Sock>, r: Ref)
    requires QueueInv(upd, del, sock) && r in sock && !sock[r].deletePending
    ensures QueueInv(Drop(upd, r), Drop(del, r), sock) && Drop(del, r) == del
  {
    DropMembers(upd, r);
    DropAbsent(del, r);
  }

  lemma EndPoll(sock: map<Ref, Sock>, r: Ref, kernel: map<Ref, Mask>)
    requires PollInv(sock, kernel) && r in sock
    ensures PollInv(sock[r := sock[r].(status := Idle, pendingEvents := 0)], kernel - {r})
  {
    hide EpollToAfd;
    var sock1, kernel1 := sock[r := sock[r].(status := Idle, pendingEvents := 0)], kernel - {r};
    forall x | x in sock1
      ensures PollOk(sock1[x], x in kernel1, MaskOf(kernel1, x))
    {
      assert x != r ==> PollOk(sock[x], x in kernel, MaskOf(kernel, x));
    }
  }

  lemma FreedSettled(sock: map<Ref, Sock>, upd: seq<Ref>, sock1: map<Ref, Sock>, upd1: seq<Ref>, r: Ref)
    requires WatchInv(sock - {r}, upd) && upd1 == Drop(upd, r)
    requires r !in sock1 && forall x :: x in sock1 ==> x in sock && sock1[x] == sock[x]
    ensures WatchInv(sock1, upd1)
  {
    hide WatchInv;
    DropWithin(upd, r);
    Resettle(sock, upd, sock1, upd1, r);
  }

  // The record has what epoll_ctl last asked for.
  predicate Wants(s: Sock, events: Mask, data: nat) {
    s.userEvents == events | EPOLLERR | EPOLLHUP && s.userData == data
  }

  // Records may have gone, but no user setting of a remaining one has changed.
  ghost predicate SameUsers(sock: map<Ref, Sock>, sock1: map<Ref, Sock>) {
    forall r :: r in sock1 ==> r in sock && SameUser(sock[r], sock1[r])
  }

  predicate SameUser(s: Sock, s1: Sock) {
    s1.key == s.key && s1.group == s.group && s1.userEvents == s.userEvents && s1.userData == s.userData
  }

  lemma HeldRecords(waiting: map<Thread, seq<Packet>>, t: Thread, sock: map<Ref, Sock>, kernel: map<Ref, Mask>)
    requires HeldInv(waiting, kernel) && PollInv(sock, kernel) && t in waiting
    ensures Known(sock, waiting[t])
  {
    hide PollOk;
  }

  lemma IdleHears(s: Sock, events: Mask)
    ensures EventFor(s.(status := Idle, pendingEvents := 0), events) == EventFor(s, events)
  {
    hide Offer;
  }

  // Events told so far, one more of them, and the rest.
  lemma Told(events: seq<Event>, ev: Option<Event>, rest: seq<Event>)
    ensures (if ev.Some? then events + [ev.value] else events) + rest ==
      events + ((if ev.Some? then [ev.value] else []) + rest)
  {
    if ev.Some? {
      assert events + [ev.value] + rest == events + ([ev.value] + rest);
    }
  }

  lemma GroupSizes(groups: seq<Group>, size: map<Group, nat>)
    requires GroupQueue(groups, size)
    ensures forall g :: g in size ==> size[g] <= MAX_GROUP_SIZE
  {
  }

  lemma NewRecord(tree: map<Socket, Ref>, upd: seq<Ref>, del: seq<Ref>, sock: map<Ref, Sock>, kernel: map<Ref, Mask>,
      r: Ref, s: Sock)
    requires TreeInv(tree, sock) && QueueInv(upd, del, sock) && PollInv(sock, kernel)
    requires r !in sock && s.key !in tree && s.status == Idle && s.pendingEvents == 0 && !s.deletePending
    ensures TreeInv(tree[s.key := r], sock[r := s]) && QueueInv(upd, del, sock[r := s]) && PollInv(sock[r := s], kernel)
  {
    hide EpollToAfd;
    assert PollOk(s, r in kernel, MaskOf(kernel, r));
  }

  lemma AllDeleted(tree: map<Socket, Ref>, sock: map<Ref, Sock>)
    requires TreeInv(tree, sock) && tree == map[]
    ensures forall r :: r in sock ==> sock[r].deletePending
  {
  }

  lemma NoRecords(sock: map<Ref, Sock>, del: seq<Ref>, upd: seq<Ref>, groups: seq<Group>, size: map<Group, nat>)
    requires QueueInv(upd, del, sock) && del == [] && GroupQueue(groups, size) && GroupCount(sock, size, None)
    requires forall r :: r in sock ==> sock[r].deletePending
    ensures sock == map[] && forall g :: g in groups ==> g in size && size[g] == 0
  {
    hide NoDup, FullFirst;
    assert sock == map[];
    forall g | g in size
      ensures size[g] == 0
    {
      assert Counted(sock, g, size[g], None) && Members(sock, g) == {};
    }
  }

  lemma EmptyPort(tree: map<Socket, Ref>, sock: map<Ref, Sock>, upd: seq<Ref>, del: seq<Ref>)
    requires TreeInv(tree, sock) && QueueInv(upd, del, sock) && sock == map[]
    ensures tree == map[] && upd == [] && del == []
  {
    SomeMember(upd);
    SomeMember(del);
  }

  // ---------- what the invariant is for ----------

  // A socket of the port is monitored: its poll is outstanding, and either the kernel watches every
  // condition behind the events the user wants, or the poll was cancelled and comes back for renewal.
  ghost predicate Monitored(s: Sock, outstanding: bool, mask: Mask) {
    outstanding && (s.status == Cancelled || Within(EpollToAfd(s.userEvents), mask))
  }

  lemma NobodySleeps(tree: map<Socket, Ref>, sock: map<Ref, Sock>, del: seq<Ref>, kernel: map<Ref, Mask>, k: Socket)
    requires TreeInv(tree, sock) && QueueInv([], del, sock) && PollInv(sock, kernel) && WatchInv(sock, [])
    requires k in tree
    ensures tree[k] in sock && Monitored(sock[tree[k]], tree[k] in kernel, MaskOf(kernel, tree[k]))
  {
    hide EpollToAfd, Covers, Within;
    var r := tree[k];
    assert Settled(sock[r], r in []) && PollOk(sock[r], r in kernel, MaskOf(kernel, r));
    if sock[r].status == Pending {
      CoveredIsWatched(sock[r].userEvents, sock[r].pendingEvents);
    }
  }

  // A record that is waiting to be freed is not forgotten: its poll is still to come back.
  lemma LingeringReturns(sock: map<Ref, Sock>, upd: seq<Ref>, kernel: map<Ref, Mask>, r: Ref)
    requires PollInv(sock, kernel) && WatchInv(sock, upd) && r in sock && sock[r].deletePending
    ensures r in kernel
  {
    assert Settled(sock[r], r in upd) && PollOk(sock[r], r in kernel, MaskOf(kernel, r));
  }

  // Reporting a poll that covers the wanted events says something to the user, unless the socket was closed.
  lemma CompletionIsHeard(s: Sock, p: Packet)
    requires !s.deletePending && p.status == Success && p.handles >= 1 && p.events != 0
    requires Within(p.events, EpollToAfd(s.userEvents)) && p.events & AFD_POLL_LOCAL_CLOSE == 0
    ensures Heard(s, p) == Some(Event(s.userData, AfdToEpoll(p.events) & s.userEvents))
    ensures AfdToEpoll(p.events) & s.userEvents != 0
  {
    hide AfdToEpoll, EpollToAfd, Within;
    PolledIsReported(s.userEvents, p.events);
  }
}
