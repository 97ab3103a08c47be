/** Whole runs of an epoll port: any number of threads enter its critical sections in any order, Windows
    hands completion packets to waiting threads at any time, and it answers every request as it likes. */
module WepollRuns {
  import opened Basics
  import opened Collections
  import opened WepollEvents
  import opened WepollState
  import opened WepollBooks
  import opened WepollPort

  datatype View = View(books: Books, groups: set<Group>, waiting: map<Thread, seq<Packet>>, faulted: bool)

  ghost function Now(p: Port): View
    reads p
  {
    View(p.Now(), p.groupSize.Keys, p.waiting, p.faulted)
  }

  ghost function Sizes(v: View): map<Group, nat> { map g | g in v.groups :: |Members(v.books.sock, g)| }

  // ---------- what holds in every state ----------

  // While some thread waits, and the last walk of the update queue was not refused a request, every socket
  // is monitored.
  ghost predicate NoneSleeps(v: View) {
    v.waiting != map[] && !v.faulted ==>
      && v.books.queue == []
      && forall k :: k in v.books.tree ==> Attended(v.books, k)
  }

  ghost predicate Attended(b: Books, k: Socket) {
    k in b.tree && b.tree[k] in b.sock && Monitored(b.sock[b.tree[k]], b.tree[k] in b.kernel,
      MaskOf(b.kernel, b.tree[k]))
  }

  // Whatever may still come back belongs to a record that has not been freed, and a record that is to be
  // freed has its poll outstanding.
  ghost predicate NoneDangles(v: View) {
    && (forall r :: r in v.books.kernel ==> r in v.books.sock)
    && (forall r :: Held(v.waiting, r) ==> r in v.books.kernel)
    && (forall r :: r in v.books.sock && v.books.sock[r].deletePending ==>
         r in v.books.kernel && r !in v.books.queue && r !in v.books.tree.Values)
  }

  ghost predicate GroupsOk(v: View) {
    && (forall r :: r in v.books.sock ==> v.books.sock[r].group in v.groups)
    && (forall g :: g in v.groups ==> |Members(v.books.sock, g)| <= MAX_GROUP_SIZE)
  }

  ghost predicate Healthy(v: View) {
    && NoneSleeps(v) && NoneDangles(v) && GroupsOk(v) && Orderly(v.books)
    && forall t :: t in v.waiting ==> Distinct(v.waiting[t])
  }

  lemma InvNoneSleeps(p: Port)
    requires p.Inv()
    ensures NoneSleeps(Now(p))
  {
    hide EpollToAfd, Monitored, HeldInv, TreeInv, QueueInv, PollInv, GroupQueue, GroupCount, WatchInv;
    if p.waiting != map[] && !p.faulted {
      forall k | k in p.tree
        ensures Attended(p.Now(), k)
      {
        p.NobodySleeps(k);
      }
    }
  }

  lemma InvNoneDangles(p: Port)
    requires p.Inv()
    ensures NoneDangles(Now(p))
  {
    hide EpollToAfd, HeldInv, TreeInv, QueueInv, PollInv, GroupQueue, GroupCount, WatchInv, Held;
    forall r
      ensures r in p.kernel ==> r in p.sock
      ensures Held(p.waiting, r) ==> r in p.kernel
      ensures r in p.sock && p.sock[r].deletePending ==> r in p.kernel && r !in p.updateQueue && r !in p.tree.Values
    {
      p.NothingDangles(r);
    }
  }

  lemma InvGroups(p: Port)
    requires p.Inv()
    ensures GroupsOk(Now(p)) && Sizes(Now(p)) == p.groupSize
  {
    hide EpollToAfd, HeldInv, TreeInv, QueueInv, PollInv, WatchInv, NoDup, FullFirst;
    assert forall g :: g in p.groupSize ==> Counted(p.sock, g, p.groupSize[g], None);
  }

  lemma InvOrderly(p: Port)
    requires p.Inv()
    ensures Orderly(p.Now()) && forall t :: t in p.waiting ==> Distinct(p.waiting[t])
  {
    hide EpollToAfd, NoDup, GroupQueue, GroupCount, WatchInv;
    assert forall r :: r in p.sock ==> PollOk(p.sock[r], r in p.kernel, MaskOf(p.kernel, r));
  }

  lemma InvIsHealthy(p: Port)
    requires p.Inv()
    ensures Healthy(Now(p)) && Sizes(Now(p)) == p.groupSize
  {
    InvNoneSleeps(p);
    InvNoneDangles(p);
    InvGroups(p);
    InvOrderly(p);
  }

  // ---------- steps ----------

  // One critical section of some thread, with the kernel's answers to the requests it makes, or a waiting
  // thread being handed its packets; and what comes of it.
  datatype Step =
    | Begin(t: Thread, a: Answers, last: Answers)
    | Take(t: Thread, packets: seq<Packet>)
    | Back(t: Thread, again: bool, a: Answers, last: Answers)
    | Add(socket: Socket, events: Mask, data: nat, hasBase: bool, made: Option<Group>, block: Option<Ref>, a: Answers)
    | Mod(socket: Socket, events: Mask, data: nat, a: Answers)
    | Del(socket: Socket, granted: bool)

  datatype Outcome =
    | Waits(ok: bool)
    | Taken
    | Came(left: bool, events: seq<Event>)
    | Answer(result: Result)

  // What the environment guarantees: a thread waits once and is handed packets once, Windows reports only
  // outstanding polls, each of them once, and an allocation does not return what is in use.
  predicate Possible(sock: map<Ref, Sock>, kernel: map<Ref, Mask>, groups: set<Group>, waiting: map<Thread,
      seq<Packet>>,
      step: Step) {
    match step
    case Begin(t, _, _) => t !in waiting
    case Take(t, packets) =>
      && t in waiting && waiting[t] == [] && Distinct(packets)
      && forall i :: 0 <= i < |packets| ==> packets[i].sock in kernel && !Held(waiting, packets[i].sock)
    case Back(t, _, _, _) => t in waiting
    case Add(_, _, _, _, made, block, _) =>
      (made.Some? ==> made.value !in groups) && (block.Some? ==> block.value !in sock)
    case _ => true
  }

  ghost predicate Allowed(v: View, step: Step) { Possible(v.books.sock, v.books.kernel, v.groups, v.waiting, step) }

  ghost function UpToDate(v: View, a: Answers): View {
    var (b, f) := BroughtUpToDate(v.books, |v.waiting|, v.faulted, a);
    v.(books := b, faulted := f)
  }

  // A thread polls: it waits or, if a request is refused, brings what can be up to date and leaves.
  ghost function Polled(v: View, t: Thread, a: Answers, last: Answers): View {
    var w := Walked(v.books, a);
    if w.ok then v.(books := w.books, faulted := false, waiting := v.waiting[t := []])
    else UpToDate(v.(books := w.books, faulted := true), last)
  }

  // A thread has come back and fed its packets.
  ghost function BackFrom(v: View, t: Thread): View
    requires t in v.waiting
  {
    v.(books := FedAll(v.books, v.waiting[t]), waiting := v.waiting - {t})
  }

  ghost predicate CanAdd(b: Books, size: map<Group, nat>, socket: Socket, hasBase: bool, made: Option<Group>,
      block: Option<Ref>) {
    && socket != 0 && socket != INVALID_SOCKET && hasBase && socket !in b.tree && block.Some?
    && (made.Some? || Roomy(size))
  }

  // The group of a new record: one that has room, or if there is none the one that was made.
  ghost predicate Chosen(size: map<Group, nat>, made: Option<Group>, g: Group) {
    if Roomy(size) then HasRoom(size, g) else made == Some(g)
  }

  ghost function AddedTo(v: View, groups: set<Group>, r: Ref, g: Group, socket: Socket, events: Mask, data: nat,
      a: Answers): View {
    UpToDate(v.(books := Joined(v.books, r, g, socket, events, data), groups := groups), a)
  }

  // Adding a socket, where the groups have the given sizes.
  ghost predicate Adds(v: View, size: map<Group, nat>, socket: Socket, events: Mask, data: nat, hasBase: bool,
      made: Option<Group>, block: Option<Ref>, a: Answers, result: Result, v1: View) {
    var groups := v.groups + WepollPort.Taken(socket, hasBase, size, made);
    && (result == Done <==> CanAdd(v.books, size, socket, hasBase, made, block))
    && (result == AlreadyExists ==> socket in v.books.tree)
    && if result == Done then
         exists g :: Chosen(size, made, g) && v1 == AddedTo(v, groups, block.value, g, socket, events, data, a)
       else v1 == v.(groups := groups)
  }

  // What each step does, exactly; only the group of a new record is left open, if several have room.
  ghost predicate Follows(v: View, step: Step, o: Outcome, v1: View) {
    match step
    case Begin(t, a, last) => o == Waits(Walked(v.books, a).ok) && v1 == Polled(v, t, a, last)
    case Take(t, packets) => o == Taken && v1 == v.(waiting := v.waiting[t := packets])
    case Back(t, again, a, last) =>
      && o.Came? && t in v.waiting && Known(v.books.sock, v.waiting[t])
      && o.events == HeardAll(v.books.sock, v.waiting[t])
      && if o.events == [] && again then
           o.left == !Walked(BackFrom(v, t).books, a).ok && v1 == Polled(BackFrom(v, t), t, a, last)
         else
           o.left && v1 == UpToDate(BackFrom(v, t), last)
    case Add(socket, events, data, hasBase, made, block, a) =>
      o.Answer? && Adds(v, Sizes(v), socket, events, data, hasBase, made, block, a, o.result, v1)
    case Mod(socket, events, data, a) =>
      if socket in v.books.tree && v.books.tree[socket] in v.books.sock then
        o == Answer(Done) && v1 == UpToDate(v.(books := EventSet(v.books, v.books.tree[socket], events, data)), a)
      else
        o == Answer(NotFound) && v1 == v
    case Del(socket, granted) =>
      if socket in v.books.tree && v.books.tree[socket] in v.books.sock then
        o == Answer(Done) && v1 == v.(books := Deleted(v.books, v.books.tree[socket], granted))
      else
        o == Answer(NotFound) && v1 == v
  }

  // That a step of the code does this is shown kind by kind.
  method BeginStep(p: Port, t: Thread, a: Answers, last: Answers) returns (ok: bool)
    requires p.Inv() && t !in p.waiting
    modifies p
    ensures p.Inv() && Follows(old(Now(p)), Begin(t, a, last), Waits(ok), Now(p))
  {
    hide EpollToAfd, HeldInv, TreeInv, QueueInv, PollInv, GroupQueue, GroupCount, WatchInv, Walked, BroughtUpToDate;
    ok := p.BeginWait(t, a, last);
  }

  method BackStep(p: Port, t: Thread, again: bool, a: Answers, last: Answers) returns (left: bool, events: seq<Event>)
    requires p.Inv() && t in p.waiting
    modifies p
    ensures p.Inv() && Follows(old(Now(p)), Back(t, again, a, last), Came(left, events), Now(p))
  {
    hide EpollToAfd, HeldInv, TreeInv, QueueInv, PollInv, GroupQueue, GroupCount, WatchInv, Walked, BroughtUpToDate,
      HeardAll, FedAll, Known;
    BackAgain(p.waiting, t);
    left, events := p.Resume(t, again, a, last);
  }

  method AddStep(p: Port, socket: Socket, events: Mask, data: nat, hasBase: bool, made: Option<Group>,
      block: Option<Ref>,
      a: Answers) returns (result: Result)
    requires p.Inv() && (made.Some? ==> made.value !in p.groupSize) && (block.Some? ==> block.value !in p.sock)
    modifies p
    ensures p.Inv()
    ensures Adds(old(Now(p)), old(p.groupSize), socket, events, data, hasBase, made, block, a, result, Now(p))
  {
    hide EpollToAfd, HeldInv, TreeInv, QueueInv, PollInv, GroupQueue, GroupCount, WatchInv, BroughtUpToDate, Joined,
      Roomy, HasRoom, WepollPort.Taken;
    ghost var v, size := Now(p), p.groupSize;
    ghost var group;
    result, group := p.CtlAdd(socket, events, data, hasBase, made, block, a);
    if result == Done {
      assert Chosen(size, made, group.value);
      assert Now(p) == AddedTo(v, v.groups + WepollPort.Taken(socket, hasBase, size, made), block.value,
        group.value, socket, events, data, a);
    }
  }

  method ModStep(p: Port, socket: Socket, events: Mask, data: nat, a: Answers) returns (result: Result)
    requires p.Inv()
    modifies p
    ensures p.Inv() && Follows(old(Now(p)), Mod(socket, events, data, a), Answer(result), Now(p))
  {
    hide EpollToAfd, HeldInv, TreeInv, QueueInv, PollInv, GroupQueue, GroupCount, WatchInv, BroughtUpToDate, EventSet;
    result := p.CtlMod(socket, events, data, a);
  }

  method DelStep(p: Port, socket: Socket, granted: bool) returns (result: Result)
    requires p.Inv()
    modifies p
    ensures p.Inv() && Follows(old(Now(p)), Del(socket, granted), Answer(result), Now(p))
  {
    hide EpollToAfd, HeldInv, TreeInv, QueueInv, PollInv, GroupQueue, GroupCount, WatchInv, Deleted;
    result := p.CtlDel(socket, granted);
  }

  method TakeStep(p: Port, step: Step) returns (o: Outcome)
    requires p.Inv() && Possible(p.sock, p.kernel, p.groupSize.Keys, p.waiting, step)
    modifies p
    ensures p.Inv() && Follows(old(Now(p)), step, o, Now(p))
  {
    hide EpollToAfd, HeldInv, TreeInv, QueueInv, PollInv, GroupQueue, GroupCount, WatchInv, Held, Distinct, Follows,
      Adds, Sizes, GroupsOk;
    match step {
      case Begin(t, a, last) =>
        var ok := BeginStep(p, t, a, last);
        o := Waits(ok);
      case Take(t, packets) =>
        ghost var v := Now(p);
        p.Arrive(t, packets);
        o := Taken;
        Handed(v, t, packets);
      case Back(t, again, a, last) =>
        var left, events := BackStep(p, t, again, a, last);
        o := Came(left, events);
      case Add(socket, events, data, hasBase, made, block, a) =>
        InvGroups(p);
        ghost var v := Now(p);
        var result := AddStep(p, socket, events, data, hasBase, made, block, a);
        o := Answer(result);
        AddFollows(v, step, result, Now(p));
      case Mod(socket, events, data, a) =>
        var result := ModStep(p, socket, events, data, a);
        o := Answer(result);
      case Del(socket, granted) =>
        var result := DelStep(p, socket, granted);
        o := Answer(result);
    }
  }

  lemma AddFollows(v: View, step: Step, result: Result, v1: View)
    requires step.Add?
    requires Adds(v, Sizes(v), step.socket, step.events, step.data, step.hasBase, step.made, step.block, step.a,
      result, v1)
    ensures Follows(v, step, Answer(result), v1)
  {
    hide Adds;
  }

  lemma Handed(v: View, t: Thread, packets: seq<Packet>)
    ensures Follows(v, Take(t, packets), Taken, v.(waiting := v.waiting[t := packets]))
  {
  }

  lemma BackAgain(waiting: map<Thread, seq<Packet>>, t: Thread)
    requires t in waiting
    ensures (waiting - {t})[t := []] == waiting[t := []] && |waiting - {t}| == |waiting| - 1
  {
    assert waiting.Keys == (waiting - {t}).Keys + {t};
  }

  // ---------- whole runs ----------

  ghost predicate IsRun(vs: seq<View>, steps: seq<Step>, os: seq<Outcome>) {
    && |vs| == |steps| + 1 && |os| == |steps|
    && vs[0] == View(Books(map[], map[], [], map[]), {}, map[], false)
    && forall i :: 0 <= i < |steps| ==> Allowed(vs[i], steps[i]) && Follows(vs[i], steps[i], os[i], vs[i + 1])
  }

  ghost predicate AllHealthy(vs: seq<View>) { forall i :: 0 <= i < |vs| ==> Healthy(vs[i]) }

  lemma OneMore(vs: seq<View>, steps: seq<Step>, os: seq<Outcome>, n: nat, o: Outcome, v: View)
    requires n < |steps| && IsRun(vs, steps[..n], os) && AllHealthy(vs)
    requires Allowed(vs[n], steps[n]) && Follows(vs[n], steps[n], o, v) && Healthy(v)
    ensures |vs| == n + 1 && IsRun(vs + [v], steps[..n + 1], os + [o]) && AllHealthy(vs + [v]) && (vs + [v])[n + 1] == v
  {
    hide Follows, Allowed, Healthy;
    var vs1, steps1, os1 := vs + [v], steps[..n + 1], os + [o];
    forall i | 0 <= i < |steps1|
      ensures Allowed(vs1[i], steps1[i]) && Follows(vs1[i], steps1[i], os1[i], vs1[i + 1])
    {
      assert i < n ==> vs1[i] == vs[i] && vs1[i + 1] == vs[i + 1] && steps1[i] == steps[..n][i] && os1[i] == os[i];
    }
  }

  lemma NoSteps(steps: seq<Step>, v: View)
    requires v == View(Books(map[], map[], [], map[]), {}, map[], false) && Healthy(v)
    ensures IsRun([v], steps[..0], []) && AllHealthy([v])
  {
    hide Healthy;
  }

  // Any number of threads, in any order, from a new port, and whatever the kernel answers: each step does
  // exactly what it should, and after every one no socket sleeps unmonitored and nothing refers to a freed record.
  method Run(steps: seq<Step>) returns (p: Port, taken: nat, os: seq<Outcome>, ghost vs: seq<View>)
    ensures p.Inv() && taken <= |steps|
    // It stops only at what cannot happen: a thread enters twice or comes back without having entered, packets that are
    // not outstanding or are handed out twice, memory or a group that is in use.
    ensures taken < |steps| ==>
      match steps[taken] {
        case Begin(t, _, _) => t in p.waiting
        case Take(t, packets) =>
          || t !in p.waiting || p.waiting[t] != [] || !Distinct(packets)
          || exists i :: 0 <= i < |packets| && (packets[i].sock !in p.kernel || Held(p.waiting, packets[i].sock))
        case Back(t, _, _, _) => t !in p.waiting
        case Add(_, _, _, _, made, block, _) =>
          (made.Some? && made.value in p.groupSize) || (block.Some? && block.value in p.sock)
        case _ => false
      }
    ensures IsRun(vs, steps[..taken], os) && AllHealthy(vs) && Now(p) == vs[taken]
  {
    hide EpollToAfd, Healthy, Follows, HeldInv, TreeInv, QueueInv, PollInv, GroupQueue, GroupCount, WatchInv, Held,
      Distinct;
    hide IsRun, AllHealthy, Sizes;
    p := new Port();
    taken, os, vs := 0, [], [Now(p)];
    InvIsHealthy(p);
    NoSteps(steps, Now(p));
    while taken < |steps| && Possible(p.sock, p.kernel, p.groupSize.Keys, p.waiting, steps[taken])
      invariant taken <= |steps| && p.Inv() && fresh(p)
      invariant |vs| == taken + 1 && IsRun(vs, steps[..taken], os) && AllHealthy(vs) && Now(p) == vs[taken]
    {
      var o := TakeStep(p, steps[taken]);
      InvIsHealthy(p);
      OneMore(vs, steps, os, taken, o, Now(p));
      vs, os := vs + [Now(p)], os + [o];
      taken := taken + 1;
    }
  }

  // ---------- which sockets are in the port ----------

  ghost predicate Joins(step: Step, o: Outcome, k: Socket) { step.Add? && step.socket == k && o == Answer(Done) }

  ghost predicate Quits(step: Step, o: Outcome, k: Socket) { step.Del? && step.socket == k && o == Answer(Done) }

  // The socket is found closed when the port brings the kernel up to date while somebody waits,
  ghost predicate ClosedUpToDate(v: View, a: Answers, k: Socket) { v.waiting != map[] && ClosedInWalk(v.books, a, k) }

  // or when a thread polls,
  ghost predicate ClosedInPoll(v: View, a: Answers, last: Answers, k: Socket) {
    var w := Walked(v.books, a);
    ClosedInWalk(v.books, a, k) || (!w.ok && ClosedUpToDate(v.(books := w.books, faulted := true), last, k))
  }

  // or by a packet that a thread comes back with.
  ghost predicate Shut(v: View, step: Step, o: Outcome, v1: View, k: Socket) {
    match step
    case Begin(t, a, last) => ClosedInPoll(v, a, last, k)
    case Back(t, again, a, last) =>
      && t in v.waiting && o.Came?
      && (ClosedInFeed(v.books, v.waiting[t], k)
          || if o.events == [] && again then ClosedInPoll(BackFrom(v, t), a, last, k)
             else ClosedUpToDate(BackFrom(v, t), last, k))
    case Add(socket, events, data, hasBase, made, block, a) =>
      && o == Answer(Done) && block.Some?
      && exists g ::
           && v1 == AddedTo(v, v1.groups, block.value, g, socket, events, data, a)
           && ClosedUpToDate(v.(books := Joined(v.books, block.value, g, socket, events, data),
                groups := v1.groups), a, k)
    case Mod(socket, events, data, a) =>
      && o == Answer(Done) && socket in v.books.tree && v.books.tree[socket] in v.books.sock
      && ClosedUpToDate(v.(books := EventSet(v.books, v.books.tree[socket], events, data)), a, k)
    case _ => false
  }

  lemma UpToDateTree(v: View, a: Answers, k: Socket)
    requires Orderly(v.books)
    ensures k in UpToDate(v, a).books.tree <==> k in v.books.tree && !ClosedUpToDate(v, a, k)
  {
    WalkTree(v.books, a, k);
    hide Orderly, Walked, ClosedInWalk;
    assert |v.waiting| == 0 <==> v.waiting == map[];
  }

  lemma PolledTree(v: View, t: Thread, a: Answers, last: Answers, k: Socket)
    requires Orderly(v.books)
    ensures k in Polled(v, t, a, last).books.tree <==> k in v.books.tree && !ClosedInPoll(v, a, last, k)
  {
    WalkTree(v.books, a, k);
    WalkedOrderly(v.books, a);
    UpToDateTree(v.(books := Walked(v.books, a).books, faulted := true), last, k);
    hide Orderly, Walked, ClosedInWalk, UpToDate;
  }

  lemma BackTree(v: View, step: Step, o: Outcome, v1: View, k: Socket)
    requires Healthy(v) && step.Back? && Follows(v, step, o, v1)
    ensures k in v1.books.tree <==> k in v.books.tree && !Shut(v, step, o, v1, k)
  {
    hide Orderly, Walked, ClosedInWalk, UpToDate, Polled, ClosedInPoll, ClosedUpToDate, FedAll, ClosedInFeed, Known,
      HeardAll;
    hide NoneSleeps, NoneDangles, GroupsOk;
    FeedTree(v.books, v.waiting[step.t], k);
    PolledTree(BackFrom(v, step.t), step.t, step.a, step.last, k);
    UpToDateTree(BackFrom(v, step.t), step.last, k);
  }

  lemma AddTree(v: View, step: Step, o: Outcome, v1: View, k: Socket)
    requires Healthy(v) && step.Add? && Allowed(v, step) && Follows(v, step, o, v1)
    ensures k in v1.books.tree <==> (k in v.books.tree || Joins(step, o, k)) && !Shut(v, step, o, v1, k)
  {
    hide Roomy, Orderly;
    if o.result == Done {
      forall g | v1 == AddedTo(v, v1.groups, step.block.value, g, step.socket, step.events, step.data, step.a)
        ensures var b := Joined(v.books, step.block.value, g, step.socket, step.events, step.data);
          k in v1.books.tree <==>
            (k in v.books.tree || k == step.socket) && !ClosedUpToDate(v.(books := b, groups := v1.groups), step.a, k)
      {
        AddedTree(v, v1.groups, step.block.value, g, step.socket, step.events, step.data, step.a, k);
      }
      hide Healthy, ClosedUpToDate, Joined, HasRoom, WepollPort.Taken, Sizes, UpToDate;
      AddedGroups(v, v1, step);
    }
  }

  lemma AddedGroups(v: View, v1: View, step: Step)
    requires step.Add? && Follows(v, step, Answer(Done), v1)
    ensures step.block.Some?
    ensures exists g :: v1 == AddedTo(v, v1.groups, step.block.value, g, step.socket, step.events, step.data, step.a)
  {
    hide Joined, Roomy, HasRoom, Sizes, BroughtUpToDate;
  }

  lemma AddedTree(v: View, groups: set<Group>, r: Ref, g: Group, socket: Socket, events: Mask, data: nat, a: Answers,
      k: Socket)
    requires Orderly(v.books) && r !in v.books.sock && r !in v.books.kernel && socket !in v.books.tree
    ensures var b := Joined(v.books, r, g, socket, events, data);
      k in AddedTo(v, groups, r, g, socket, events, data, a).books.tree <==>
        (k in v.books.tree || k == socket) && !ClosedUpToDate(v.(books := b, groups := groups), a, k)
  {
    var b := Joined(v.books, r, g, socket, events, data);
    JoinedOrderly(v.books, r, g, socket, events, data);
    hide Orderly, ClosedUpToDate, UpToDate, Covers;
    UpToDateTree(v.(books := b, groups := groups), a, k);
    assert b.tree == v.books.tree[socket := r];
  }

  lemma ModTree(v: View, step: Step, o: Outcome, v1: View, k: Socket)
    requires Healthy(v) && step.Mod? && Follows(v, step, o, v1)
    ensures k in v1.books.tree <==> k in v.books.tree && !Shut(v, step, o, v1, k)
  {
    if step.socket in v.books.tree && v.books.tree[step.socket] in v.books.sock {
      var r := v.books.tree[step.socket];
      EventSetOrderly(v.books, r, step.events, step.data);
      hide Orderly, UpToDate, ClosedUpToDate, Covers;
      UpToDateTree(v.(books := EventSet(v.books, r, step.events, step.data)), step.a, k);
    }
  }

  lemma DelTree(v: View, step: Step, o: Outcome, v1: View, k: Socket)
    requires Healthy(v) && step.Del? && Follows(v, step, o, v1)
    ensures k in v1.books.tree <==> k in v.books.tree && !Quits(step, o, k)
  {
    hide Retired, Drop, NoDup, NoneSleeps, NoneDangles, GroupsOk;
  }

  // One step: a socket is in the port if it was or has been added, unless it is deleted or found closed.
  lemma StepTree(v: View, step: Step, o: Outcome, v1: View, k: Socket)
    requires Healthy(v) && Allowed(v, step) && Follows(v, step, o, v1)
    ensures k in v1.books.tree <==>
      (k in v.books.tree || Joins(step, o, k)) && !Quits(step, o, k) && !Shut(v, step, o, v1, k)
  {
    match step
    case Begin(t, a, last) =>
      PolledTree(v, t, a, last, k);
      hide Healthy, Polled, ClosedInPoll;
    case Take(_, _) =>
    case Back(_, _, _, _) =>
      BackTree(v, step, o, v1, k);
      hide Follows, Shut, Healthy, Allowed;
    case Add(_, _, _, _, _, _, _) =>
      AddTree(v, step, o, v1, k);
      hide Follows, Shut, Healthy, Allowed;
    case Mod(_, _, _, _) =>
      ModTree(v, step, o, v1, k);
      hide Follows, Shut, Healthy, Allowed;
    case Del(_, _) =>
      DelTree(v, step, o, v1, k);
      hide Follows, Healthy, Allowed;
  }

  // A socket that has been added or modified is in the port with what was asked for, if it is there at all.
  lemma StepWants(v: View, step: Step, v1: View)
    requires Healthy(v) && Allowed(v, step) && Follows(v, step, Answer(Done), v1) && (step.Add? || step.Mod?)
    requires step.socket in v1.books.tree
    ensures v1.books.tree[step.socket] in v1.books.sock
    ensures Wants(v1.books.sock[v1.books.tree[step.socket]], step.events, step.data)
  {
    if step.Add? {
      AddedGroups(v, v1, step);
      var r := step.block.value;
      var g :| v1 == AddedTo(v, v1.groups, r, g, step.socket, step.events, step.data, step.a);
      JoinedOrderly(v.books, r, g, step.socket, step.events, step.data);
      var b := Joined(v.books, r, g, step.socket, step.events, step.data);
      assert b.tree[step.socket] == r && Wants(b.sock[r], step.events, step.data);
      hide Healthy, Orderly, Joined, Wants, Adds, UpToDate;
      UpToDateWants(v.(books := b, groups := v1.groups), step.a, step.socket, step.events, step.data);
    } else {
      var r := v.books.tree[step.socket];
      EventSetOrderly(v.books, r, step.events, step.data);
      var b := EventSet(v.books, r, step.events, step.data);
      assert b.tree[step.socket] == r && Wants(b.sock[r], step.events, step.data);
      hide EventSet;
      UpToDateWants(v.(books := b), step.a, step.socket, step.events, step.data);
    }
  }

  lemma UpToDateWants(v: View, a: Answers, k: Socket, events: Mask, data: nat)
    requires Orderly(v.books) && k in v.books.tree && v.books.tree[k] in v.books.sock
    requires Wants(v.books.sock[v.books.tree[k]], events, data) && k in UpToDate(v, a).books.tree
    ensures var b := UpToDate(v, a).books; b.tree[k] in b.sock && Wants(b.sock[b.tree[k]], events, data)
  {
    WalkKeepsUsers(v.books, a);
    hide Orderly, Walked;
  }

  // The socket leaves the port in the i-th step.
  ghost predicate Goes(vs: seq<View>, steps: seq<Step>, os: seq<Outcome>, i: nat, k: Socket)
    requires i < |steps| == |os| < |vs|
  {
    Quits(steps[i], os[i], k) || Shut(vs[i], steps[i], os[i], vs[i + 1], k)
  }

  // It was added in the i-th step and has not gone before the n-th.
  ghost predicate StaysFrom(vs: seq<View>, steps: seq<Step>, os: seq<Outcome>, i: nat, n: nat, k: Socket)
    requires i < n <= |steps| == |os| < |vs|
  {
    Joins(steps[i], os[i], k) && forall j :: i <= j < n ==> !Goes(vs, steps, os, j, k)
  }

  // In every state of every run the port has exactly the sockets that were added and since then neither deleted
  // nor found closed.
  lemma {:induction false} InPortIff(vs: seq<View>, steps: seq<Step>, os: seq<Outcome>, n: nat, k: Socket)
    requires IsRun(vs, steps, os) && AllHealthy(vs) && n <= |steps|
    ensures k in vs[n].books.tree <==> exists i :: 0 <= i < n && StaysFrom(vs, steps, os, i, n, k)
  {
    hide Follows, Allowed, Healthy, Joins, Quits, Shut;
    if n > 0 {
      InPortIff(vs, steps, os, n - 1, k);
      StepTree(vs[n - 1], steps[n - 1], os[n - 1], vs[n], k);
      hide IsRun, AllHealthy;
      if k in vs[n].books.tree {
        if k in vs[n - 1].books.tree {
          var i :| 0 <= i < n - 1 && StaysFrom(vs, steps, os, i, n - 1, k);
          assert StaysFrom(vs, steps, os, i, n, k);
        } else {
          assert StaysFrom(vs, steps, os, n - 1, n, k);
        }
      }
      if i :| 0 <= i < n && StaysFrom(vs, steps, os, i, n, k) {
        assert i < n - 1 ==> StaysFrom(vs, steps, os, i, n - 1, k);
        assert !Goes(vs, steps, os, n - 1, k);
      }
    }
  }

  // ---------- refused requests ----------

  // What the kernel refuses in a step, so that the last walk of the step is cut short.
  ghost predicate RefusedUpToDate(v: View, a: Answers) {
    if v.waiting == map[] then v.faulted else Refusal(v.books, a)
  }

  ghost predicate RefusedInPoll(v: View, a: Answers, last: Answers) {
    Refusal(v.books, a) && RefusedUpToDate(v.(books := Walked(v.books, a).books, faulted := true), last)
  }

  ghost predicate RefusedIn(v: View, step: Step, o: Outcome, v1: View) {
    match step
    case Begin(t, a, last) => RefusedInPoll(v, a, last)
    case Back(t, again, a, last) =>
      && t in v.waiting && o.Came?
      && if o.events == [] && again then RefusedInPoll(BackFrom(v, t), a, last)
           else RefusedUpToDate(BackFrom(v, t), last)
    case Add(socket, events, data, hasBase, made, block, a) =>
      if o == Answer(Done) && block.Some? then
        exists g ::
          && v1 == AddedTo(v, v1.groups, block.value, g, socket, events, data, a)
          && RefusedUpToDate(v.(books := Joined(v.books, block.value, g, socket, events, data), groups := v1.groups), a)
      else v.faulted
    case Mod(socket, events, data, a) =>
      if socket in v.books.tree && v.books.tree[socket] in v.books.sock then
        RefusedUpToDate(v.(books := EventSet(v.books, v.books.tree[socket], events, data)), a)
      else v.faulted
    case _ => v.faulted
  }

  lemma UpToDateFaulted(v: View, a: Answers)
    requires Orderly(v.books)
    ensures UpToDate(v, a).faulted <==> RefusedUpToDate(v, a)
  {
    WalkFails(v.books, a);
    hide Orderly, Walked, Refusal;
    assert |v.waiting| == 0 <==> v.waiting == map[];
  }

  lemma PolledFaulted(v: View, t: Thread, a: Answers, last: Answers)
    requires Orderly(v.books)
    ensures Polled(v, t, a, last).faulted <==> RefusedInPoll(v, a, last)
  {
    WalkFails(v.books, a);
    WalkedOrderly(v.books, a);
    UpToDateFaulted(v.(books := Walked(v.books, a).books, faulted := true), last);
    hide Orderly, Walked, Refusal, UpToDate, RefusedUpToDate;
  }

  lemma AddFaulted(v: View, step: Step, o: Outcome, v1: View)
    requires Healthy(v) && step.Add? && Allowed(v, step) && Follows(v, step, o, v1)
    ensures v1.faulted <==> RefusedIn(v, step, o, v1)
  {
    if o.result == Done {
      forall g | v1 == AddedTo(v, v1.groups, step.block.value, g, step.socket, step.events, step.data, step.a)
        ensures var b := Joined(v.books, step.block.value, g, step.socket, step.events, step.data);
          v1.faulted <==> RefusedUpToDate(v.(books := b, groups := v1.groups), step.a)
      {
        AddedFaulted(v, v1.groups, step.block.value, g, step.socket, step.events, step.data, step.a);
      }
      hide Healthy, RefusedUpToDate, Joined, Roomy, HasRoom, WepollPort.Taken, Sizes, UpToDate;
      AddedGroups(v, v1, step);
    }
  }

  lemma AddedFaulted(v: View, groups: set<Group>, r: Ref, g: Group, socket: Socket, events: Mask, data: nat, a: Answers)
    requires Orderly(v.books) && r !in v.books.sock && r !in v.books.kernel && socket !in v.books.tree
    ensures var b := Joined(v.books, r, g, socket, events, data);
      AddedTo(v, groups, r, g, socket, events, data, a).faulted <==>
        RefusedUpToDate(v.(books := b, groups := groups), a)
  {
    JoinedOrderly(v.books, r, g, socket, events, data);
    hide Orderly, RefusedUpToDate, UpToDate, Joined;
    UpToDateFaulted(v.(books := Joined(v.books, r, g, socket, events, data), groups := groups), a);
  }

  // The flag says exactly that the last walk was refused a request.
  lemma StepFaulted(v: View, step: Step, o: Outcome, v1: View)
    requires Healthy(v) && Allowed(v, step) && Follows(v, step, o, v1)
    ensures v1.faulted <==> RefusedIn(v, step, o, v1)
  {
    match step
    case Begin(t, a, last) =>
      PolledFaulted(v, t, a, last);
      hide Healthy, Polled, RefusedInPoll;
    case Take(_, _) =>
    case Back(t, again, a, last) =>
      BackOrderly(v, t);
      PolledFaulted(BackFrom(v, t), t, a, last);
      UpToDateFaulted(BackFrom(v, t), last);
      hide Healthy, Polled, RefusedInPoll, UpToDate, RefusedUpToDate, Allowed, BackFrom, Known, HeardAll;
    case Add(_, _, _, _, _, _, _) =>
      AddFaulted(v, step, o, v1);
      hide Follows, RefusedIn, Healthy, Allowed;
    case Mod(socket, events, data, a) =>
      ModFaulted(v, step, o, v1);
      hide Follows, RefusedIn, Healthy, Allowed;
    case Del(_, _) =>
  }

  lemma BackOrderly(v: View, t: Thread)
    requires Healthy(v) && t in v.waiting
    ensures Orderly(BackFrom(v, t).books)
  {
    FeedTree(v.books, v.waiting[t], 0);
  }

  lemma ModFaulted(v: View, step: Step, o: Outcome, v1: View)
    requires Healthy(v) && step.Mod? && Follows(v, step, o, v1)
    ensures v1.faulted <==> RefusedIn(v, step, o, v1)
  {
    if step.socket in v.books.tree && v.books.tree[step.socket] in v.books.sock {
      var r := v.books.tree[step.socket];
      EventSetOrderly(v.books, r, step.events, step.data);
      hide Orderly, UpToDate, RefusedUpToDate, EventSet;
      UpToDateFaulted(v.(books := EventSet(v.books, r, step.events, step.data)), step.a);
    }
  }

  ghost predicate NothingRefused(step: Step) {
    match step
    case Begin(_, a, last) => Willing(a) && Willing(last)
    case Back(_, _, a, last) => Willing(a) && Willing(last)
    case Add(_, _, _, _, _, _, a) => Willing(a)
    case Mod(_, _, _, a) => Willing(a)
    case _ => true
  }

  lemma WillingGrants(b: Books, a: Answers)
    requires Orderly(b) && Willing(a)
    ensures !Refusal(b, a)
  {
    WalkFails(b, a);
    WillingWalk(b, a);
  }

  lemma WillingStep(v: View, step: Step, o: Outcome, v1: View)
    requires Healthy(v) && Allowed(v, step) && Follows(v, step, o, v1) && NothingRefused(step) && !v.faulted
    ensures !v1.faulted
  {
    hide Willing, Refusal;
    match step
    case Begin(t, a, last) => WillingPoll(v, t, a, last);
    case Take(_, _) =>
    case Back(t, again, a, last) =>
      BackOrderly(v, t);
      WillingPoll(BackFrom(v, t), t, a, last);
      WillingUpToDate(BackFrom(v, t), last);
      hide Healthy, Polled, UpToDate, Allowed, FedAll, Known, HeardAll;
    case Add(_, _, _, _, _, _, _) =>
      hide RefusedUpToDate;
      AddFaulted(v, step, o, v1);
      if o.result == Done {
        WillingAdd(v, step, v1);
      }
    case Mod(socket, events, data, a) =>
      if socket in v.books.tree && v.books.tree[socket] in v.books.sock {
        EventSetOrderly(v.books, v.books.tree[socket], events, data);
        WillingUpToDate(v.(books := EventSet(v.books, v.books.tree[socket], events, data)), a);
      }
    case Del(_, _) =>
  }

  lemma WillingUpToDate(v: View, a: Answers)
    requires Orderly(v.books) && Willing(a) && !v.faulted
    ensures !UpToDate(v, a).faulted
  {
    UpToDateFaulted(v, a);
    WillingGrants(v.books, a);
  }

  lemma WillingPoll(v: View, t: Thread, a: Answers, last: Answers)
    requires Orderly(v.books) && Willing(a)
    ensures !Polled(v, t, a, last).faulted
  {
    PolledFaulted(v, t, a, last);
    WillingGrants(v.books, a);
  }

  lemma WillingAdd(v: View, step: Step, v1: View)
    requires Healthy(v) && step.Add? && Allowed(v, step) && Follows(v, step, Answer(Done), v1) && Willing(step.a)
      && !v.faulted
    ensures !RefusedIn(v, step, Answer(Done), v1)
  {
    forall g
      ensures var b := Joined(v.books, step.block.value, g, step.socket, step.events, step.data);
        !RefusedUpToDate(v.(books := b, groups := v1.groups), step.a)
    {
      var b := Joined(v.books, step.block.value, g, step.socket, step.events, step.data);
      JoinedOrderly(v.books, step.block.value, g, step.socket, step.events, step.data);
      hide Orderly, Joined;
      WillingGrants(b, step.a);
    }
  }

  // If the kernel refuses no request in a run, then in each of its states every socket is monitored if some
  // thread waits.
  lemma {:induction false} NobodyEverSleeps(vs: seq<View>, steps: seq<Step>, os: seq<Outcome>, n: nat)
    requires IsRun(vs, steps, os) && AllHealthy(vs) && n <= |steps| && forall i :: 0 <= i < n ==>
      NothingRefused(steps[i])
    ensures !vs[n].faulted
    ensures vs[n].waiting != map[] ==> forall k :: k in vs[n].books.tree ==> Attended(vs[n].books, k)
    decreases n
  {
    hide Follows, Allowed, NothingRefused, Attended, NoneDangles, GroupsOk, Orderly;
    if n > 0 {
      NobodyEverSleeps(vs, steps, os, n - 1);
      WillingStep(vs[n - 1], steps[n - 1], os[n - 1], vs[n]);
    }
    assert Healthy(vs[n]);
  }
}
