/** What the user of an epoll port is told, over whole runs: a socket keeps the events it was last asked for, and
    a one-shot socket keeps them until it is told something and is then told nothing more. */
module WepollReports {
  import opened Basics
  import opened Collections
  import opened WepollEvents
  import opened WepollState
  import opened WepollBooks
  import opened WepollPort
  import opened WepollRuns

  // ---------- a batch of packets ----------

  // Feeding packets in turn tells what each has to tell, in their order.
  function TellsAll(sock: map<Ref, Sock>, packets: seq<Packet>): seq<Event>
    requires forall p: Packet :: p in packets ==> p.sock in sock
  {
    if packets == [] then []
    else
      var s, rest := sock[packets[0].sock], TellsAll(sock, packets[1..]);
      if Tells(s, packets[0]) == 0 then rest else [Event(s.userData, Tells(s, packets[0]))] + rest
  }

  lemma {:induction false} HeardAllIs(sock: map<Ref, Sock>, packets: seq<Packet>)
    requires Known(sock, packets)
    ensures HeardAll(sock, packets) == TellsAll(sock, packets)
  {
    hide Heard, Tells;
    if packets != [] {
      assert packets[0] in packets;
      HeardIs(sock[packets[0].sock], packets[0]);
      HeardAllIs(sock, packets[1..]);
    }
  }

  // One of the packets has something to tell of record r.
  ghost predicate ToldBy(sock: map<Ref, Sock>, packets: seq<Packet>, r: Ref) {
    exists p: Packet :: p in packets && p.sock == r && r in sock && Tells(sock[r], p) != 0
  }

  function Shot(events: Mask): Mask { if events & EPOLLONESHOT != 0 then 0 else events }

  // The user's side of a record: told something, a one-shot record wants nothing any more.
  ghost predicate UserAfter(s: Sock, told: bool, s1: Sock) {
    s1.userData == s.userData && s1.userEvents == if told then Shot(s.userEvents) else s.userEvents
  }

  lemma FedAbsent(b: Books, p: Packet)
    requires p.sock !in b.sock
    ensures Fed(b, p) == b
  {
  }

  lemma {:induction false} FedAllUser(b: Books, packets: seq<Packet>, r: Ref)
    requires Orderly(b) && Distinct(packets) && r in FedAll(b, packets).sock
    ensures r in b.sock && UserAfter(b.sock[r], ToldBy(b.sock, packets, r), FedAll(b, packets).sock[r])
    decreases |packets|
  {
    hide Orderly, Fed, Tells;
    if packets != [] {
      var p, rest := packets[0], packets[1..];
      assert forall q: Packet :: q in packets <==> q == p || q in rest;
      assert forall q: Packet :: q in rest ==> q.sock != p.sock;
      FedOrderly(b, p);
      FedOthers(b, p);
      FedAllUser(Fed(b, p), rest, r);
      if p.sock in b.sock {
        FedIs(b, p);
      } else {
        FedAbsent(b, p);
      }
      assert packets[0] in packets;
    }
  }

  lemma {:induction false} FedAllTree(b: Books, packets: seq<Packet>, k: Socket)
    requires Orderly(b) && k in FedAll(b, packets).tree
    ensures k in b.tree && FedAll(b, packets).tree[k] == b.tree[k] && Orderly(FedAll(b, packets))
    decreases |packets|
  {
    hide Orderly, Fed, Tells;
    if packets != [] {
      FedOrderly(b, packets[0]);
      FedAllTree(Fed(b, packets[0]), packets[1..], k);
      if packets[0].sock in b.sock {
        FedIs(b, packets[0]);
      } else {
        FedAbsent(b, packets[0]);
      }
    }
  }

  // ---------- one step ----------

  // Socket k is still in the port, with the same record; what its user wants is as before, unless he has been told
  // something.
  ghost predicate Kept(b: Books, k: Socket, told: bool, b1: Books) {
    && k in b.tree && b.tree[k] in b.sock && k in b1.tree && b1.tree[k] == b.tree[k] && b.tree[k] in b1.sock
    && UserAfter(b.sock[b.tree[k]], told, b1.sock[b.tree[k]])
  }

  lemma KeptTwice(b: Books, k: Socket, told: bool, b1: Books, b2: Books)
    requires Kept(b, k, told, b1) && Kept(b1, k, false, b2)
    ensures Kept(b, k, told, b2)
  {
  }

  lemma WalkKept(b: Books, a: Answers, k: Socket)
    requires Orderly(b) && k in Walked(b, a).books.tree
    ensures Kept(b, k, false, Walked(b, a).books) && Orderly(Walked(b, a).books)
  {
    WalkKeepsUsers(b, a);
    WalkedOrderly(b, a);
    assert b.tree[k] in b.sock;
    hide Orderly, Walked;
  }

  lemma SameKept(b: Books, k: Socket)
    requires Orderly(b) && k in b.tree
    ensures Kept(b, k, false, b)
  {
  }

  lemma UpToDateKept(v: View, a: Answers, k: Socket)
    requires Orderly(v.books) && k in UpToDate(v, a).books.tree
    ensures Kept(v.books, k, false, UpToDate(v, a).books)
  {
    if |v.waiting| == 0 {
      SameKept(v.books, k);
    } else {
      hide Orderly, Walked, Kept;
      WalkKept(v.books, a, k);
    }
  }

  lemma PolledKept(v: View, t: Thread, a: Answers, last: Answers, k: Socket)
    requires Orderly(v.books) && k in Polled(v, t, a, last).books.tree
    ensures Kept(v.books, k, false, Polled(v, t, a, last).books)
  {
    hide Orderly, Walked, UpToDate;
    var w := Walked(v.books, a);
    WalkedOrderly(v.books, a);
    if w.ok {
      WalkKept(v.books, a, k);
    } else {
      var v1 := v.(books := w.books, faulted := true);
      UpToDateKept(v1, last, k);
      WalkKept(v.books, a, k);
      KeptTwice(v.books, k, false, w.books, UpToDate(v1, last).books);
    }
  }

  lemma BackKept(v: View, t: Thread, k: Socket)
    requires Healthy(v) && t in v.waiting && k in BackFrom(v, t).books.tree
    ensures k in v.books.tree && Orderly(BackFrom(v, t).books)
    ensures Kept(v.books, k, ToldBy(v.books.sock, v.waiting[t], v.books.tree[k]), BackFrom(v, t).books)
  {
    FedAllTree(v.books, v.waiting[t], k);
    hide NoneSleeps, NoneDangles, GroupsOk, FedAll, ToldBy, UserAfter;
    var b1 := BackFrom(v, t).books;
    assert b1.tree[k] in b1.sock && v.books.tree[k] in v.books.sock;
    hide Orderly;
    FedAllUser(v.books, v.waiting[t], v.books.tree[k]);
  }

  // A thread comes back with a packet that tells the user something of socket k.
  ghost predicate ToldIn(v: View, step: Step, k: Socket) {
    && step.Back? && step.t in v.waiting && k in v.books.tree
    && ToldBy(v.books.sock, v.waiting[step.t], v.books.tree[k])
  }

  lemma BackStepKept(v: View, step: Step, o: WepollRuns.Outcome, v1: View, k: Socket)
    requires Healthy(v) && step.Back? && Follows(v, step, o, v1) && k in v1.books.tree
    ensures Kept(v.books, k, ToldIn(v, step, k), v1.books)
  {
    hide Healthy, Orderly, UpToDate, Polled, Walked, BackFrom, Kept, Known, HeardAll, ToldBy;
    var w := BackFrom(v, step.t);
    BackOrderly(v, step.t);
    if o.events == [] && step.again {
      PolledKept(w, step.t, step.a, step.last, k);
    } else {
      UpToDateKept(w, step.last, k);
    }
    assert k in w.books.tree by { InKept(w.books, k, false, v1.books); }
    BackKept(v, step.t, k);
    KeptTwice(v.books, k, ToldIn(v, step, k), w.books, v1.books);
  }

  lemma InKept(b: Books, k: Socket, told: bool, b1: Books)
    requires Kept(b, k, told, b1)
    ensures k in b.tree && k in b1.tree
  {
  }

  lemma JoinedKept(b: Books, r: Ref, g: Group, socket: Socket, events: Mask, data: nat, k: Socket)
    requires Orderly(b) && r !in b.sock && socket !in b.tree && k in b.tree
    ensures Kept(b, k, false, Joined(b, r, g, socket, events, data))
  {
    hide NoDup, Covers, Queued;
  }

  lemma AddStepKept(v: View, step: Step, o: WepollRuns.Outcome, v1: View, k: Socket)
    requires Healthy(v) && step.Add? && Allowed(v, step) && Follows(v, step, o, v1)
    requires k in v.books.tree && k in v1.books.tree
    ensures Kept(v.books, k, false, v1.books)
  {
    hide NoneSleeps, GroupsOk, Orderly, Kept, Roomy, Sizes, Chosen, WepollPort.Taken;
    assert step.block.Some? ==> step.block.value !in v.books.kernel;
    hide NoneDangles;
    if o.result == Done {
      AddedGroups(v, v1, step);
      var r := step.block.value;
      var g :| v1 == AddedTo(v, v1.groups, r, g, step.socket, step.events, step.data, step.a);
      JoinedKept(v.books, r, g, step.socket, step.events, step.data, k);
      JoinedOrderly(v.books, r, g, step.socket, step.events, step.data);
      var b := Joined(v.books, r, g, step.socket, step.events, step.data);
      hide Joined, UpToDate;
      UpToDateKept(v.(books := b, groups := v1.groups), step.a, k);
      KeptTwice(v.books, k, false, b, v1.books);
    } else {
      SameKept(v.books, k);
    }
  }

  lemma EventSetKept(b: Books, socket: Socket, events: Mask, data: nat, k: Socket)
    requires Orderly(b) && socket in b.tree && b.tree[socket] in b.sock && k in b.tree && k != socket
    ensures Kept(b, k, false, EventSet(b, b.tree[socket], events, data))
  {
    hide NoDup, Covers, Queued;
  }

  lemma ModStepKept(v: View, step: Step, o: WepollRuns.Outcome, v1: View, k: Socket)
    requires Healthy(v) && step.Mod? && step.socket != k && Follows(v, step, o, v1)
    requires k in v.books.tree && k in v1.books.tree
    ensures Kept(v.books, k, false, v1.books)
  {
    assert step.socket in v.books.tree ==> !v.books.sock[v.books.tree[step.socket]].deletePending;
    hide NoneSleeps, NoneDangles, GroupsOk, Orderly, Kept;
    if step.socket in v.books.tree && v.books.tree[step.socket] in v.books.sock {
      var b := EventSet(v.books, v.books.tree[step.socket], step.events, step.data);
      EventSetKept(v.books, step.socket, step.events, step.data, k);
      EventSetOrderly(v.books, v.books.tree[step.socket], step.events, step.data);
      hide EventSet, UpToDate;
      UpToDateKept(v.(books := b), step.a, k);
      KeptTwice(v.books, k, false, b, v1.books);
    } else {
      SameKept(v.books, k);
    }
  }

  lemma DelStepKept(v: View, step: Step, o: WepollRuns.Outcome, v1: View, k: Socket)
    requires Healthy(v) && step.Del? && Follows(v, step, o, v1) && k in v.books.tree && k in v1.books.tree
    ensures Kept(v.books, k, false, v1.books)
  {
    hide NoneSleeps, NoneDangles, GroupsOk, NoDup, Retired, Drop;
  }

  // What the user wants of a socket that stays in the port is changed by Mod alone, or by telling him something.
  lemma StepKept(v: View, step: Step, o: WepollRuns.Outcome, v1: View, k: Socket)
    requires Healthy(v) && Allowed(v, step) && Follows(v, step, o, v1)
    requires k in v.books.tree && k in v1.books.tree && !(step.Mod? && step.socket == k)
    ensures Kept(v.books, k, ToldIn(v, step, k), v1.books)
  {
    hide Orderly, Kept;
    match step
    case Begin(t, a, last) =>
      PolledKept(v, t, a, last, k);
      hide Healthy, Polled;
    case Take(_, _) => SameKept(v.books, k);
    case Back(_, _, _, _) => BackStepKept(v, step, o, v1, k); hide Follows, ToldIn, Healthy, Allowed;
    case Add(_, _, _, _, _, _, _) => AddStepKept(v, step, o, v1, k); hide Follows, Healthy, Allowed;
    case Mod(_, _, _, _) => ModStepKept(v, step, o, v1, k); hide Follows, Healthy, Allowed;
    case Del(_, _) => DelStepKept(v, step, o, v1, k); hide Follows, Healthy, Allowed;
  }

  // ---------- whole runs ----------

  // The i-th step asks for these events of socket k.
  ghost predicate Asks(steps: seq<Step>, os: seq<WepollRuns.Outcome>, i: nat, k: Socket, events: Mask, data: nat)
    requires i < |steps| == |os|
  {
    (steps[i].Add? || steps[i].Mod?) && steps[i].socket == k && os[i] == Answer(Done)
      && steps[i].events == events && steps[i].data == data
  }

  // From the i-th step to the n-th the socket is in the port and is not modified.
  ghost predicate Unmodified(vs: seq<View>, steps: seq<Step>, i: nat, n: nat, k: Socket)
    requires i < n <= |steps| < |vs|
  {
    && (forall j :: i < j <= n ==> k in vs[j].books.tree)
    && forall j :: i < j < n ==> !(steps[j].Mod? && steps[j].socket == k)
  }

  // The user has been told something of it since.
  ghost predicate ToldSince(vs: seq<View>, steps: seq<Step>, i: nat, n: nat, k: Socket)
    requires n <= |steps| < |vs|
  {
    exists j :: i < j < n && ToldIn(vs[j], steps[j], k)
  }

  // In every run a socket wants the events it was last asked for and the two that are always added; only a one-shot
  // socket wants nothing from when the user is told something of it until it is modified.
  lemma {:induction false} WantsLastAsked(vs: seq<View>, steps: seq<Step>, os: seq<WepollRuns.Outcome>, i: nat, n: nat,
      k: Socket, events: Mask, data: nat)
    requires IsRun(vs, steps, os) && AllHealthy(vs) && i < n <= |steps|
    requires Asks(steps, os, i, k, events, data) && Unmodified(vs, steps, i, n, k)
    ensures k in vs[n].books.tree && vs[n].books.tree[k] in vs[n].books.sock
    ensures var s := vs[n].books.sock[vs[n].books.tree[k]];
      && s.userData == data
      && s.userEvents == if events & EPOLLONESHOT != 0 && ToldSince(vs, steps, i, n, k) then 0
           else events | EPOLLERR | EPOLLHUP
    decreases n
  {
    hide Follows, Allowed, Healthy, ToldIn, Kept;
    Always(events);
    if n == i + 1 {
      StepWants(vs[i], steps[i], vs[n]);
      assert !ToldSince(vs, steps, i, n, k);
    } else {
      WantsLastAsked(vs, steps, os, i, n - 1, k, events, data);
      StepKept(vs[n - 1], steps[n - 1], os[n - 1], vs[n], k);
      ToldMore(vs, steps, i, n, k);
      hide IsRun, AllHealthy, ToldSince;
      KeptIs(vs[n - 1].books, k, ToldIn(vs[n - 1], steps[n - 1], k), vs[n].books);
    }
  }

  lemma ToldMore(vs: seq<View>, steps: seq<Step>, i: nat, n: nat, k: Socket)
    requires i + 1 < n <= |steps| < |vs|
    ensures ToldSince(vs, steps, i, n, k) <==>
      ToldSince(vs, steps, i, n - 1, k) || ToldIn(vs[n - 1], steps[n - 1], k)
  {
    hide ToldIn;
  }

  lemma KeptIs(b: Books, k: Socket, told: bool, b1: Books)
    requires Kept(b, k, told, b1)
    ensures k in b.tree && b.tree[k] in b.sock && k in b1.tree && b1.tree[k] == b.tree[k] && b.tree[k] in b1.sock
    ensures var s, s1 := b.sock[b.tree[k]], b1.sock[b.tree[k]];
      s1.userData == s.userData && s1.userEvents == if told then Shot(s.userEvents) else s.userEvents
  {
  }

  lemma Always(events: Mask)
    ensures Shot(0) == 0
    ensures Shot(events | EPOLLERR | EPOLLHUP) ==
      if events & EPOLLONESHOT != 0 then 0 else events | EPOLLERR | EPOLLHUP
  {
  }

  // The user is told of a one-shot socket once, until it is modified.
  lemma OneShotOnce(vs: seq<View>, steps: seq<Step>, os: seq<WepollRuns.Outcome>, i: nat, j: nat, n: nat, k: Socket,
      events: Mask, data: nat)
    requires IsRun(vs, steps, os) && AllHealthy(vs) && i < j < n < |steps| && events & EPOLLONESHOT != 0
    requires Asks(steps, os, i, k, events, data) && Unmodified(vs, steps, i, n, k) && ToldIn(vs[j], steps[j], k)
    ensures !ToldIn(vs[n], steps[n], k)
  {
    assert ToldSince(vs, steps, i, n, k);
    WantsLastAsked(vs, steps, os, i, n, k, events, data);
    hide IsRun, AllHealthy, Asks, Unmodified, ToldSince, AfdToEpoll;
    var s := vs[n].books.sock[vs[n].books.tree[k]];
    forall p
      ensures Tells(s, p) == 0
    {
      WantsNothing(s, p);
    }
  }

  lemma WantsNothing(s: Sock, p: Packet)
    requires s.userEvents == 0
    ensures Tells(s, p) == 0
  {
    hide AfdToEpoll;
  }
}
