/** Who may touch an epoll port: the table of epoll handles, and the lock that lets a port be freed
    only after every thread has left it.

    Any number of threads call epoll_create, epoll_ctl, epoll_wait and epoll_close.  A method is one
    atomic step of one thread: the table is searched and the count raised under the table's lock, and
    every other step is one interlocked operation.  A keyed event hands over: the thread that
    releases it and the thread that awaits it go on together. */
module Reflock {
  import opened Collections

  type Handle = nat
  type Addr = nat
  type Thread = nat

  // One reference is 1; the upper four of the 32 bits say whether the lock is being destroyed.
  const REF_LIMIT := 0x1000_0000
  const DESTROY := 0x1000_0000
  const POISON := 0x300d_ead0

  function RefCount(state: int): int { state % REF_LIMIT }

  function DestroyBits(state: int): int { state / REF_LIMIT % 16 }

  // What a thread is doing: nothing; inside a port, holding a reference; about to release the event
  // of a port it has left; or one of the four stages of closing a port.
  datatype Pc =
    | Out
    | Inside(port: Addr)
    | Signalling(port: Addr)
    | Closing(port: Addr)
    | Awaiting(port: Addr)
    | Poisoning(port: Addr)
    | Deleting(port: Addr)

  predicate Holds(p: Pc, a: Addr) { (p.Inside? || p.Closing?) && p.port == a }

  predicate Signals(p: Pc, a: Addr) { p.Signalling? && p.port == a }

  predicate Closes(p: Pc, a: Addr) { (p.Closing? || p.Awaiting? || p.Poisoning? || p.Deleting?) && p.port == a }

  ghost function Holders(pc: map<Thread, Pc>, a: Addr): set<Thread> { set t | t in pc && Holds(pc[t], a) }

  ghost function Signallers(pc: map<Thread, Pc>, a: Addr): set<Thread> { set t | t in pc && Signals(pc[t], a) }

  // The lock of a port, by the stage that closing it has reached.
  ghost predicate LockOk(lock: int, stage: Pc, holders: nat, signallers: nat) {
    match stage
    case Awaiting(_) => lock == holders + DESTROY && signallers == (if holders == 0 then 1 else 0)
    case Poisoning(_) => lock == DESTROY && holders == 0 && signallers == 0
    case Deleting(_) => lock == POISON && holders == 0 && signallers == 0
    case _ => lock == holders && signallers == 0
  }

  ghost function Stage(pc: map<Thread, Pc>, closer: map<Addr, Thread>, a: Addr): Pc {
    if a in closer && closer[a] in pc then pc[closer[a]] else Out
  }

  ghost predicate PortOk(a: Addr, lock: int, pc: map<Thread, Pc>, closer: map<Addr, Thread>) {
    LockOk(lock, Stage(pc, closer, a), |Holders(pc, a)|, |Signallers(pc, a)|)
  }

  // A port is either in the table or being closed by exactly one thread.
  ghost predicate TableOk(table: map<Handle, Addr>, locks: map<Addr, int>, closer: map<Addr, Thread>) {
    && (forall h :: h in table ==> table[h] in locks && table[h] !in closer)
    && (forall h, k :: h in table && k in table && h != k ==> table[h] != table[k])
    && (forall a :: a in locks && a !in closer ==> exists h :: h in table && table[h] == a)
    && (forall a :: a in closer ==> a in locks)
  }

  ghost predicate ThreadsOk(pc: map<Thread, Pc>, locks: map<Addr, int>, closer: map<Addr, Thread>) {
    && (forall t :: t in pc && pc[t] != Out ==> pc[t].port in locks)
    && (forall t :: t in pc && pc[t] != Out && Closes(pc[t], pc[t].port) ==>
         pc[t].port in closer && closer[pc[t].port] == t)
    && (forall a :: a in closer ==> closer[a] in pc && Closes(pc[closer[a]], a))
  }

  ghost predicate LocksOk(locks: map<Addr, int>, pc: map<Thread, Pc>, closer: map<Addr, Thread>) {
    forall a :: a in locks ==> PortOk(a, locks[a], pc, closer)
  }

  // ---------- one thread moves ----------

  lemma Moved(pc: map<Thread, Pc>, t: Thread, p: Pc, a: Addr)
    requires t in pc
    ensures |Holders(pc[t := p], a)| == |Holders(pc, a)| - (if Holds(pc[t], a) then 1 else 0)
      + (if Holds(p, a) then 1 else 0)
    ensures |Signallers(pc[t := p], a)| == |Signallers(pc, a)| - (if Signals(pc[t], a) then 1 else 0)
      + (if Signals(p, a) then 1 else 0)
  {
    hide Holds, Signals;
    HoldersMoved(pc, t, p, a);
    SignallersMoved(pc, t, p, a);
  }

  lemma HoldersMoved(pc: map<Thread, Pc>, t: Thread, p: Pc, a: Addr)
    requires t in pc
    ensures |Holders(pc[t := p], a)| == |Holders(pc, a)| - (if Holds(pc[t], a) then 1 else 0)
      + (if Holds(p, a) then 1 else 0)
  {
    hide Holds;
    var h, h1 := Holders(pc, a), Holders(pc[t := p], a);
    assert forall u :: u in h1 - {t} <==> u in h - {t};
    assert h1 - {t} == h - {t};
    SetSize(h, t);
    SetSize(h1, t);
  }

  lemma SignallersMoved(pc: map<Thread, Pc>, t: Thread, p: Pc, a: Addr)
    requires t in pc
    ensures |Signallers(pc[t := p], a)| == |Signallers(pc, a)| - (if Signals(pc[t], a) then 1 else 0)
      + (if Signals(p, a) then 1 else 0)
  {
    hide Signals;
    var h, h1 := Signallers(pc, a), Signallers(pc[t := p], a);
    assert forall u :: u in h1 - {t} <==> u in h - {t};
    assert h1 - {t} == h - {t};
    SetSize(h, t);
    SetSize(h1, t);
  }

  // A thread that changes what it does at port a without starting or ending to close it.
  lemma ThreadStays(pc: map<Thread, Pc>, t: Thread, p: Pc, a: Addr, n: int, table: map<Handle, Addr>, locks: map<Addr,
      int>, closer: map<Addr, Thread>)
    requires ThreadsOk(pc, locks, closer) && TableOk(table, locks, closer) && t in pc && a in locks
    requires (pc[t] == Out || pc[t].port == a) && (p == Out || p.port == a) && (Closes(p, a) <==> Closes(pc[t], a))
    ensures ThreadsOk(pc[t := p], locks[a := n], closer) && TableOk(table, locks[a := n], closer)
  {
  }

  lemma ThreadCloses(pc: map<Thread, Pc>, t: Thread, a: Addr, n: int, locks: map<Addr, int>, closer: map<Addr, Thread>)
    requires ThreadsOk(pc, locks, closer) && t in pc && a in locks && pc[t] == Out && a !in closer
    ensures ThreadsOk(pc[t := Closing(a)], locks[a := n], closer[a := t])
  {
    assert Closes(Closing(a), a);
    hide Closes;
  }

  lemma ThreadDeletes(pc: map<Thread, Pc>, t: Thread, locks: map<Addr, int>, closer: map<Addr, Thread>)
    requires ThreadsOk(pc, locks, closer) && t in pc && pc[t].Deleting?
    requires forall u :: u in pc && u != t && pc[u] != Out ==> pc[u].port != pc[t].port
    ensures ThreadsOk(pc[t := Out], locks - {pc[t].port}, closer - {pc[t].port})
  {
    assert Closes(pc[t], pc[t].port);
    hide Closes;
  }

  // Only the port that the thread is or comes to be concerned with can change.
  lemma OthersStay(pc: map<Thread, Pc>, t: Thread, p: Pc, a: Addr, locks: map<Addr, int>, locks1: map<Addr, int>,
      closer: map<Addr, Thread>, closer1: map<Addr, Thread>)
    requires LocksOk(locks, pc, closer) && t in pc
    requires (pc[t] == Out || pc[t].port == a) && (p == Out || p.port == a)
    requires forall b :: b in locks1 && b != a ==> b in locks && locks1[b] == locks[b]
    requires forall b :: b != a ==>
      (b in closer1 <==> b in closer) && (b in closer ==> closer1[b] == closer[b] && closer[b] != t)
    requires a in locks1 ==> PortOk(a, locks1[a], pc[t := p], closer1)
    ensures LocksOk(locks1, pc[t := p], closer1)
  {
    hide LockOk;
    forall b | b in locks1 && b != a
      ensures PortOk(b, locks1[b], pc[t := p], closer1)
    {
      assert PortOk(b, locks[b], pc, closer);
      Moved(pc, t, p, b);
    }
  }

  lemma HoldersFew(pc: map<Thread, Pc>, a: Addr)
    ensures |Holders(pc, a)| <= |pc|
  {
    Subset(Holders(pc, a), pc.Keys);
  }

  ghost predicate Ok(table: map<Handle, Addr>, locks: map<Addr, int>, pc: map<Thread, Pc>, closer: map<Addr, Thread>) {
    |pc| < REF_LIMIT && TableOk(table, locks, closer) && ThreadsOk(pc, locks, closer) && LocksOk(locks, pc, closer)
  }

  lemma NewPort(table: map<Handle, Addr>, locks: map<Addr, int>, pc: map<Thread, Pc>, closer: map<Addr, Thread>,
      h: Handle, a: Addr)
    requires Ok(table, locks, pc, closer) && h !in table && a !in locks
    ensures Ok(table[h := a], locks[a := 0], pc, closer)
  {
    hide LockOk;
    NewTable(table, locks, closer, h, a);
    assert Holders(pc, a) == {} && Signallers(pc, a) == {};
    FreshLock();
    assert LocksOk(locks[a := 0], pc, closer) by {
      forall b | b == a || b in locks
        ensures PortOk(b, locks[a := 0][b], pc, closer)
      {
        assert b != a ==> PortOk(b, locks[b], pc, closer);
      }
    }
  }

  lemma FreshLock()
    ensures LockOk(0, Out, 0, 0)
  {
  }

  lemma NewTable(table: map<Handle, Addr>, locks: map<Addr, int>, closer: map<Addr, Thread>, h: Handle, a: Addr)
    requires TableOk(table, locks, closer) && h !in table && a !in locks
    ensures TableOk(table[h := a], locks[a := 0], closer)
  {
    var table1 := table[h := a];
    assert h in table1 && table1[h] == a;
    forall b | b in locks && b !in closer
      ensures exists k :: k in table1 && table1[k] == b
    {
      var k :| k in table && table[k] == b;
      assert table1[k] == b;
    }
  }

  lemma Bits(n: int)
    requires 0 <= n < REF_LIMIT
    ensures DestroyBits(n) == 0 && DestroyBits(n + DESTROY) == 1 && RefCount(n + DESTROY) == n
  {
  }

  lemma Bounds(pc: map<Thread, Pc>, t: Thread, a: Addr)
    requires t in pc && Holds(pc[t], a)
    ensures 0 < |Holders(pc, a)| <= |pc|
  {
    HoldersFew(pc, a);
    SetSize(Holders(pc, a), t);
  }

  lemma Room(pc: map<Thread, Pc>, t: Thread, a: Addr)
    requires t in pc && !Holds(pc[t], a)
    ensures |Holders(pc, a)| < |pc|
  {
    HoldersFew(pc[t := Inside(a)], a);
    Moved(pc, t, Inside(a), a);
    SameSize(pc, t, Inside(a));
  }

  lemma EnterOk(table: map<Handle, Addr>, locks: map<Addr, int>, pc: map<Thread, Pc>, closer: map<Addr, Thread>,
      t: Thread, h: Handle)
    requires Ok(table, locks, pc, closer) && t in pc && pc[t] == Out && h in table
    ensures table[h] in locks && DestroyBits(locks[table[h]] + 1) == 0
    ensures Ok(table, locks[table[h] := locks[table[h]] + 1], pc[t := Inside(table[h])], closer)
  {
    hide DestroyBits, RefCount, Holders, Signallers, LocksOk;
    var a, p := table[h], Inside(table[h]);
    ThreadStays(pc, t, p, a, locks[a] + 1, table, locks, closer);
    FoundOk(table, locks, pc, closer, t, h);
    Bits(locks[a] + 1);
    hide ThreadsOk;
    Moved(pc, t, p, a);
    SameSize(pc, t, p);
    hide TableOk;
    OthersStay(pc, t, p, a, locks, locks[a := locks[a] + 1], closer, closer);
  }

  // A port that is found in the table is not being closed, and its count has room for one more.
  lemma FoundOk(table: map<Handle, Addr>, locks: map<Addr, int>, pc: map<Thread, Pc>, closer: map<Addr, Thread>,
      t: Thread, h: Handle)
    requires Ok(table, locks, pc, closer) && t in pc && pc[t] == Out && h in table
    ensures var a := table[h];
      && a in locks && a !in closer && locks[a] == |Holders(pc, a)| && |Signallers(pc, a)| == 0
      && 0 <= locks[a] && locks[a] + 1 < REF_LIMIT
  {
    hide ThreadsOk;
    assert PortOk(table[h], locks[table[h]], pc, closer);
    Room(pc, t, table[h]);
  }

  // Where unref goes on after it has taken its reference away: the last one out releases the event.
  function AfterUnref(state: int, a: Addr): Pc { if state == DESTROY then Signalling(a) else Out }

  lemma AfterUnrefIs(state: int, a: Addr)
    ensures var p := AfterUnref(state, a);
      (p == Out || p.port == a) && !Closes(p, a) && !Holds(p, a) && (Signals(p, a) <==> state == DESTROY)
  {
  }

  lemma LeaveLock(lock: int, stage: Pc, holders: nat, signallers: nat)
    requires LockOk(lock, stage, holders, signallers) && 0 < holders < REF_LIMIT
    ensures 0 <= DestroyBits(lock - 1) <= 1
    ensures LockOk(lock - 1, stage, holders - 1, signallers + if lock - 1 == DESTROY then 1 else 0)
  {
    Bits(holders - 1);
  }

  // What is known of the port that a thread is in.
  lemma InsideFacts(table: map<Handle, Addr>, locks: map<Addr, int>, pc: map<Thread, Pc>, closer: map<Addr, Thread>,
      t: Thread)
    requires Ok(table, locks, pc, closer) && t in pc && pc[t].Inside?
    ensures var a := pc[t].port;
      && a in locks && LockOk(locks[a], Stage(pc, closer, a), |Holders(pc, a)|, |Signallers(pc, a)|)
      && 0 < |Holders(pc, a)| < REF_LIMIT && !Closes(pc[t], a)
    ensures forall b :: b in closer ==> closer[b] != t
  {
    var a := pc[t].port;
    assert PortOk(a, locks[a], pc, closer);
    Bounds(pc, t, a);
  }

  lemma LeaveOk(table: map<Handle, Addr>, locks: map<Addr, int>, pc: map<Thread, Pc>, closer: map<Addr, Thread>,
      t: Thread)
    requires Ok(table, locks, pc, closer) && t in pc && pc[t].Inside?
    ensures pc[t].port in locks && 0 <= DestroyBits(locks[pc[t].port] - 1) <= 1
    ensures var a := pc[t].port; var lock := locks[a] - 1;
      Ok(table, locks[a := lock], pc[t := AfterUnref(lock, a)], closer)
  {
    hide LockOk, ThreadsOk, TableOk, LocksOk, Holders;
    var a := pc[t].port;
    hide DestroyBits, RefCount, AfterUnref, Signallers, Stage, Closes, Holds, Signals;
    InsideFacts(table, locks, pc, closer, t);
    LeaveLock(locks[a], Stage(pc, closer, a), |Holders(pc, a)|, |Signallers(pc, a)|);
    var p := AfterUnref(locks[a] - 1, a);
    AfterUnrefIs(locks[a] - 1, a);
    ThreadStays(pc, t, p, a, locks[a] - 1, table, locks, closer);
    SameSize(pc, t, p);
    LeaveLocks(pc, t, p, locks, closer);
  }

  lemma LeaveLocks(pc: map<Thread, Pc>, t: Thread, p: Pc, locks: map<Addr, int>, closer: map<Addr, Thread>)
    requires LocksOk(locks, pc, closer) && t in pc && pc[t].Inside? && pc[t].port in locks
    requires var a := pc[t].port;
      && (p == Out || p.port == a) && !Holds(p, a) && |Holders(pc, a)| > 0
      && LockOk(locks[a] - 1, Stage(pc, closer, a), |Holders(pc, a)| - 1, |Signallers(pc, a)|
           + if Signals(p, a) then 1 else 0)
    requires forall b :: b in closer ==> closer[b] != t
    ensures LocksOk(locks[pc[t].port := locks[pc[t].port] - 1], pc[t := p], closer)
  {
    var a := pc[t].port;
    hide LockOk, LocksOk, Holders, Signallers;
    Moved(pc, t, p, a);
    OthersStay(pc, t, p, a, locks, locks[a := locks[a] - 1], closer, closer);
  }

  lemma CloseOk(table: map<Handle, Addr>, locks: map<Addr, int>, pc: map<Thread, Pc>, closer: map<Addr, Thread>,
      t: Thread, h: Handle)
    requires Ok(table, locks, pc, closer) && t in pc && pc[t] == Out && h in table
    ensures table[h] in locks && DestroyBits(locks[table[h]] + 1) == 0
    ensures var a := table[h];
      Ok(table - {h}, locks[a := locks[a] + 1], pc[t := Closing(a)], closer[a := t])
  {
    hide DestroyBits, RefCount, TableOk, Holders, Signallers, LocksOk;
    var a, p := table[h], Closing(table[h]);
    FoundOk(table, locks, pc, closer, t, h);
    Bits(locks[a] + 1);
    ThreadCloses(pc, t, a, locks[a] + 1, locks, closer);
    TakenOut(table, locks, closer, t, h);
    assert forall b :: b in closer ==> closer[b] != t;
    hide ThreadsOk;
    Moved(pc, t, p, a);
    SameSize(pc, t, p);
    OthersStay(pc, t, p, a, locks, locks[a := locks[a] + 1], closer, closer[a := t]);
  }

  lemma TakenOut(table: map<Handle, Addr>, locks: map<Addr, int>, closer: map<Addr, Thread>, t: Thread, h: Handle)
    requires TableOk(table, locks, closer) && h in table
    ensures TableOk(table - {h}, locks[table[h] := locks[table[h]] + 1], closer[table[h] := t])
  {
    var table1 := table - {h};
    forall b | b in locks && b !in closer && b != table[h]
      ensures exists k :: k in table1 && table1[k] == b
    {
      var k :| k in table && table[k] == b;
      assert table1[k] == b;
    }
  }

  lemma DestroyOk(table: map<Handle, Addr>, locks: map<Addr, int>, pc: map<Thread, Pc>, closer: map<Addr, Thread>,
      t: Thread)
    requires Ok(table, locks, pc, closer) && t in pc && pc[t].Closing?
    ensures pc[t].port in locks
    ensures var a := pc[t].port; var lock := locks[a] + DESTROY - 1;
      && DestroyBits(lock) == 1
      && (RefCount(lock) != 0 <==> exists u :: u in pc && pc[u] == Inside(a))
      && Ok(table, locks[a := lock], pc[t := if RefCount(lock) != 0 then Awaiting(a) else Poisoning(a)], closer)
  {
    hide Signallers;
    var a := pc[t].port;
    var lock := locks[a] + DESTROY - 1;
    hide DestroyBits, RefCount;
    assert PortOk(a, locks[a], pc, closer);
    Bounds(pc, t, a);
    Bits(|Holders(pc, a)| - 1);
    assert RefCount(lock) == |Holders(pc, a)| - 1;
    var p := if RefCount(lock) != 0 then Awaiting(a) else Poisoning(a);
    ThreadStays(pc, t, p, a, lock, table, locks, closer);
    InsideCount(pc, locks, closer, t);
    assert Stage(pc[t := p], closer, a) == p && forall b :: b in closer && b != a ==> closer[b] != t;
    hide TableOk, ThreadsOk;
    Moved(pc, t, p, a);
    SameSize(pc, t, p);
    hide Holders;
    OthersStay(pc, t, p, a, locks, locks[a := lock], closer, closer);
  }

  // The references besides that of the thread which closes the port.
  lemma InsideCount(pc: map<Thread, Pc>, locks: map<Addr, int>, closer: map<Addr, Thread>, t: Thread)
    requires ThreadsOk(pc, locks, closer) && t in pc && pc[t].Closing?
    ensures |Holders(pc, pc[t].port)| > 1 <==> exists u :: u in pc && pc[u] == Inside(pc[t].port)
  {
    var a := pc[t].port;
    var rest := Holders(pc, a) - {t};
    SetSize(Holders(pc, a), t);
    if |rest| > 0 {
      var u :| u in rest;
      assert pc[u] == Inside(a);
    }
    if u :| u in pc && pc[u] == Inside(a) {
      assert u in rest;
    }
  }

  lemma SignalOk(table: map<Handle, Addr>, locks: map<Addr, int>, pc: map<Thread, Pc>, closer: map<Addr, Thread>,
      t: Thread, u: Thread)
    requires Ok(table, locks, pc, closer)
    requires t in pc && pc[t].Signalling? && u in pc && pc[u] == Awaiting(pc[t].port)
    ensures Ok(table, locks, pc[t := Out][u := Poisoning(pc[t].port)], closer)
  {
    hide Holders;
    var a := pc[t].port;
    var pc1 := pc[t := Out];
    assert PortOk(a, locks[a], pc, closer);
    SetSize(Signallers(pc, a), t);
    assert Stage(pc, closer, a) == pc[u];
    assert ThreadsOk(pc1[u := Poisoning(a)], locks, closer);
    assert forall b :: b in closer && b != a ==> closer[b] != t && closer[b] != u;
    hide ThreadsOk, TableOk;
    Moved(pc, t, Out, a);
    Moved(pc1, u, Poisoning(a), a);
    SameSize(pc, t, Out);
    SameSize(pc1, u, Poisoning(a));
    hide Signallers;
    TwoMove(pc, t, u, a, locks, closer);
  }

  lemma TwoMove(pc: map<Thread, Pc>, t: Thread, u: Thread, a: Addr, locks: map<Addr, int>, closer: map<Addr, Thread>)
    requires LocksOk(locks, pc, closer) && t in pc && u in pc && t != u && pc[t] == Signalling(a)
      && pc[u] == Awaiting(a)
    requires forall b :: b in closer && b != a ==> closer[b] != t && closer[b] != u
    requires a in locks ==> PortOk(a, locks[a], pc[t := Out][u := Poisoning(a)], closer)
    ensures LocksOk(locks, pc[t := Out][u := Poisoning(a)], closer)
  {
    hide LockOk;
    var pc1 := pc[t := Out];
    var pc2 := pc1[u := Poisoning(a)];
    forall b | b in locks && b != a
      ensures PortOk(b, locks[b], pc2, closer)
    {
      assert PortOk(b, locks[b], pc, closer);
      Moved(pc, t, Out, b);
      Moved(pc1, u, Poisoning(a), b);
    }
  }

  lemma PoisonOk(table: map<Handle, Addr>, locks: map<Addr, int>, pc: map<Thread, Pc>, closer: map<Addr, Thread>,
      t: Thread)
    requires Ok(table, locks, pc, closer) && t in pc && pc[t].Poisoning?
    ensures pc[t].port in locks && locks[pc[t].port] == DESTROY
    ensures Ok(table, locks[pc[t].port := POISON], pc[t := Deleting(pc[t].port)], closer)
  {
    var a := pc[t].port;
    assert PortOk(a, locks[a], pc, closer);
    ThreadStays(pc, t, Deleting(a), a, POISON, table, locks, closer);
    assert forall b :: b in closer && b != a ==> closer[b] != t;
    hide TableOk, ThreadsOk;
    Moved(pc, t, Deleting(a), a);
    SameSize(pc, t, Deleting(a));
    hide Holders, Signallers;
    OthersStay(pc, t, Deleting(a), a, locks, locks[a := POISON], closer, closer);
  }

  lemma DeleteOk(table: map<Handle, Addr>, locks: map<Addr, int>, pc: map<Thread, Pc>, closer: map<Addr, Thread>,
      t: Thread)
    requires Ok(table, locks, pc, closer) && t in pc && pc[t].Deleting?
    ensures Ok(table, locks - {pc[t].port}, pc[t := Out], closer - {pc[t].port})
  {
    hide Holders, Signallers, PortOk;
    var a := pc[t].port;
    NobodyElse(table, locks, pc, closer, t);
    ThreadDeletes(pc, t, locks, closer);
    assert forall b :: b in closer && b != a ==> closer[b] != t;
    assert TableOk(table, locks - {a}, closer - {a});
    hide TableOk, ThreadsOk;
    SameSize(pc, t, Out);
    OthersStay(pc, t, Out, a, locks, locks - {a}, closer, closer - {a});
  }

  // When a port is about to be freed, nobody else is in it, waits for it or can find it.
  lemma NobodyElse(table: map<Handle, Addr>, locks: map<Addr, int>, pc: map<Thread, Pc>, closer: map<Addr, Thread>,
      t: Thread)
    requires Ok(table, locks, pc, closer) && t in pc && pc[t].Deleting?
    ensures forall u :: u in pc && u != t && pc[u] != Out ==> pc[u].port != pc[t].port
    ensures forall h :: h in table ==> table[h] != pc[t].port
  {
    var a := pc[t].port;
    assert PortOk(a, locks[a], pc, closer);
    assert Holders(pc, a) == {} && Signallers(pc, a) == {};
    forall u | u in pc && u != t && pc[u] != Out
      ensures pc[u].port != a
    {
      assert u !in Holders(pc, a) && u !in Signallers(pc, a);
    }
  }

  // A thread that waits to destroy a port is woken: somebody is still inside and will leave, or else
  // exactly one thread has left last and is about to release the event.
  lemma Woken(table: map<Handle, Addr>, locks: map<Addr, int>, pc: map<Thread, Pc>, closer: map<Addr, Thread>,
      t: Thread)
    requires Ok(table, locks, pc, closer) && t in pc && pc[t].Awaiting?
    ensures (exists u :: u in pc && pc[u] == Inside(pc[t].port)) !=
      (exists u :: u in pc && pc[u] == Signalling(pc[t].port))
    ensures forall u, v :: u in pc && v in pc && pc[u] == pc[v] == Signalling(pc[t].port) ==> u == v
  {
    hide TableOk;
    var a := pc[t].port;
    assert PortOk(a, locks[a], pc, closer);
    var h, s := Holders(pc, a), Signallers(pc, a);
    if h == {} {
      One(s);
      var u :| u in s;
      assert pc[u] == Signalling(a);
    } else {
      var u :| u in h;
      assert pc[u] == Inside(a);
      assert s == {};
    }
    assert forall u :: u in pc && pc[u] == Signalling(a) ==> u in s;
    assert forall u :: u in pc && pc[u] == Inside(a) ==> u in h;
  }

  // A thread never waits for the event of a port unless the one that closes it awaits that event.
  lemma ReleaseIsAwaited(table: map<Handle, Addr>, locks: map<Addr, int>, pc: map<Thread, Pc>, closer: map<Addr,
      Thread>, t: Thread)
    requires Ok(table, locks, pc, closer) && t in pc && pc[t].Signalling?
    ensures exists u :: u in pc && pc[u] == Awaiting(pc[t].port)
  {
    var a := pc[t].port;
    assert PortOk(a, locks[a], pc, closer);
    SetSize(Signallers(pc, a), t);
  }

  class Epoll {
    var table: map<Handle, Addr>
    // The reference counts of all ports that are allocated.
    var locks: map<Addr, int>
    var pc: map<Thread, Pc>
    // The thread that took a port out of the table.
    ghost var closer: map<Addr, Thread>

    ghost predicate Inv()
      reads this
    {
      Ok(table, locks, pc, closer)
    }

    constructor (threads: set<Thread>)
      requires |threads| < REF_LIMIT
      ensures Inv() && Now() == Start(threads)
    {
      table, locks, closer := map[], map[], map[];
      pc := map t | t in threads :: Out;
      new;
      assert pc.Keys == threads;
    }

    ghost function Now(): State
      reads this
    {
      State(table, locks, pc, closer)
    }

    // epoll_create: the port and its handle are new, and the handle goes into the table.
    method Create(h: Handle, a: Addr)
      requires Inv() && h !in table && a !in locks
      modifies `table, `locks
      ensures Inv() && table == old(table)[h := a] && locks == old(locks)[a := 0]
    {
      NewPort(table, locks, pc, closer, h, a);
      hide Ok, DestroyBits, RefCount;
      table, locks := table[h := a], locks[a := 0];
    }

    // epoll_ctl and epoll_wait: ts_tree_find_and_ref.
    method Enter(t: Thread, h: Handle) returns (found: bool)
      requires Inv() && t in pc && pc[t] == Out
      modifies `locks, `pc
      ensures Inv() && found == (h in table)
      ensures found ==> table[h] in old(locks)
      ensures found ==>
        pc == old(pc)[t := Inside(table[h])] && locks == old(locks)[table[h] := old(locks)[table[h]] + 1]
      ensures !found ==> pc == old(pc) && locks == old(locks)
    {
      hide Ok, DestroyBits, RefCount;
      found := h in table;
      if found {
        EnterOk(table, locks, pc, closer, t, h);
        var a := table[h];
        var state := locks[a] + 1;
        assert DestroyBits(state) == 0;
        locks, pc := locks[a := state], pc[t := Inside(a)];
      }
    }

    // ts_tree_node_unref, when the call is done with the port.
    method Leave(t: Thread)
      requires Inv() && t in pc && pc[t].Inside?
      modifies `locks, `pc
      ensures Inv() && old(pc)[t].port in old(locks)
      ensures var a := old(pc)[t].port;
        locks == old(locks)[a := old(locks)[a] - 1] && pc == old(pc)[t := AfterUnref(old(locks)[a] - 1, a)]
    {
      hide Ok, DestroyBits, RefCount, AfterUnref;
      LeaveOk(table, locks, pc, closer, t);
      var a := pc[t].port;
      var state := locks[a] - 1;
      assert 0 <= DestroyBits(state) <= 1;
      locks, pc := locks[a := state], pc[t := AfterUnref(state, a)];
    }

    // epoll_close: ts_tree_del_and_ref.  From here on nobody finds the port.
    method Close(t: Thread, h: Handle) returns (found: bool)
      requires Inv() && t in pc && pc[t] == Out
      modifies `table, `locks, `pc, `closer
      ensures Inv() && found == (h in old(table)) && h !in table
      ensures found ==> var a := old(table)[h];
        && a in old(locks) && pc == old(pc)[t := Closing(a)] && table == old(table) - {h}
        && locks == old(locks)[a := old(locks)[a] + 1] && closer == old(closer)[a := t]
      ensures !found ==> pc == old(pc) && locks == old(locks) && table == old(table) && closer == old(closer)
    {
      hide Ok, DestroyBits, RefCount;
      found := h in table;
      if found {
        CloseOk(table, locks, pc, closer, t, h);
        var a := table[h];
        var state := locks[a] + 1;
        assert DestroyBits(state) == 0;
        table, locks, pc, closer := table - {h}, locks[a := state], pc[t := Closing(a)], closer[a := t];
      }
    }

    // The first half of reflock_unref_and_destroy: wait exactly if somebody else is inside.
    method Destroy(t: Thread)
      requires Inv() && t in pc && pc[t].Closing?
      modifies `locks, `pc
      ensures Inv() && old(pc)[t].port in old(locks)
      ensures var a := old(pc)[t].port;
        && locks == old(locks)[a := old(locks)[a] + DESTROY - 1]
        && pc == old(pc)[t := if exists u :: u in old(pc) && old(pc)[u] == Inside(a) then Awaiting(a) else Poisoning(a)]
    {
      hide Ok, DestroyBits, RefCount;
      DestroyOk(table, locks, pc, closer, t);
      var a := pc[t].port;
      var state := locks[a] + DESTROY - 1;
      assert DestroyBits(state) == 1;
      var pc1 := if RefCount(state) != 0 then Awaiting(a) else Poisoning(a);
      locks, pc := locks[a := state], pc[t := pc1];
    }

    // The keyed event: the last thread to leave lets the one that closes the port go on.
    method Signal(t: Thread, u: Thread)
      requires Inv() && t in pc && pc[t].Signalling? && u in pc && pc[u] == Awaiting(pc[t].port)
      modifies `pc
      ensures Inv() && pc == old(pc)[t := Out][u := Poisoning(old(pc)[t].port)]
    {
      hide Ok, DestroyBits, RefCount;
      SignalOk(table, locks, pc, closer, t, u);
      pc := pc[t := Out][u := Poisoning(pc[t].port)];
    }

    // The second half of reflock_unref_and_destroy.
    method Poison(t: Thread)
      requires Inv() && t in pc && pc[t].Poisoning?
      modifies `locks, `pc
      ensures Inv() && pc == old(pc)[t := Deleting(old(pc)[t].port)] && locks == old(locks)[old(pc)[t].port := POISON]
    {
      hide Ok, DestroyBits, RefCount;
      PoisonOk(table, locks, pc, closer, t);
      var a := pc[t].port;
      assert locks[a] == DESTROY;
      locks, pc := locks[a := POISON], pc[t := Deleting(a)];
    }

    // port_delete: the memory goes.
    method Delete(t: Thread)
      requires Inv() && t in pc && pc[t].Deleting?
      modifies `locks, `pc, `closer
      ensures Inv() && locks == old(locks) - {old(pc)[t].port} && pc == old(pc)[t := Out]
        && closer == old(closer) - {old(pc)[t].port}
    {
      hide Ok, DestroyBits, RefCount;
      DeleteOk(table, locks, pc, closer, t);
      var a := pc[t].port;
      locks, pc, closer := locks - {a}, pc[t := Out], closer - {a};
    }
  }

  // ---------- whole runs ----------

  datatype State = State(
    table: map<Handle, Addr>,
    locks: map<Addr, int>,
    pc: map<Thread, Pc>,
    closer: map<Addr, Thread>)

  ghost predicate Sound(s: State) { Ok(s.table, s.locks, s.pc, s.closer) }

  function Start(threads: set<Thread>): State { State(map[], map[], map t | t in threads :: Out, map[]) }

  datatype Step =
    | Opening(h: Handle, a: Addr)
    | Entering(t: Thread, h: Handle)
    | Leaving(t: Thread)
    | ClosingHandle(t: Thread, h: Handle)
    | Destroying(t: Thread)
    | Handover(t: Thread, u: Thread)
    | Finishing(t: Thread)
    | Freeing(t: Thread)

  predicate Possible(table: map<Handle, Addr>, locks: map<Addr, int>, pc: map<Thread, Pc>, step: Step) {
    match step
    case Opening(h, a) => h !in table && a !in locks
    case Entering(t, _) => t in pc && pc[t] == Out
    case Leaving(t) => t in pc && pc[t].Inside?
    case ClosingHandle(t, _) => t in pc && pc[t] == Out
    case Destroying(t) => t in pc && pc[t].Closing?
    case Handover(t, u) => t in pc && pc[t].Signalling? && u in pc && pc[u] == Awaiting(pc[t].port)
    case Finishing(t) => t in pc && pc[t].Poisoning?
    case Freeing(t) => t in pc && pc[t].Deleting?
  }

  function Count(locks: map<Addr, int>, a: Addr): int { if a in locks then locks[a] else 0 }

  ghost function After(s: State, step: Step): State
    requires Possible(s.table, s.locks, s.pc, step)
  {
    match step
    case Opening(h, a) => s.(table := s.table[h := a], locks := s.locks[a := 0])
    case Entering(t, h) =>
      if h !in s.table then s
      else
        var a := s.table[h];
        s.(locks := s.locks[a := Count(s.locks, a) + 1], pc := s.pc[t := Inside(a)])
    case Leaving(t) =>
      var a := s.pc[t].port;
      var lock := Count(s.locks, a) - 1;
      s.(locks := s.locks[a := lock], pc := s.pc[t := AfterUnref(lock, a)])
    case ClosingHandle(t, h) =>
      if h !in s.table then s
      else
        var a := s.table[h];
        State(s.table - {h}, s.locks[a := Count(s.locks, a) + 1], s.pc[t := Closing(a)], s.closer[a := t])
    case Destroying(t) =>
      var a := s.pc[t].port;
      var p := if exists u :: u in s.pc && s.pc[u] == Inside(a) then Awaiting(a) else Poisoning(a);
      s.(locks := s.locks[a := Count(s.locks, a) + DESTROY - 1], pc := s.pc[t := p])
    case Handover(t, u) => s.(pc := s.pc[t := Out][u := Poisoning(s.pc[t].port)])
    case Finishing(t) =>
      var a := s.pc[t].port;
      s.(locks := s.locks[a := POISON], pc := s.pc[t := Deleting(a)])
    case Freeing(t) =>
      var a := s.pc[t].port;
      s.(locks := s.locks - {a}, pc := s.pc[t := Out], closer := s.closer - {a})
  }

  method TakeStep(e: Epoll, step: Step)
    requires e.Inv() && Possible(e.table, e.locks, e.pc, step)
    modifies e
    ensures e.Inv() && e.Now() == After(old(e.Now()), step)
  {
    hide Ok, DestroyBits, RefCount, AfterUnref;
    match step {
      case Opening(h, a) => e.Create(h, a);
      case Entering(t, h) => var _ := e.Enter(t, h);
      case Leaving(t) => e.Leave(t);
      case ClosingHandle(t, h) => var _ := e.Close(t, h);
      case Destroying(t) => e.Destroy(t);
      case Handover(t, u) => e.Signal(t, u);
      case Finishing(t) => e.Poison(t);
      case Freeing(t) => e.Delete(t);
    }
  }

  ghost predicate IsRun(ss: seq<State>, steps: seq<Step>, threads: set<Thread>) {
    && |ss| == |steps| + 1 && ss[0] == Start(threads)
    && forall i :: 0 <= i < |steps| ==>
      Possible(ss[i].table, ss[i].locks, ss[i].pc, steps[i]) && ss[i + 1] == After(ss[i], steps[i])
  }

  lemma StepSound(s: State, step: Step)
    requires Sound(s) && Possible(s.table, s.locks, s.pc, step)
    ensures Sound(After(s, step))
  {
    hide Ok, DestroyBits, RefCount, AfterUnref;
    match step {
      case Opening(h, a) => NewPort(s.table, s.locks, s.pc, s.closer, h, a);
      case Entering(t, h) => if h in s.table { EnterOk(s.table, s.locks, s.pc, s.closer, t, h); }
      case Leaving(t) => LeaveOk(s.table, s.locks, s.pc, s.closer, t);
      case ClosingHandle(t, h) => if h in s.table { CloseOk(s.table, s.locks, s.pc, s.closer, t, h); }
      case Destroying(t) => DestroyOk(s.table, s.locks, s.pc, s.closer, t);
      case Handover(t, u) => SignalOk(s.table, s.locks, s.pc, s.closer, t, u);
      case Finishing(t) => PoisonOk(s.table, s.locks, s.pc, s.closer, t);
      case Freeing(t) => DeleteOk(s.table, s.locks, s.pc, s.closer, t);
    }
  }

  // In every state of every run of any number of threads (fewer than 2^28) no thread is concerned with a
  // port that has been freed, and no handle leads to one.
  lemma {:induction false} RunSound(ss: seq<State>, steps: seq<Step>, threads: set<Thread>, i: nat)
    requires IsRun(ss, steps, threads) && |threads| < REF_LIMIT && i < |ss|
    ensures Sound(ss[i])
    ensures forall t :: t in ss[i].pc && ss[i].pc[t] != Out ==> ss[i].pc[t].port in ss[i].locks
    ensures forall h :: h in ss[i].table ==> ss[i].table[h] in ss[i].locks
    decreases i
  {
    if i == 0 {
      StartSound(threads);
    } else {
      RunSound(ss, steps, threads, i - 1);
      hide After, Possible, Ok;
      StepSound(ss[i - 1], steps[i - 1]);
    }
    NothingFreed(ss[i].table, ss[i].locks, ss[i].pc, ss[i].closer);
  }

  lemma StartSound(threads: set<Thread>)
    requires |threads| < REF_LIMIT
    ensures Sound(Start(threads))
  {
    assert Start(threads).pc.Keys == threads;
  }

  lemma NothingFreed(table: map<Handle, Addr>, locks: map<Addr, int>, pc: map<Thread, Pc>, closer: map<Addr, Thread>)
    requires Ok(table, locks, pc, closer)
    ensures forall t :: t in pc && pc[t] != Out ==> pc[t].port in locks
    ensures forall h :: h in table ==> table[h] in locks
  {
    hide LocksOk;
  }

  // The code runs like this: its steps, until one is not possible, lead through such a run.
  method Run(threads: set<Thread>, steps: seq<Step>) returns (e: Epoll, taken: nat, ghost ss: seq<State>)
    requires |threads| < REF_LIMIT
    ensures taken <= |steps| && IsRun(ss, steps[..taken], threads) && e.Now() == ss[taken]
    ensures taken < |steps| ==> !Possible(e.table, e.locks, e.pc, steps[taken])
    ensures forall i :: 0 <= i <= taken ==> Sound(ss[i])
  {
    hide Possible, Ok, AfterUnref;
    e := new Epoll(threads);
    taken, ss := 0, [e.Now()];
    hide After;
    while taken < |steps| && Possible(e.table, e.locks, e.pc, steps[taken])
      invariant taken <= |steps| && e.Inv() && fresh(e)
      invariant IsRun(ss, steps[..taken], threads) && e.Now() == ss[taken]
    {
      TakeStep(e, steps[taken]);
      ss := ss + [e.Now()];
      taken := taken + 1;
    }
    forall i | 0 <= i <= taken
      ensures Sound(ss[i])
    {
      RunSound(ss, steps[..taken], threads, i);
    }
  }
}
