/** The bounded queue of many producers and many consumers, one atomic access at a time.

    A move is one load, compare-and-swap or slot access of one thread; threads interleave in any way.
    `keep` tells two versions of the retry loops apart that publish a pushed ticket and release a
    popped one.  As written (keep == false) a failed compare-and-swap replaces the expected ticket by
    the one it found, so that the retry may publish the ticket of another thread.  In ticket order
    (keep == true), as the comments in the code intend, the thread waits for its own ticket. */
module MpmcRing {
  import opened Collections
  import opened RingIndex
  import opened SlotTraces

  type Thread = nat

  datatype Pc<T> =
    | Idle
    | PushLoad(v: T)
    | PushCheck(v: T, w: nat)
    | PushClaim(v: T, w: nat)
    | PushWrite(v: T, ticket: nat)
    | Publish(ticket: nat, expected: nat)
    | PopLoad
    | PopCheck(r: nat)
    | PopClaim(r: nat)
    | PopHandle(ticket: nat)
    | Release(ticket: nat, expected: nat)

  // `pushed` and `popped` record, by ticket, what was pushed and what its handler was given.
  datatype Ring<T> = Ring(
    n: nat,
    read: nat,
    write: nat,
    maxRead: nat,
    minWrite: nat,
    slots: seq<T>,
    pc: map<Thread, Pc<T>>,
    pushed: seq<T>,
    popped: map<nat, T>)
  {
    function Capacity(): nat { Pow2(n) }
  }

  datatype Move<T> =
    | StartPush(t: Thread, v: T)
    | StartPop(t: Thread)
    | GiveUp(t: Thread)     // the spin count has run out
    | Advance(t: Thread)
    | Spurious(t: Thread)   // a weak compare-and-swap fails without cause

  predicate Enabled<T>(q: Ring<T>, m: Move<T>) {
    && m.t in q.pc
    && match m
       case StartPush(t, _) => q.pc[t].Idle?
       case StartPop(t) => q.pc[t].Idle?
       case GiveUp(t) => q.pc[t].PushLoad? || q.pc[t].PopLoad?
       case Advance(t) => !q.pc[t].Idle?
       case Spurious(t) => q.pc[t].PushClaim? || q.pc[t].Publish? || q.pc[t].PopClaim? || q.pc[t].Release?
  }

  function Goto<T>(q: Ring<T>, t: Thread, p: Pc<T>): Ring<T> { q.(pc := q.pc[t := p]) }

  function Claim<T>(q: Ring<T>, t: Thread, v: T): Ring<T> {
    Goto(q, t, PushWrite(v, q.write)).(write := q.write + 1, pushed := q.pushed + [v])
  }

  function Write<T>(q: Ring<T>, t: Thread, v: T, k: nat): Ring<T> {
    var i := Slot(k, q.n);
    Goto(q, t, Publish(k, k)).(slots := if i < |q.slots| then q.slots[i := v] else q.slots)
  }

  function Published<T>(q: Ring<T>, t: Thread): Ring<T> { Goto(q, t, Idle).(maxRead := q.maxRead + 1) }

  function Take<T>(q: Ring<T>, t: Thread): Ring<T> { Goto(q, t, PopHandle(q.read)).(read := q.read + 1) }

  function Handle<T>(q: Ring<T>, t: Thread, k: nat): Ring<T> {
    var i := Slot(k, q.n);
    Goto(q, t, Release(k, k)).(popped := if i < |q.slots| then q.popped[k := q.slots[i]] else q.popped)
  }

  function Released<T>(q: Ring<T>, t: Thread): Ring<T> { Goto(q, t, Idle).(minWrite := q.minWrite + 1) }

  // The differences are of unsigned numbers: a stale index below the other one gives a huge value.
  predicate Less(high: nat, low: nat, capacity: nat) { 0 <= high - low < capacity }

  function Advanced<T>(q: Ring<T>, t: Thread, keep: bool): Ring<T>
    requires t in q.pc
  {
    match q.pc[t]
    case Idle => q
    case PushLoad(v) => Goto(q, t, PushCheck(v, q.write))
    case PushCheck(v, w) => Goto(q, t, if Less(w, q.minWrite, q.Capacity()) then PushClaim(v, w) else PushLoad(v))
    case PushClaim(v, w) => if q.write == w then Claim(q, t, v) else Goto(q, t, PushLoad(v))
    case PushWrite(v, k) => Write(q, t, v, k)
    case Publish(k, e) =>
      if q.maxRead == e then Published(q, t) else Goto(q, t, Publish(k, if keep then k else q.maxRead))
    case PopLoad => Goto(q, t, PopCheck(q.read))
    case PopCheck(r) => Goto(q, t, if q.maxRead > r then PopClaim(r) else Idle)
    case PopClaim(r) => if q.read == r then Take(q, t) else Goto(q, t, PopLoad)
    case PopHandle(k) => Handle(q, t, k)
    case Release(k, e) =>
      if q.minWrite == e then Released(q, t) else Goto(q, t, Release(k, if keep then k else q.minWrite))
  }

  function Failed<T>(q: Ring<T>, t: Thread, keep: bool): Ring<T>
    requires t in q.pc
  {
    match q.pc[t]
    case PushClaim(v, _) => Goto(q, t, PushLoad(v))
    case Publish(k, _) => Goto(q, t, Publish(k, if keep then k else q.maxRead))
    case PopClaim(_) => Goto(q, t, PopLoad)
    case Release(k, _) => Goto(q, t, Release(k, if keep then k else q.minWrite))
    case _ => q
  }

  function Next<T>(q: Ring<T>, m: Move<T>, keep: bool): Ring<T>
    requires Enabled(q, m)
  {
    match m
    case StartPush(t, v) => Goto(q, t, PushLoad(v))
    case StartPop(t) => Goto(q, t, PopLoad)
    case GiveUp(t) => Goto(q, t, Idle)
    case Advance(t) => Advanced(q, t, keep)
    case Spurious(t) => Failed(q, t, keep)
  }

  // ---------- counting ----------

  predicate Pushing<T>(p: Pc<T>) { p.PushWrite? || p.Publish? }

  predicate Popping<T>(p: Pc<T>) { p.PopHandle? || p.Release? }

  ghost function Pushers<T>(pc: map<Thread, Pc<T>>): set<Thread> { set t | t in pc && Pushing(pc[t]) }

  ghost function Poppers<T>(pc: map<Thread, Pc<T>>): set<Thread> { set t | t in pc && Popping(pc[t]) }

  ghost predicate Counts<T>(q: Ring<T>) {
    && |q.slots| == q.Capacity() && |q.pushed| == q.write
    && q.maxRead + |Pushers(q.pc)| == q.write
    && q.minWrite + |Poppers(q.pc)| == q.read
    && q.minWrite <= q.read <= q.maxRead <= q.write <= q.minWrite + q.Capacity()
  }

  // What a thread knows of the indices.
  ghost predicate PcOk<T>(p: Pc<T>, q: Ring<T>) {
    match p
    case PushCheck(_, w) => w <= q.write
    case PushClaim(_, w) => w < q.minWrite + q.Capacity()
    case PushWrite(v, k) => k < q.write && k < |q.pushed| && q.pushed[k] == v
    case Publish(k, _) => k < q.write
    case PopCheck(r) => r <= q.read
    case PopClaim(r) => r < q.maxRead
    case PopHandle(k) => k < q.read && k !in q.popped
    case Release(k, _) => k < q.read
    case _ => true
  }

  ghost predicate PcsOk<T>(q: Ring<T>) {
    && (forall t :: t in q.pc ==> PcOk(q.pc[t], q))
    && (forall k :: k in q.popped ==> k < q.read)
  }

  // No ticket is held by two threads of one side.
  predicate Differ<T>(p: Pc<T>, o: Pc<T>) {
    && (Pushing(p) && Pushing(o) ==> p.ticket != o.ticket)
    && (Popping(p) && Popping(o) ==> p.ticket != o.ticket)
  }

  ghost predicate Unique<T>(pc: map<Thread, Pc<T>>) {
    forall t, u :: t in pc && u in pc && t != u ==> Differ(pc[t], pc[u])
  }

  ghost predicate Counted<T>(q: Ring<T>) { Counts(q) && PcsOk(q) && Unique(q.pc) }

  lemma MoveCounts<T>(pc: map<Thread, Pc<T>>, t: Thread, p: Pc<T>)
    requires t in pc
    ensures |Pushers(pc[t := p])| == |Pushers(pc)| - (if Pushing(pc[t]) then 1 else 0) + (if Pushing(p) then 1 else 0)
    ensures |Poppers(pc[t := p])| == |Poppers(pc)| - (if Popping(pc[t]) then 1 else 0) + (if Popping(p) then 1 else 0)
  {
    MovePushers(pc, t, p);
    MovePoppers(pc, t, p);
  }

  lemma MovePushers<T>(pc: map<Thread, Pc<T>>, t: Thread, p: Pc<T>)
    requires t in pc
    ensures |Pushers(pc[t := p])| == |Pushers(pc)| - (if Pushing(pc[t]) then 1 else 0) + (if Pushing(p) then 1 else 0)
  {
    hide Pushing;
    var s, s1 := Pushers(pc), Pushers(pc[t := p]);
    assert forall u :: u in s1 - {t} <==> u in s - {t};
    assert s1 - {t} == s - {t};
    SetSize(s, t);
    SetSize(s1, t);
  }

  lemma MovePoppers<T>(pc: map<Thread, Pc<T>>, t: Thread, p: Pc<T>)
    requires t in pc
    ensures |Poppers(pc[t := p])| == |Poppers(pc)| - (if Popping(pc[t]) then 1 else 0) + (if Popping(p) then 1 else 0)
  {
    hide Popping;
    var s, s1 := Poppers(pc), Poppers(pc[t := p]);
    assert forall u :: u in s1 - {t} <==> u in s - {t};
    assert s1 - {t} == s - {t};
    SetSize(s, t);
    SetSize(s1, t);
  }

  // A thread moves on and keeps its ticket, or has none.
  lemma MoveUnique<T>(pc: map<Thread, Pc<T>>, t: Thread, p: Pc<T>)
    requires Unique(pc) && t in pc
    requires forall u :: u in pc && u != t ==> Differ(p, pc[u])
    ensures Unique(pc[t := p])
  {
    hide Pushing, Popping;
    assert forall x: Pc<T>, y: Pc<T> :: Differ(x, y) == Differ(y, x);
  }

  lemma SameTicket<T>(pc: map<Thread, Pc<T>>, t: Thread, p: Pc<T>)
    requires Unique(pc) && t in pc
    requires Pushing(p) ==> Pushing(pc[t]) && p.ticket == pc[t].ticket
    requires Popping(p) ==> Popping(pc[t]) && p.ticket == pc[t].ticket
    ensures Unique(pc[t := p])
  {
    hide Pushing, Popping;
    forall u | u in pc && u != t
      ensures Differ(p, pc[u])
    {
      assert Differ(pc[t], pc[u]);
    }
    MoveUnique(pc, t, p);
  }

  // Indices only grow and no thread's knowledge is lost, save that of the thread that moves.
  lemma MovePcs<T>(q: Ring<T>, q1: Ring<T>, t: Thread, p: Pc<T>)
    requires PcsOk(q) && t in q.pc && q1.pc == q.pc[t := p] && q1.n == q.n
    requires q.read <= q1.read && q.write <= q1.write && q.maxRead <= q1.maxRead && q.minWrite <= q1.minWrite
    requires q.pushed <= q1.pushed
    requires forall k :: k in q1.popped ==> k < q1.read && (k in q.popped || (Popping(q.pc[t]) && k == q.pc[t].ticket))
    requires Unique(q.pc) && PcOk(p, q1)
    ensures PcsOk(q1)
  {
    hide Unique;
    forall u | u in q1.pc && u != t
      ensures PcOk(q1.pc[u], q1)
    {
      assert PcOk(q.pc[u], q);
      assert Differ(q.pc[t], q.pc[u]) by { UniqueAt(q.pc, t, u); }
    }
  }

  lemma UniqueAt<T>(pc: map<Thread, Pc<T>>, t: Thread, u: Thread)
    requires Unique(pc) && t in pc && u in pc && t != u
    ensures Differ(pc[t], pc[u])
  {
  }

  // ---------- every move keeps the counts, in both versions ----------

  lemma GotoCounted<T>(q: Ring<T>, t: Thread, p: Pc<T>)
    requires Counted(q) && t in q.pc && PcOk(p, q)
    requires (Pushing(p) <==> Pushing(q.pc[t])) && (Popping(p) <==> Popping(q.pc[t]))
    requires Pushing(p) || Popping(p) ==> p.ticket == q.pc[t].ticket
    ensures Counted(Goto(q, t, p))
  {
    hide Unique, Pushing, Popping;
    MoveCounts(q.pc, t, p);
    SameTicket(q.pc, t, p);
    MovePcs(q, Goto(q, t, p), t, p);
  }

  lemma ClaimCounted<T>(q: Ring<T>, t: Thread, v: T)
    requires Counted(q) && t in q.pc && q.pc[t] == PushClaim(v, q.write)
    ensures Counted(Claim(q, t, v))
  {
    var p, q1 := PushWrite(v, q.write), Claim(q, t, v);
    assert PcOk(q.pc[t], q);
    MoveCounts(q.pc, t, p);
    forall u | u in q.pc && u != t
      ensures Differ(p, q.pc[u])
    {
      assert PcOk(q.pc[u], q);
    }
    MoveUnique(q.pc, t, p);
    hide Pushers, Poppers, Unique;
    MovePcs(q, q1, t, p);
  }

  lemma WriteCounted<T>(q: Ring<T>, t: Thread, v: T, k: nat)
    requires Counted(q) && t in q.pc && q.pc[t] == PushWrite(v, k)
    ensures Counted(Write(q, t, v, k))
  {
    var p, q1 := Publish(k, k), Write(q, t, v, k);
    assert PcOk(q.pc[t], q);
    MoveCounts(q.pc, t, p);
    SameTicket(q.pc, t, p);
    hide Pushers, Poppers, Unique;
    MovePcs(q, q1, t, p);
  }

  lemma PublishedCounted<T>(q: Ring<T>, t: Thread)
    requires Counted(q) && t in q.pc && q.pc[t].Publish?
    ensures Counted(Published(q, t))
  {
    MoveCounts(q.pc, t, Idle);
    SameTicket(q.pc, t, Idle);
    hide Pushers, Poppers, Unique;
    MovePcs(q, Published(q, t), t, Idle);
  }

  lemma TakeCounted<T>(q: Ring<T>, t: Thread)
    requires Counted(q) && t in q.pc && q.pc[t] == PopClaim(q.read)
    ensures Counted(Take(q, t))
  {
    var p, q1 := PopHandle(q.read), Take(q, t);
    assert PcOk(q.pc[t], q);
    MoveCounts(q.pc, t, p);
    forall u | u in q.pc && u != t
      ensures Differ(p, q.pc[u])
    {
      assert PcOk(q.pc[u], q);
    }
    MoveUnique(q.pc, t, p);
    hide Pushers, Poppers, Unique;
    MovePcs(q, q1, t, p);
  }

  lemma HandleCounted<T>(q: Ring<T>, t: Thread, k: nat)
    requires Counted(q) && t in q.pc && q.pc[t] == PopHandle(k)
    ensures Counted(Handle(q, t, k))
  {
    var p, q1 := Release(k, k), Handle(q, t, k);
    assert PcOk(q.pc[t], q);
    MoveCounts(q.pc, t, p);
    SameTicket(q.pc, t, p);
    hide Pushers, Poppers, Unique;
    MovePcs(q, q1, t, p);
  }

  lemma ReleasedCounted<T>(q: Ring<T>, t: Thread)
    requires Counted(q) && t in q.pc && q.pc[t].Release?
    ensures Counted(Released(q, t))
  {
    MoveCounts(q.pc, t, Idle);
    SameTicket(q.pc, t, Idle);
    hide Pushers, Poppers, Unique;
    MovePcs(q, Released(q, t), t, Idle);
  }

  lemma AdvancedCounted<T>(q: Ring<T>, t: Thread, keep: bool)
    requires Counted(q) && t in q.pc
    ensures Counted(Advanced(q, t, keep))
  {
    assert PcOk(q.pc[t], q);
    hide Counts, PcsOk, Unique;
    match q.pc[t]
    case Idle =>
    case PushLoad(v) => GotoCounted(q, t, PushCheck(v, q.write));
    case PushCheck(v, w) =>
      GotoCounted(q, t, if Less(w, q.minWrite, q.Capacity()) then PushClaim(v, w) else PushLoad(v));
    case PushClaim(v, w) => if q.write == w { ClaimCounted(q, t, v); } else { GotoCounted(q, t, PushLoad(v)); }
    case PushWrite(v, k) => WriteCounted(q, t, v, k);
    case Publish(k, e) =>
      if q.maxRead == e {
        PublishedCounted(q, t);
      } else {
        GotoCounted(q, t, Publish(k, if keep then k else q.maxRead));
      }
    case PopLoad => GotoCounted(q, t, PopCheck(q.read));
    case PopCheck(r) => GotoCounted(q, t, if q.maxRead > r then PopClaim(r) else Idle);
    case PopClaim(r) => if q.read == r { TakeCounted(q, t); } else { GotoCounted(q, t, PopLoad); }
    case PopHandle(k) => HandleCounted(q, t, k);
    case Release(k, e) =>
      if q.minWrite == e {
        ReleasedCounted(q, t);
      } else {
        GotoCounted(q, t, Release(k, if keep then k else q.minWrite));
      }
  }

  lemma NextCounted<T>(q: Ring<T>, m: Move<T>, keep: bool)
    requires Counted(q) && Enabled(q, m)
    ensures Counted(Next(q, m, keep))
  {
    hide Counts, Unique, Advanced;
    assert PcOk(q.pc[m.t], q);
    hide PcsOk;
    match m
    case StartPush(t, v) => GotoCounted(q, t, PushLoad(v));
    case StartPop(t) => GotoCounted(q, t, PopLoad);
    case GiveUp(t) => GotoCounted(q, t, Idle);
    case Advance(t) => AdvancedCounted(q, t, keep);
    case Spurious(t) =>
      match q.pc[t] {
        case PushClaim(v, _) => GotoCounted(q, t, PushLoad(v));
        case Publish(k, _) => GotoCounted(q, t, Publish(k, if keep then k else q.maxRead));
        case PopClaim(_) => GotoCounted(q, t, PopLoad);
        case Release(k, _) => GotoCounted(q, t, Release(k, if keep then k else q.minWrite));
      }
  }

  // ---------- values ----------

  // The ticket's event has not been copied into its slot yet.
  ghost predicate Unwritten<T>(pc: map<Thread, Pc<T>>, k: nat) {
    exists t :: t in pc && pc[t].PushWrite? && pc[t].ticket == k
  }

  // A handler may still be looking at the ticket's slot.
  ghost predicate Handling<T>(pc: map<Thread, Pc<T>>, k: nat) {
    exists t :: t in pc && pc[t].PopHandle? && pc[t].ticket == k
  }

  // Only tickets whose event is in place are published, only tickets whose handler is done are released.
  ghost predicate InPlace<T>(q: Ring<T>) {
    && (forall k: nat :: k < q.maxRead ==> !Unwritten(q.pc, k))
    && (forall k: nat :: k < q.minWrite ==> !Handling(q.pc, k))
  }

  ghost predicate SlotHas<T>(q: Ring<T>, k: nat) {
    k < |q.pushed| && Slot(k, q.n) < |q.slots| && q.slots[Slot(k, q.n)] == q.pushed[k]
  }

  // Every ticket that is not free again and whose event has been copied has it in its slot.
  ghost predicate Values<T>(q: Ring<T>) {
    && (forall k: nat :: q.minWrite <= k < q.write && !Unwritten(q.pc, k) ==> SlotHas(q, k))
    && Delivered(q)
  }

  // Every handler was given what was pushed under its ticket.
  ghost predicate Delivered<T>(q: Ring<T>) { AllRight(q.pushed, q.popped) }

  ghost predicate Safe<T>(q: Ring<T>) { Counted(q) && InPlace(q) && Values(q) }

  // A move that publishes or releases the ticket its thread expects does so only when that ticket is ready.
  ghost predicate Careful<T>(q: Ring<T>, m: Move<T>)
    requires Enabled(q, m)
  {
    m.Advance? ==>
      && (q.pc[m.t].Publish? && q.pc[m.t].expected == q.maxRead ==> !Unwritten(q.pc, q.maxRead))
      && (q.pc[m.t].Release? && q.pc[m.t].expected == q.minWrite ==> !Handling(q.pc, q.minWrite))
  }

  // A move of the program counter alone that neither starts nor ends a copy or a handler.
  lemma GotoSafe<T>(q: Ring<T>, t: Thread, p: Pc<T>)
    requires InPlace(q) && Values(q) && t in q.pc
    requires !q.pc[t].PushWrite? && !p.PushWrite? && !q.pc[t].PopHandle? && !p.PopHandle?
    ensures InPlace(Goto(q, t, p)) && Values(Goto(q, t, p))
  {
    var q1 := Goto(q, t, p);
    SameSets(q.pc, t, p, q1.pc);
    hide Unwritten, Handling;
    assert forall k: nat :: SlotHas(q1, k) == SlotHas(q, k);
  }

  lemma SameSets<T>(pc: map<Thread, Pc<T>>, t: Thread, p: Pc<T>, pc1: map<Thread, Pc<T>>)
    requires t in pc && !pc[t].PushWrite? && !p.PushWrite? && !pc[t].PopHandle? && !p.PopHandle? && pc1 == pc[t := p]
    ensures forall k: nat :: Unwritten(pc1, k) == Unwritten(pc, k)
    ensures forall k: nat :: Handling(pc1, k) == Handling(pc, k)
  {
    forall k: nat
      ensures Unwritten(pc1, k) == Unwritten(pc, k) && Handling(pc1, k) == Handling(pc, k)
    {
      UnwrittenMoves(pc, t, p, k);
      HandlingMoves(pc, t, p, k);
    }
  }

  lemma UnwrittenMoves<T>(pc: map<Thread, Pc<T>>, t: Thread, p: Pc<T>, k: nat)
    requires t in pc
    ensures Unwritten(pc[t := p], k) ==> Unwritten(pc, k) || (p.PushWrite? && p.ticket == k)
    ensures Unwritten(pc, k) ==> Unwritten(pc[t := p], k) || (pc[t].PushWrite? && pc[t].ticket == k)
    ensures p.PushWrite? && p.ticket == k ==> Unwritten(pc[t := p], k)
  {
    var pc1 := pc[t := p];
    if u :| u in pc && pc[u].PushWrite? && pc[u].ticket == k {
      assert u != t ==> pc1[u] == pc[u];
    }
    if u :| u in pc1 && pc1[u].PushWrite? && pc1[u].ticket == k {
      assert u != t ==> pc1[u] == pc[u];
    }
    assert t in pc1 && pc1[t] == p;
  }

  lemma HandlingMoves<T>(pc: map<Thread, Pc<T>>, t: Thread, p: Pc<T>, k: nat)
    requires t in pc
    ensures Handling(pc[t := p], k) ==> Handling(pc, k) || (p.PopHandle? && p.ticket == k)
    ensures Handling(pc, k) ==> Handling(pc[t := p], k) || (pc[t].PopHandle? && pc[t].ticket == k)
    ensures p.PopHandle? && p.ticket == k ==> Handling(pc[t := p], k)
  {
    var pc1 := pc[t := p];
    if u :| u in pc && pc[u].PopHandle? && pc[u].ticket == k {
      assert u != t ==> pc1[u] == pc[u];
    }
    if u :| u in pc1 && pc1[u].PopHandle? && pc1[u].ticket == k {
      assert u != t ==> pc1[u] == pc[u];
    }
    assert t in pc1 && pc1[t] == p;
  }

  lemma ClaimSafe<T>(q: Ring<T>, t: Thread, v: T)
    requires Safe(q) && t in q.pc && q.pc[t].PushClaim?
    ensures InPlace(Claim(q, t, v)) && Values(Claim(q, t, v))
  {
    var p, q1 := PushWrite(v, q.write), Claim(q, t, v);
    assert q1.pushed[..q.write] == q.pushed;
    hide PcsOk, Unique, Unwritten, Handling;
    forall k: nat
      ensures (Unwritten(q1.pc, k) <==> Unwritten(q.pc, k) || k == q.write) && Handling(q1.pc, k) == Handling(q.pc, k)
      ensures k < q.write ==> SlotHas(q1, k) == SlotHas(q, k)
    {
      UnwrittenMoves(q.pc, t, p, k);
      HandlingMoves(q.pc, t, p, k);
    }
  }

  // The slot of a claimed ticket holds no other live event.
  lemma WriteSafe<T>(q: Ring<T>, t: Thread, v: T, k: nat)
    requires Safe(q) && t in q.pc && q.pc[t] == PushWrite(v, k)
    ensures InPlace(Write(q, t, v, k)) && Values(Write(q, t, v, k))
  {
    var p, q1 := Publish(k, k), Write(q, t, v, k);
    assert PcOk(q.pc[t], q);
    SlotInBounds(k, q.n);
    UnwrittenMoves(q.pc, t, p, k);
    hide PcsOk, Unique, Pushers, Poppers, Unwritten, Handling;
    assert Unwritten(q.pc, k) by { UnwrittenHere(q.pc, t); }
    forall j: nat | j != k && q.minWrite <= j < q.write && SlotHas(q, j)
      ensures SlotHas(q1, j)
    {
      if j < k { SlotInjective(j, k, q.n); } else { SlotInjective(k, j, q.n); }
    }
    forall j: nat
      ensures Unwritten(q1.pc, j) ==> Unwritten(q.pc, j)
      ensures Unwritten(q.pc, j) ==> Unwritten(q1.pc, j) || j == k
      ensures Handling(q1.pc, j) == Handling(q.pc, j)
    {
      UnwrittenMoves(q.pc, t, p, j);
      HandlingMoves(q.pc, t, p, j);
    }
  }

  lemma UnwrittenHere<T>(pc: map<Thread, Pc<T>>, t: Thread)
    requires t in pc && pc[t].PushWrite?
    ensures Unwritten(pc, pc[t].ticket)
  {
  }

  lemma HandlingHere<T>(pc: map<Thread, Pc<T>>, t: Thread)
    requires t in pc && pc[t].PopHandle?
    ensures Handling(pc, pc[t].ticket)
  {
  }

  lemma PublishedSafe<T>(q: Ring<T>, t: Thread)
    requires InPlace(q) && Values(q) && t in q.pc && q.pc[t].Publish?
    ensures Values(Published(q, t))
    ensures InPlace(Published(q, t)) <==> !Unwritten(q.pc, q.maxRead)
  {
    var q1 := Published(q, t);
    SameSets(q.pc, t, Idle, q1.pc);
    hide Unwritten, Handling;
    assert forall k: nat :: SlotHas(q1, k) == SlotHas(q, k);
    assert q.maxRead < q1.maxRead;
  }

  lemma TakeSafe<T>(q: Ring<T>, t: Thread)
    requires Safe(q) && t in q.pc && q.pc[t].PopClaim?
    ensures InPlace(Take(q, t)) && Values(Take(q, t))
  {
    var p, q1 := PopHandle(q.read), Take(q, t);
    hide PcsOk, Unique, Unwritten, Handling, Pushers, Poppers;
    forall k: nat
      ensures Unwritten(q1.pc, k) == Unwritten(q.pc, k)
      ensures Handling(q1.pc, k) ==> Handling(q.pc, k) || k == q.read
      ensures SlotHas(q1, k) == SlotHas(q, k)
    {
      UnwrittenMoves(q.pc, t, p, k);
      HandlingMoves(q.pc, t, p, k);
    }
  }

  lemma HandleSafe<T>(q: Ring<T>, t: Thread, k: nat)
    requires Safe(q) && t in q.pc && q.pc[t] == PopHandle(k)
    ensures InPlace(Handle(q, t, k)) && Values(Handle(q, t, k))
  {
    var p, q1 := Release(k, k), Handle(q, t, k);
    assert PcOk(q.pc[t], q);
    HandlingHere(q.pc, t);
    hide PcsOk, Unique, Unwritten, Handling, Pushers, Poppers;
    assert SlotHas(q, k);
    forall j: nat
      ensures Unwritten(q1.pc, j) == Unwritten(q.pc, j)
      ensures Handling(q1.pc, j) ==> Handling(q.pc, j)
      ensures SlotHas(q1, j) == SlotHas(q, j)
    {
      UnwrittenMoves(q.pc, t, p, j);
      HandlingMoves(q.pc, t, p, j);
    }
  }

  lemma ReleasedSafe<T>(q: Ring<T>, t: Thread)
    requires InPlace(q) && Values(q) && t in q.pc && q.pc[t].Release?
    ensures Values(Released(q, t))
    ensures InPlace(Released(q, t)) <==> !Handling(q.pc, q.minWrite)
  {
    var q1 := Released(q, t);
    SameSets(q.pc, t, Idle, q1.pc);
    hide Unwritten, Handling;
    assert forall k: nat :: SlotHas(q1, k) == SlotHas(q, k);
    assert q.minWrite < q1.minWrite;
  }

  // From a safe state a move leads to a safe state exactly if it is careful, whichever version runs.
  lemma SafeIffCareful<T>(q: Ring<T>, m: Move<T>, keep: bool)
    requires Safe(q) && Enabled(q, m)
    ensures Safe(Next(q, m, keep)) <==> Careful(q, m)
    ensures Values(Next(q, m, keep))
  {
    NextCounted(q, m, keep);
    hide Counted, InPlace, Values, Unwritten, Handling;
    match m
    case StartPush(t, v) => GotoSafe(q, t, PushLoad(v));
    case StartPop(t) => GotoSafe(q, t, PopLoad);
    case GiveUp(t) => GotoSafe(q, t, Idle);
    case Advance(t) => AdvanceSafe(q, t, keep);
    case Spurious(t) =>
      match q.pc[t] {
        case PushClaim(v, _) => GotoSafe(q, t, PushLoad(v));
        case Publish(k, _) => GotoSafe(q, t, Publish(k, if keep then k else q.maxRead));
        case PopClaim(_) => GotoSafe(q, t, PopLoad);
        case Release(k, _) => GotoSafe(q, t, Release(k, if keep then k else q.minWrite));
      }
  }

  lemma AdvanceSafe<T>(q: Ring<T>, t: Thread, keep: bool)
    requires Safe(q) && t in q.pc && !q.pc[t].Idle?
    ensures var q1 := Advanced(q, t, keep); Values(q1) && (InPlace(q1) <==> Careful(q, Advance(t)))
  {
    hide Counted, InPlace, Values, Unwritten, Handling;
    match q.pc[t]
    case PushClaim(v, w) => if q.write == w { ClaimSafe(q, t, v); } else { GotoSafe(q, t, PushLoad(v)); }
    case PushWrite(v, k) => WriteSafe(q, t, v, k);
    case Publish(k, e) =>
      if q.maxRead == e {
        PublishedSafe(q, t);
      } else {
        GotoSafe(q, t, Publish(k, if keep then k else q.maxRead));
      }
    case PopClaim(r) => if q.read == r { TakeSafe(q, t); } else { GotoSafe(q, t, PopLoad); }
    case PopHandle(k) => HandleSafe(q, t, k);
    case Release(k, e) =>
      if q.minWrite == e {
        ReleasedSafe(q, t);
      } else {
        GotoSafe(q, t, Release(k, if keep then k else q.minWrite));
      }
    case PushLoad(v) => GotoSafe(q, t, PushCheck(v, q.write));
    case PushCheck(v, w) => GotoSafe(q, t, if Less(w, q.minWrite, q.Capacity()) then PushClaim(v, w) else PushLoad(v));
    case PopLoad => GotoSafe(q, t, PopCheck(q.read));
    case PopCheck(r) => GotoSafe(q, t, if q.maxRead > r then PopClaim(r) else Idle);
  }

  // ---------- ticket order ----------

  // In ticket order every thread expects the ticket it holds.
  ghost predicate Own<T>(q: Ring<T>) {
    forall t :: t in q.pc && (q.pc[t].Publish? || q.pc[t].Release?) ==> q.pc[t].expected == q.pc[t].ticket
  }

  lemma OwnKept<T>(q: Ring<T>, m: Move<T>)
    requires Own(q) && Enabled(q, m)
    ensures Own(Next(q, m, true))
  {
  }

  // A ticket's event is in place once its producer comes to publish it.
  lemma OwnIsWritten<T>(pc: map<Thread, Pc<T>>, t: Thread)
    requires Unique(pc) && t in pc && pc[t].Publish?
    ensures !Unwritten(pc, pc[t].ticket)
  {
    forall u | u in pc && pc[u].PushWrite?
      ensures pc[u].ticket != pc[t].ticket
    {
      assert Differ(pc[t], pc[u]);
    }
  }

  lemma OwnIsHandled<T>(pc: map<Thread, Pc<T>>, t: Thread)
    requires Unique(pc) && t in pc && pc[t].Release?
    ensures !Handling(pc, pc[t].ticket)
  {
    forall u | u in pc && pc[u].PopHandle?
      ensures pc[u].ticket != pc[t].ticket
    {
      assert Differ(pc[t], pc[u]);
    }
  }

  lemma OwnIsCareful<T>(q: Ring<T>, m: Move<T>)
    requires Counted(q) && Own(q) && Enabled(q, m)
    ensures Careful(q, m)
  {
    hide Counts, PcsOk, Unwritten, Handling, Unique;
    if q.pc[m.t].Publish? {
      OwnIsWritten(q.pc, m.t);
    } else if q.pc[m.t].Release? {
      OwnIsHandled(q.pc, m.t);
    }
  }

  // ---------- whole runs ----------

  function Start<T>(n: nat, slots: seq<T>, threads: set<Thread>): Ring<T> {
    Ring(n, 0, 0, 0, 0, slots, map t | t in threads :: Idle, [], map[])
  }

  lemma StartSafe<T>(n: nat, slots: seq<T>, threads: set<Thread>)
    requires |slots| == Pow2(n)
    ensures Safe(Start(n, slots, threads)) && Own(Start(n, slots, threads))
  {
    var q := Start(n, slots, threads);
    assert Pushers(q.pc) == {} && Poppers(q.pc) == {};
  }

  ghost predicate IsRun<T>(qs: seq<Ring<T>>, ms: seq<Move<T>>, keep: bool) {
    && |qs| == |ms| + 1
    && (exists threads :: qs[0] == Start(qs[0].n, qs[0].slots, threads)) && |qs[0].slots| == Pow2(qs[0].n)
    && forall i :: 0 <= i < |ms| ==> Enabled(qs[i], ms[i]) && qs[i + 1] == Next(qs[i], ms[i], keep)
  }

  // For any number of threads and any interleaving, in both versions.
  lemma {:induction false} RunCounted<T>(qs: seq<Ring<T>>, ms: seq<Move<T>>, keep: bool, i: nat)
    requires IsRun(qs, ms, keep) && i < |qs|
    ensures Counted(qs[i])
    decreases i
  {
    hide Counted;
    if i == 0 {
      var threads :| qs[0] == Start(qs[0].n, qs[0].slots, threads);
      StartSafe(qs[0].n, qs[0].slots, threads);
    } else {
      RunCounted(qs, ms, keep, i - 1);
      NextCounted(qs[i - 1], ms[i - 1], keep);
    }
  }

  // In ticket order every run is safe.
  lemma {:induction false} OrderedRunSafe<T>(qs: seq<Ring<T>>, ms: seq<Move<T>>, i: nat)
    requires IsRun(qs, ms, true) && i < |qs|
    ensures Safe(qs[i]) && Own(qs[i])
    decreases i
  {
    hide Counted, InPlace, Values, Own;
    if i == 0 {
      var threads :| qs[0] == Start(qs[0].n, qs[0].slots, threads);
      StartSafe(qs[0].n, qs[0].slots, threads);
    } else {
      OrderedRunSafe(qs, ms, i - 1);
      OwnIsCareful(qs[i - 1], ms[i - 1]);
      OwnKept(qs[i - 1], ms[i - 1]);
      SafeIffCareful(qs[i - 1], ms[i - 1], true);
    }
  }

  // As written, a run is safe throughout exactly if all its moves are careful.
  lemma {:induction false} RunSafeIffCareful<T>(qs: seq<Ring<T>>, ms: seq<Move<T>>, keep: bool, n: nat)
    requires IsRun(qs, ms, keep) && n < |qs|
    ensures (forall i :: 0 <= i <= n ==> Safe(qs[i])) <==> (forall i :: 0 <= i < n ==> Careful(qs[i], ms[i]))
    decreases n
  {
    hide Safe, Careful;
    if n == 0 {
      var threads :| qs[0] == Start(qs[0].n, qs[0].slots, threads);
      StartSafe(qs[0].n, qs[0].slots, threads);
    } else {
      RunSafeIffCareful(qs, ms, keep, n - 1);
      assert qs[n] == Next(qs[n - 1], ms[n - 1], keep);
      if Safe(qs[n - 1]) {
        SafeIffCareful(qs[n - 1], ms[n - 1], keep);
        assert Safe(qs[n]) <==> Careful(qs[n - 1], ms[n - 1]);
      }
      assert (forall i :: 0 <= i <= n ==> Safe(qs[i])) <==>
        (forall i :: 0 <= i <= n - 1 ==> Safe(qs[i])) && Safe(qs[n]);
    }
  }

  // What a consumer is given in a safe state is what was pushed under its ticket.
  lemma DeliveredIsPushed<T>(q: Ring<T>, k: nat)
    requires Safe(q) && k in q.popped
    ensures k < q.read <= |q.pushed| && q.popped[k] == q.pushed[k]
  {
    hide InPlace, Unique;
    assert Counts(q) && PcsOk(q);
  }

  // No slot that somebody may still look at is written: a producer copies into a slot
  // whose last event has been handled and released.
  lemma NoLiveSlotOverwritten<T>(q: Ring<T>, t: Thread, u: Thread)
    requires Safe(q) && t in q.pc && u in q.pc && q.pc[t].PushWrite? && q.pc[u].PopHandle?
    ensures Slot(q.pc[t].ticket, q.n) != Slot(q.pc[u].ticket, q.n)
    ensures SlotHas(q, q.pc[u].ticket)
  {
    var j, k := q.pc[u].ticket, q.pc[t].ticket;
    assert PcOk(q.pc[t], q) && PcOk(q.pc[u], q);
    HandlingHere(q.pc, u);
    UnwrittenHere(q.pc, t);
    hide Unwritten, Handling, Pushers, Poppers;
    assert q.minWrite <= j < q.maxRead <= k < q.minWrite + q.Capacity();
    SlotInjective(j, k, q.n);
  }

  ghost predicate Reachable<T(!new)>(q: Ring<T>, keep: bool) {
    exists qs: seq<Ring<T>>, ms: seq<Move<T>> :: IsRun(qs, ms, keep) && qs[|ms|] == q
  }

  lemma ReachStep<T(!new)>(q: Ring<T>, m: Move<T>, keep: bool)
    requires Reachable(q, keep) && Enabled(q, m)
    ensures Reachable(Next(q, m, keep), keep)
  {
    hide Enabled, Next, Start;
    var qs, ms :| IsRun(qs, ms, keep) && qs[|ms|] == q;
    var qs1, ms1 := qs + [Next(q, m, keep)], ms + [m];
    assert IsRun(qs1, ms1, keep);
    assert qs1[|ms1|] == Next(q, m, keep);
  }

  // ---------- a run of the code as written that goes wrong ----------

  lemma TwoSlots()
    ensures Pow2(1) == 2 && Slot(0, 1) == 0 && Slot(1, 1) == 1
  {
    SlotStep(0, 1);
    SlotStep(1, 1);
    AndZero(Pow2(0) - 1);
  }

  lemma Step(q: Ring<int>, m: Move<int>) returns (q1: Ring<int>)
    requires Reachable(q, false) && Enabled(q, m)
    ensures q1 == Next(q, m, false) && Reachable(q1, false)
  {
    q1 := Next(q, m, false);
    ReachStep(q, m, false);
  }

  lemma NewRing() returns (q: Ring<int>)
    ensures Reachable(q, false)
    ensures q == Ring(1, 0, 0, 0, 0, [0, 0], map[1 := Idle, 2 := Idle, 3 := Idle], [], map[])
  {
    q := Start(1, [0, 0], {1, 2, 3});
    assert q.pc == map[1 := Idle, 2 := Idle, 3 := Idle];
    assert q == Start(q.n, q.slots, {1, 2, 3});
    var ms: seq<Move<int>> := [];
    assert IsRun([q], ms, false) && [q][|ms|] == q;
  }

  // A producer claims ticket 0 for event 7 and stops before it copies the event.
  lemma StalledProducer() returns (q: Ring<int>)
    ensures Reachable(q, false)
    ensures q == Ring(1, 0, 1, 0, 0, [0, 0], map[1 := PushWrite(7, 0), 2 := Idle, 3 := Idle], [7], map[])
  {
    TwoSlots();
    q := NewRing();
    hide Reachable, Slot, Pow2;
    q := Step(q, StartPush(1, 7));
    assert q.pc == map[1 := PushLoad(7), 2 := Idle, 3 := Idle];
    q := Step(q, Advance(1));
    assert q.pc == map[1 := PushCheck(7, 0), 2 := Idle, 3 := Idle];
    q := Step(q, Advance(1));
    assert q.pc == map[1 := PushClaim(7, 0), 2 := Idle, 3 := Idle];
    q := Step(q, Advance(1));
    assert q.pc == map[1 := PushWrite(7, 0), 2 := Idle, 3 := Idle];
  }

  // Another one claims ticket 1 for event 8 and copies it.
  lemma OtherProducer() returns (q: Ring<int>)
    ensures Reachable(q, false)
    ensures q == Ring(1, 0, 2, 0, 0, [0, 8], map[1 := PushWrite(7, 0), 2 := Publish(1, 1), 3 := Idle], [7, 8], map[])
  {
    TwoSlots();
    q := StalledProducer();
    hide Reachable, Slot, Pow2;
    q := Step(q, StartPush(2, 8));
    assert q.pc == map[1 := PushWrite(7, 0), 2 := PushLoad(8), 3 := Idle];
    q := Step(q, Advance(2));
    assert q.pc == map[1 := PushWrite(7, 0), 2 := PushCheck(8, 1), 3 := Idle];
    q := Step(q, Advance(2));
    assert q.pc == map[1 := PushWrite(7, 0), 2 := PushClaim(8, 1), 3 := Idle];
    q := Step(q, Advance(2));
    assert q.pc == map[1 := PushWrite(7, 0), 2 := PushWrite(8, 1), 3 := Idle];
    q := Step(q, Advance(2));
    assert q.pc == map[1 := PushWrite(7, 0), 2 := Publish(1, 1), 3 := Idle];
  }

  // It fails to publish ticket 1, retries with ticket 0 and so publishes that.
  lemma WrongTicketPublished() returns (q: Ring<int>)
    ensures Reachable(q, false)
    ensures q == Ring(1, 0, 2, 1, 0, [0, 8], map[1 := PushWrite(7, 0), 2 := Idle, 3 := Idle], [7, 8], map[])
  {
    TwoSlots();
    q := OtherProducer();
    hide Reachable, Slot, Pow2;
    q := Step(q, Advance(2));
    assert q.pc == map[1 := PushWrite(7, 0), 2 := Publish(1, 0), 3 := Idle];
    q := Step(q, Advance(2));
    assert q.pc == map[1 := PushWrite(7, 0), 2 := Idle, 3 := Idle];
  }

  // A consumer pops ticket 0 and is given what its slot held before.
  lemma WrongEventDelivered() returns (q: Ring<int>)
    ensures Reachable(q, false) && 0 in q.popped && 0 < |q.pushed| && q.popped[0] != q.pushed[0]
  {
    TwoSlots();
    q := WrongTicketPublished();
    hide Reachable, Slot, Pow2;
    q := Step(q, StartPop(3));
    assert q.pc == map[1 := PushWrite(7, 0), 2 := Idle, 3 := PopLoad];
    q := Step(q, Advance(3));
    assert q.pc == map[1 := PushWrite(7, 0), 2 := Idle, 3 := PopCheck(0)];
    q := Step(q, Advance(3));
    assert q.pc == map[1 := PushWrite(7, 0), 2 := Idle, 3 := PopClaim(0)];
    q := Step(q, Advance(3));
    assert q.pc == map[1 := PushWrite(7, 0), 2 := Idle, 3 := PopHandle(0)];
    q := Step(q, Advance(3));
  }
}
