/** Exactly when the queue of MpmcRing delivers what was pushed, in either version of its retry loops. */
module MpmcDelivery {
  import opened Basics
  import opened Collections
  import opened RingIndex
  import opened SlotTraces
  import opened MpmcRing

  // The ticket whose event a move copies into its slot, and the one whose slot it gives to a handler.
  ghost function Copied<T>(q: Ring<T>, m: Move<T>): Option<nat> {
    if m.Advance? && m.t in q.pc && q.pc[m.t].PushWrite? then Some(q.pc[m.t].ticket) else None
  }

  ghost function Handled<T>(q: Ring<T>, m: Move<T>): Option<nat> {
    if m.Advance? && m.t in q.pc && q.pc[m.t].PopHandle? then Some(q.pc[m.t].ticket) else None
  }

  ghost function TouchOf<T>(q: Ring<T>, m: Move<T>): Touch { Touch(Copied(q, m), Handled(q, m)) }

  function FrameOf<T>(q: Ring<T>): Frame<T> { Frame(q.slots, q.pushed, q.popped) }

  function Frames<T>(qs: seq<Ring<T>>): seq<Frame<T>> { seq(|qs|, i requires 0 <= i < |qs| => FrameOf(qs[i])) }

  ghost function Touches<T>(qs: seq<Ring<T>>, ms: seq<Move<T>>): seq<Touch>
    requires |ms| <= |qs|
  {
    seq(|ms|, i requires 0 <= i < |ms| => TouchOf(qs[i], ms[i]))
  }

  lemma RunStep<T>(qs: seq<Ring<T>>, ms: seq<Move<T>>, keep: bool, i: nat)
    requires IsRun(qs, ms, keep) && i < |ms|
    ensures |qs| == |ms| + 1 && Counted(qs[i]) && Enabled(qs[i], ms[i]) && qs[i + 1] == Next(qs[i], ms[i], keep)
  {
    hide Counted, Next, Enabled;
    RunCounted(qs, ms, keep, i);
  }

  // ---------- what a single move does to the slots and to what is handed out ----------

  lemma MoveSlots<T>(q: Ring<T>, m: Move<T>, keep: bool)
    requires Counted(q) && Enabled(q, m)
    ensures var q1 := Next(q, m, keep);
      && q1.n == q.n && q.pushed <= q1.pushed
      && match Copied(q, m)
         case None => q1.slots == q.slots
         case Some(k) => k < |q.pushed| && Slot(k, q.n) < |q.slots| && q1.slots == q.slots[Slot(k, q.n) := q.pushed[k]]
  {
    hide Slot, Unique, Pow2;
    if Copied(q, m).Some? {
      assert PcOk(q.pc[m.t], q);
      SlotInBounds(q.pc[m.t].ticket, q.n);
    }
    hide Counted;
  }

  lemma MovePopped<T>(q: Ring<T>, m: Move<T>, keep: bool)
    requires Counted(q) && Enabled(q, m)
    ensures var q1 := Next(q, m, keep);
      match Handled(q, m)
      case None => q1.popped == q.popped
      case Some(k) =>
        && k < |q.pushed| && k !in q.popped && Slot(k, q.n) < |q.slots|
        && q1.popped == q.popped[k := q.slots[Slot(k, q.n)]]
  {
    hide Unique, Poppers, And;
    if Handled(q, m).Some? {
      assert PcOk(q.pc[m.t], q);
      SlotInBounds(q.pc[m.t].ticket, q.n);
    }
    hide PcsOk, Slot, Pushers;
  }

  lemma PoppedArePushed<T>(q: Ring<T>)
    requires Counted(q)
    ensures forall k :: k in q.popped ==> k < |q.pushed|
  {
    hide Unique, Pushers, Poppers;
  }

  lemma MoveFrame<T>(q: Ring<T>, m: Move<T>, keep: bool)
    requires Counted(q) && Enabled(q, m)
    ensures Next(q, m, keep).n == q.n && FrameStep(FrameOf(q), TouchOf(q, m), FrameOf(Next(q, m, keep)), q.n)
  {
    MoveSlots(q, m, keep);
    MovePopped(q, m, keep);
    PoppedArePushed(q);
    hide Counted, Enabled, Next, Slot, Copied, Handled;
  }

  // ---------- whole runs ----------

  lemma {:induction false} SameRing<T>(qs: seq<Ring<T>>, ms: seq<Move<T>>, keep: bool, i: nat)
    requires IsRun(qs, ms, keep) && i < |qs|
    ensures qs[i].n == qs[0].n
    decreases i
  {
    if i > 0 {
      SameRing(qs, ms, keep, i - 1);
      RunStep(qs, ms, keep, i - 1);
      hide Counted, Enabled, Next, FrameStep, IsRun;
      MoveFrame(qs[i - 1], ms[i - 1], keep);
    }
  }

  lemma RunIsTrace<T>(qs: seq<Ring<T>>, ms: seq<Move<T>>, keep: bool)
    requires IsRun(qs, ms, keep)
    ensures |qs| == |ms| + 1 && IsTrace(Frames(qs), Touches(qs, ms), qs[0].n)
  {
    forall i | 0 <= i < |ms|
      ensures FrameStep(FrameOf(qs[i]), TouchOf(qs[i], ms[i]), FrameOf(qs[i + 1]), qs[0].n)
    {
      SameRing(qs, ms, keep, i);
      RunStep(qs, ms, keep, i);
      hide Counted, Enabled, Next, FrameStep, IsRun;
      MoveFrame(qs[i], ms[i], keep);
    }
    hide TouchOf;
  }

  // In any run, of either version, in which events are told apart: every consumer is given what was pushed
  // under its ticket if and only if every slot is looked at after the copy of its ticket and before any other.
  lemma DeliveredIffTimely<T>(qs: seq<Ring<T>>, ms: seq<Move<T>>, keep: bool, n: nat)
    requires IsRun(qs, ms, keep) && n < |qs| && Fresh(qs[n].pushed, qs[0].slots)
    ensures Delivered(qs[n]) <==> forall i :: 0 <= i < n ==> Timely(Touches(qs, ms), qs[0].n, i)
  {
    RunIsTrace(qs, ms, keep);
    hide IsRun, IsTrace, Timely, AllRight, Fresh, TouchOf;
    RightIffTimely(Frames(qs), Touches(qs, ms), qs[0].n, n);
  }

  // Whatever is pushed, also equal events: it is right if every slot is looked at in time.
  lemma TimelyDelivers<T>(qs: seq<Ring<T>>, ms: seq<Move<T>>, keep: bool, n: nat)
    requires IsRun(qs, ms, keep) && n < |qs| && forall i :: 0 <= i < n ==> Timely(Touches(qs, ms), qs[0].n, i)
    ensures Delivered(qs[n])
  {
    RunIsTrace(qs, ms, keep);
    hide IsRun, IsTrace, Timely, AllRight, TouchOf;
    TimelyIsRight(Frames(qs), Touches(qs, ms), qs[0].n, n);
  }

  // ---------- a ticket that is handled before its event has been copied ----------

  // Of a thread only its own program counter changes, and it comes to copy only by claiming the next ticket.
  ghost predicate PcMoved<T>(q: Ring<T>, t: Thread, q1: Ring<T>) {
    && t in q1.pc && q1.pc == q.pc[t := q1.pc[t]]
    && q.write <= q1.write && (q1.pc[t].PushWrite? ==> q1.pc[t].ticket == q.write)
  }

  lemma PcTo<T>(q: Ring<T>, t: Thread, p: Pc<T>, q1: Ring<T>)
    requires q1.pc == q.pc[t := p] && q.write <= q1.write && (p.PushWrite? ==> p.ticket == q.write)
    ensures PcMoved(q, t, q1)
  {
  }

  lemma MovePc<T>(q: Ring<T>, m: Move<T>, keep: bool)
    requires Enabled(q, m)
    ensures PcMoved(q, m.t, Next(q, m, keep))
  {
    hide PcMoved, Advanced, Failed;
    match m
    case StartPush(t, v) => PcTo(q, t, PushLoad(v), Next(q, m, keep));
    case StartPop(t) => PcTo(q, t, PopLoad, Next(q, m, keep));
    case GiveUp(t) => PcTo(q, t, Idle, Next(q, m, keep));
    case Advance(t) => AdvancedPc(q, t, keep);
    case Spurious(t) => FailedPc(q, t, keep);
  }

  lemma FailedPc<T>(q: Ring<T>, t: Thread, keep: bool)
    requires t in q.pc && (q.pc[t].PushClaim? || q.pc[t].Publish? || q.pc[t].PopClaim? || q.pc[t].Release?)
    ensures PcMoved(q, t, Failed(q, t, keep))
  {
    hide PcMoved;
    match q.pc[t]
    case PushClaim(v, _) => PcTo(q, t, PushLoad(v), Failed(q, t, keep));
    case Publish(k, _) => PcTo(q, t, Publish(k, if keep then k else q.maxRead), Failed(q, t, keep));
    case PopClaim(_) => PcTo(q, t, PopLoad, Failed(q, t, keep));
    case Release(k, _) => PcTo(q, t, Release(k, if keep then k else q.minWrite), Failed(q, t, keep));
  }

  lemma AdvancedPc<T>(q: Ring<T>, t: Thread, keep: bool)
    requires t in q.pc && !q.pc[t].Idle?
    ensures PcMoved(q, t, Advanced(q, t, keep))
  {
    hide PcMoved, Slot, Less;
    var q1 := Advanced(q, t, keep);
    match q.pc[t]
    case PushLoad(v) => PcTo(q, t, PushCheck(v, q.write), q1);
    case PushCheck(v, w) => PcTo(q, t, if Less(w, q.minWrite, q.Capacity()) then PushClaim(v, w) else PushLoad(v), q1);
    case PushClaim(v, w) => PcTo(q, t, if q.write == w then PushWrite(v, q.write) else PushLoad(v), q1);
    case PushWrite(_, k) => PcTo(q, t, Publish(k, k), q1);
    case Publish(k, e) => PcTo(q, t, if q.maxRead == e then Idle else Publish(k, if keep then k else q.maxRead), q1);
    case PopLoad => PcTo(q, t, PopCheck(q.read), q1);
    case PopCheck(r) => PcTo(q, t, if q.maxRead > r then PopClaim(r) else Idle, q1);
    case PopClaim(r) => PcTo(q, t, if q.read == r then PopHandle(q.read) else PopLoad, q1);
    case PopHandle(k) => PcTo(q, t, Release(k, k), q1);
    case Release(k, e) => PcTo(q, t, if q.minWrite == e then Idle else Release(k, if keep then k else q.minWrite), q1);
  }

  // A ticket's event is copied once.
  lemma MoveUnwritten<T>(q: Ring<T>, m: Move<T>, keep: bool, k: nat)
    requires Unique(q.pc) && Enabled(q, m) && k < q.write
    ensures q.write <= Next(q, m, keep).write
    ensures !Unwritten(q.pc, k) || Copied(q, m) == Some(k) ==> !Unwritten(Next(q, m, keep).pc, k)
  {
    MovePc(q, m, keep);
    hide Next, Enabled, Slot;
    var p := Next(q, m, keep).pc[m.t];
    if Copied(q, m) == Some(k) {
      forall u | u in q.pc && u != m.t && q.pc[u].PushWrite?
        ensures q.pc[u].ticket != k
      {
        UniqueAt(q.pc, m.t, u);
      }
    } else {
      UnwrittenMoves(q.pc, m.t, p, k);
    }
  }

  lemma {:induction false} CopiedIsWritten<T>(qs: seq<Ring<T>>, ms: seq<Move<T>>, keep: bool, i: nat, s: nat)
    requires IsRun(qs, ms, keep) && i < |qs|
    ensures match LastCopied(Touches(qs, ms), qs[0].n, i, s)
            case None => true
            case Some(k) => k < qs[i].write && !Unwritten(qs[i].pc, k)
    decreases i
  {
    if i > 0 {
      var q, m := qs[i - 1], ms[i - 1];
      RunStep(qs, ms, keep, i - 1);
      CopiedIsWritten(qs, ms, keep, i - 1, s);
      hide IsRun, Next, Enabled, Unwritten, Slot;
      var last := LastCopied(Touches(qs, ms), qs[0].n, i, s);
      assert Touches(qs, ms)[i - 1] == TouchOf(q, m);
      if last.Some? {
        if last == Copied(q, m) {
          assert PcOk(q.pc[m.t], q);
        }
        hide Counts, PcsOk;
        MoveUnwritten(q, m, keep, last.value);
      }
    }
  }

  // Handing out a ticket whose event is still to be copied is never timely.
  lemma UnwrittenIsUntimely<T>(qs: seq<Ring<T>>, ms: seq<Move<T>>, keep: bool, i: nat)
    requires IsRun(qs, ms, keep) && i < |ms|
    requires match Handled(qs[i], ms[i]) case None => false case Some(k) => Unwritten(qs[i].pc, k)
    ensures !Timely(Touches(qs, ms), qs[0].n, i)
  {
    hide Unwritten;
    assert Touches(qs, ms)[i] == TouchOf(qs[i], ms[i]);
    CopiedIsWritten(qs, ms, keep, i, Slot(Handled(qs[i], ms[i]).value, qs[0].n));
  }

  // ---------- a careless run that delivers rightly all the same ----------

  // A run of the loops as written leads to q, and at least one of its moves is careless.
  ghost predicate Carelessly(q: Ring<int>) {
    exists qs: seq<Ring<int>>, ms: seq<Move<int>>, at :: CarelessRun(qs, ms, at) && qs[|ms|] == q
  }

  ghost predicate CarelessRun(qs: seq<Ring<int>>, ms: seq<Move<int>>, at: nat) {
    IsRun(qs, ms, false) && at < |ms| && Enabled(qs[at], ms[at]) && !Careful(qs[at], ms[at])
  }

  lemma SlipStep(q: Ring<int>, m: Move<int>) returns (q1: Ring<int>)
    requires Reachable(q, false) && Enabled(q, m) && !Careful(q, m)
    ensures q1 == Next(q, m, false) && Carelessly(q1)
  {
    hide Next, Enabled, Start, Careful;
    var qs, ms :| IsRun(qs, ms, false) && qs[|ms|] == q;
    q1 := Next(q, m, false);
    var qs1, ms1 := qs + [q1], ms + [m];
    assert CarelessRun(qs1, ms1, |ms|) && qs1[|ms1|] == q1;
  }

  lemma GoOn(q: Ring<int>, m: Move<int>) returns (q1: Ring<int>)
    requires Carelessly(q) && Enabled(q, m)
    ensures q1 == Next(q, m, false) && Carelessly(q1)
  {
    hide Next, Enabled, Start, Careful;
    var qs, ms, at :| CarelessRun(qs, ms, at) && qs[|ms|] == q;
    q1 := Next(q, m, false);
    var qs1, ms1 := qs + [q1], ms + [m];
    assert CarelessRun(qs1, ms1, at) && qs1[|ms1|] == q1;
  }

  // A ticket is published before its event has been copied, but its producer goes on before any consumer comes.
  lemma CarelessStart() returns (q: Ring<int>)
    ensures Carelessly(q)
    ensures q == Ring(1, 0, 2, 1, 0, [0, 8], map[1 := PushWrite(7, 0), 2 := Idle, 3 := Idle], [7, 8], map[])
  {
    TwoSlots();
    q := OtherProducer();
    hide Reachable, Carelessly, Slot, Pow2;
    q := MpmcRing.Step(q, Advance(2));
    assert q.pc == map[1 := PushWrite(7, 0), 2 := Publish(1, 0), 3 := Idle];
    UnwrittenHere(q.pc, 1);
    q := SlipStep(q, Advance(2));
    assert q.pc == map[1 := PushWrite(7, 0), 2 := Idle, 3 := Idle];
  }

  lemma BothPublished() returns (q: Ring<int>)
    ensures Carelessly(q)
    ensures q == Ring(1, 0, 2, 2, 0, [7, 8], map[1 := Idle, 2 := Idle, 3 := Idle], [7, 8], map[])
  {
    TwoSlots();
    q := CarelessStart();
    hide Carelessly, Slot, Pow2;
    q := GoOn(q, Advance(1));
    assert q.pc == map[1 := Publish(0, 0), 2 := Idle, 3 := Idle];
    q := GoOn(q, Advance(1));
    assert q.pc == map[1 := Publish(0, 1), 2 := Idle, 3 := Idle];
    q := GoOn(q, Advance(1));
    assert q.pc == map[1 := Idle, 2 := Idle, 3 := Idle];
  }

  // The consumer claims one event and is given it.
  lemma ClaimOne(q: Ring<int>) returns (q1: Ring<int>)
    requires Carelessly(q) && q.pc == map[1 := Idle, 2 := Idle, 3 := Idle] && q.read < q.maxRead
    ensures Carelessly(q1)
    ensures q1 == q.(read := q.read + 1, pc := map[1 := Idle, 2 := Idle, 3 := PopHandle(q.read)])
  {
    hide Carelessly;
    q1 := GoOn(q, StartPop(3));
    assert q1.pc == map[1 := Idle, 2 := Idle, 3 := PopLoad];
    q1 := GoOn(q1, Advance(3));
    assert q1.pc == map[1 := Idle, 2 := Idle, 3 := PopCheck(q.read)];
    q1 := GoOn(q1, Advance(3));
    assert q1.pc == map[1 := Idle, 2 := Idle, 3 := PopClaim(q.read)];
    q1 := GoOn(q1, Advance(3));
    assert q1.pc == map[1 := Idle, 2 := Idle, 3 := PopHandle(q.read)];
  }

  lemma PopOne(q: Ring<int>) returns (q1: Ring<int>)
    requires Carelessly(q) && q.pc == map[1 := Idle, 2 := Idle, 3 := Idle]
    requires q.n == 1 && |q.slots| == 2 && q.minWrite == q.read < 2 && q.read < q.maxRead
    ensures Carelessly(q1)
    ensures q1 == q.(read := q.read + 1, minWrite := q.read + 1, popped := q.popped[q.read := q.slots[q.read]])
  {
    TwoSlots();
    hide Carelessly, Slot, Pow2;
    var r := q.read;
    q1 := ClaimOne(q);
    q1 := GoOn(q1, Advance(3));
    assert q1.pc == map[1 := Idle, 2 := Idle, 3 := Release(r, r)];
    q1 := GoOn(q1, Advance(3));
    assert q1.pc == map[1 := Idle, 2 := Idle, 3 := Idle];
  }

  // Both events are delivered rightly although a ticket was published before its event was copied.
  lemma CarelessButRight() returns (q: Ring<int>)
    ensures Carelessly(q) && q.pushed == [7, 8] && q.popped == map[0 := 7, 1 := 8]
  {
    q := BothPublished();
    q := PopOne(q);
    q := PopOne(q);
  }
}
