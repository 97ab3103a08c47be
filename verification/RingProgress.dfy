/** The rings get on: a push or a pop that runs alone for a while goes through exactly if there is room, or
    an event, whatever the other threads have been stopped in. */
module RingProgress {
  import opened Collections
  import opened RingIndex
  import opened MpmcRing
  import opened RingVariants

  // A thread makes k moves, with none of another thread in between.
  function Turns<T>(t: Thread, k: nat): seq<Move<T>> { if k == 0 then [] else [Advance(t)] + Turns(t, k - 1) }

  // The ring q becomes q1 if thread t makes k moves alone.
  ghost predicate Becomes<T>(q: Ring<T>, t: Thread, k: nat, keep: bool, q1: Ring<T>) {
    CanPlay(q, Turns(t, k), keep) && Play(q, Turns(t, k), keep) == q1
  }

  lemma NoTurns<T>(q: Ring<T>, t: Thread, keep: bool)
    ensures Becomes(q, t, 0, keep, q)
  {
  }

  lemma OneTurn<T>(q: Ring<T>, t: Thread, keep: bool)
    requires t in q.pc && !q.pc[t].Idle?
    ensures Becomes(q, t, 1, keep, Advanced(q, t, keep))
  {
    hide Advanced;
    assert Turns<T>(t, 1) == [Advance(t)];
    PlayOne(q, Advance(t), keep);
  }

  lemma {:induction false} TurnsOn<T>(q: Ring<T>, t: Thread, j: nat, k: nat, keep: bool, q1: Ring<T>, q2: Ring<T>)
    requires Becomes(q, t, j, keep, q1) && Becomes(q1, t, k, keep, q2)
    ensures Becomes(q, t, j + k, keep, q2)
    decreases j
  {
    hide Enabled, Next;
    if j > 0 {
      assert Turns<T>(t, j)[1..] == Turns(t, j - 1) && Turns<T>(t, j + k)[1..] == Turns(t, j - 1 + k);
      TurnsOn(Next(q, Advance(t), keep), t, j - 1, k, keep, q1, q2);
    }
  }

  // ---------- pushing ----------

  // A push that runs alone has its event at the end of the queue after three moves if a slot is free; otherwise
  // it has changed nothing and looks again.
  lemma PushAlone<T>(q: Ring<T>, t: Thread, v: T, keep: bool)
    requires Counted(q) && t in q.pc && q.pc[t] == PushLoad(v)
    ensures Becomes(q, t, 3, keep,
      if q.write < q.minWrite + q.Capacity() then
        q.(pc := q.pc[t := PushWrite(v, q.write)], write := q.write + 1, pushed := q.pushed + [v])
      else q.(pc := q.pc[t := PushCheck(v, q.write)]))
  {
    hide PcsOk, Unique, Pow2, Becomes;
    var q1 := Advanced(q, t, keep);
    var q2 := Advanced(q1, t, keep);
    var q3 := Advanced(q2, t, keep);
    PutTwice(q.pc, t, q1.pc[t], q2.pc[t]);
    PutTwice(q.pc, t, q2.pc[t], q3.pc[t]);
    OneTurn(q, t, keep);
    OneTurn(q1, t, keep);
    OneTurn(q2, t, keep);
    TurnsOn(q, t, 1, 1, keep, q1, q2);
    TurnsOn(q, t, 2, 1, keep, q2, q3);
  }

  // While no slot is free, a push that runs alone never gets any further.
  lemma {:induction false} PushBlocked<T>(q: Ring<T>, t: Thread, v: T, k: nat, keep: bool)
    requires Counted(q) && t in q.pc && q.pc[t] == PushLoad(v) && q.write >= q.minWrite + q.Capacity()
    ensures Becomes(q, t, k, keep, if k % 2 == 0 then q else q.(pc := q.pc[t := PushCheck(v, q.write)]))
  {
    hide PcsOk, Unique, Pow2, Becomes;
    var q1 := q.(pc := q.pc[t := PushCheck(v, q.write)]);
    if k == 0 {
      NoTurns(q, t, keep);
    } else {
      PushBlocked(q, t, v, k - 1, keep);
      OneTurn(q, t, keep);
      OneTurn(q1, t, keep);
      assert q.pc == q1.pc[t := PushLoad(v)];
      TurnsOn(q, t, k - 1, 1, keep, if k % 2 == 1 then q else q1, if k % 2 == 1 then q1 else q);
    }
  }

  // It may give up then, and so may a pop that has not seen its ticket; that changes nothing.
  lemma GiveUpLeaves<T>(q: Ring<T>, t: Thread, keep: bool)
    requires t in q.pc && (q.pc[t].PushLoad? || q.pc[t].PopLoad?)
    ensures Enabled(q, GiveUp(t)) && Next(q, GiveUp(t), keep) == q.(pc := q.pc[t := Idle])
  {
  }

  // A compare-and-swap that fails without cause changes nothing either: the claim of a ticket begins again, and a
  // ticket
  // remains to be published or released.
  lemma FailureRetries<T>(q: Ring<T>, t: Thread, keep: bool)
    requires t in q.pc && (q.pc[t].PushClaim? || q.pc[t].Publish? || q.pc[t].PopClaim? || q.pc[t].Release?)
    ensures Enabled(q, Spurious(t))
    ensures var q1 := Next(q, Spurious(t), keep);
      && q1 == q.(pc := q1.pc) && q1.pc.Keys == q.pc.Keys && (forall u :: u in q.pc && u != t ==> q1.pc[u] == q.pc[u])
      && match q.pc[t] {
           case PushClaim(v, _) => q1.pc[t] == PushLoad(v)
           case PopClaim(_) => q1.pc[t] == PopLoad
           case Publish(k, _) => q1.pc[t] == Publish(k, if keep then k else q.maxRead)
           case Release(k, _) => q1.pc[t] == Release(k, if keep then k else q.minWrite)
           case _ => false
         }
  {
  }

  // The event is copied into the slot of its ticket.
  lemma CopyAlone<T>(q: Ring<T>, t: Thread, v: T, k: nat, keep: bool)
    requires Counted(q) && t in q.pc && q.pc[t] == PushWrite(v, k)
    ensures Slot(k, q.n) < |q.slots|
    ensures Becomes(q, t, 1, keep, q.(pc := q.pc[t := Publish(k, k)], slots := q.slots[Slot(k, q.n) := v]))
  {
    SlotInBounds(k, q.n);
    OneTurn(q, t, keep);
    hide PcsOk, Unique, Pow2, Becomes;
  }

  // In ticket order a producer publishes alone exactly if its ticket is the next one; as written it always
  // publishes some ticket, with one move or two.
  lemma PublishAlone<T>(q: Ring<T>, t: Thread, keep: bool)
    requires t in q.pc && q.pc[t].Publish? && (keep ==> q.pc[t].expected == q.pc[t].ticket)
    ensures var next := q.(pc := q.pc[t := Idle], maxRead := q.maxRead + 1);
      if q.maxRead == q.pc[t].expected then Becomes(q, t, 1, keep, next)
      else if keep then Becomes(q, t, 1, keep, q)
      else Becomes(q, t, 2, keep, next)
  {
    hide Becomes;
    var q1 := Advanced(q, t, keep);
    OneTurn(q, t, keep);
    if q.maxRead != q.pc[t].expected {
      if keep {
        assert q.pc[t := q.pc[t]] == q.pc;
      } else {
        PutTwice(q.pc, t, q1.pc[t], Idle);
        OneTurn(q1, t, keep);
        TurnsOn(q, t, 1, 1, keep, q1, Advanced(q1, t, keep));
      }
    }
  }

  // A whole push, with no other one on the way.
  lemma WholePush<T>(q: Ring<T>, t: Thread, v: T, keep: bool)
    requires Counted(q) && t in q.pc && q.pc[t] == PushLoad(v) && q.maxRead == q.write
    requires q.write < q.minWrite + q.Capacity()
    ensures Slot(q.write, q.n) < |q.slots|
    ensures Becomes(q, t, 5, keep, q.(pc := q.pc[t := Idle], write := q.write + 1, maxRead := q.maxRead + 1,
      slots := q.slots[Slot(q.write, q.n) := v], pushed := q.pushed + [v]))
  {
    hide Becomes, Slot, Pow2, Unique, PcsOk;
    PushAlone(q, t, v, keep);
    var p := PushWrite(v, q.write);
    var q3 := q.(pc := q.pc[t := p], write := q.write + 1, pushed := q.pushed + [v]);
    SlotInBounds(q.write, q.n);
    var q4 := q3.(pc := q.pc[t := Publish(q.write, q.write)], slots := q.slots[Slot(q.write, q.n) := v]);
    PutTwice(q.pc, t, p, q4.pc[t]);
    OneTurn(q3, t, keep);
    TurnsOn(q, t, 3, 1, keep, q3, q4);
    PutTwice(q.pc, t, q4.pc[t], Idle);
    PublishAlone(q4, t, keep);
    TurnsOn(q, t, 4, 1, keep, q4, q4.(pc := q.pc[t := Idle], maxRead := q.maxRead + 1));
  }

  // ---------- popping ----------

  // A pop that runs alone has the oldest ticket after three moves if it is published; otherwise it has found the
  // queue empty after two.
  lemma PopAlone<T>(q: Ring<T>, t: Thread, keep: bool)
    requires t in q.pc && q.pc[t] == PopLoad
    ensures if q.read < q.maxRead then
        Becomes(q, t, 3, keep, q.(pc := q.pc[t := PopHandle(q.read)], read := q.read + 1))
      else Becomes(q, t, 2, keep, q.(pc := q.pc[t := Idle]))
  {
    hide Becomes;
    var q1 := Advanced(q, t, keep);
    var q2 := Advanced(q1, t, keep);
    PutTwice(q.pc, t, q1.pc[t], q2.pc[t]);
    OneTurn(q, t, keep);
    OneTurn(q1, t, keep);
    TurnsOn(q, t, 1, 1, keep, q1, q2);
    if q.read < q.maxRead {
      var q3 := Advanced(q2, t, keep);
      PutTwice(q.pc, t, q2.pc[t], q3.pc[t]);
      OneTurn(q2, t, keep);
      TurnsOn(q, t, 2, 1, keep, q2, q3);
    }
  }

  // The handler is given what is in the slot of the ticket.
  lemma HandleAlone<T>(q: Ring<T>, t: Thread, k: nat, keep: bool)
    requires Counted(q) && t in q.pc && q.pc[t] == PopHandle(k)
    ensures Slot(k, q.n) < |q.slots|
    ensures Becomes(q, t, 1, keep, q.(pc := q.pc[t := Release(k, k)], popped := q.popped[k := q.slots[Slot(k, q.n)]]))
  {
    SlotInBounds(k, q.n);
    OneTurn(q, t, keep);
    hide PcsOk, Unique, Pow2, Becomes;
  }

  lemma ReleaseAlone<T>(q: Ring<T>, t: Thread, keep: bool)
    requires t in q.pc && q.pc[t].Release? && (keep ==> q.pc[t].expected == q.pc[t].ticket)
    ensures var next := q.(pc := q.pc[t := Idle], minWrite := q.minWrite + 1);
      if q.minWrite == q.pc[t].expected then Becomes(q, t, 1, keep, next)
      else if keep then Becomes(q, t, 1, keep, q)
      else Becomes(q, t, 2, keep, next)
  {
    hide Becomes;
    var q1 := Advanced(q, t, keep);
    OneTurn(q, t, keep);
    if q.minWrite != q.pc[t].expected {
      if keep {
        assert q.pc[t := q.pc[t]] == q.pc;
      } else {
        PutTwice(q.pc, t, q1.pc[t], Idle);
        OneTurn(q1, t, keep);
        TurnsOn(q, t, 1, 1, keep, q1, Advanced(q1, t, keep));
      }
    }
  }

  lemma OldestInPlace<T>(q: Ring<T>)
    requires Safe(q) && q.minWrite <= q.read < q.maxRead
    ensures q.read < |q.pushed| && Slot(q.read, q.n) < |q.slots| && q.slots[Slot(q.read, q.n)] == q.pushed[q.read]
  {
    hide Slot, Pow2, Unique, PcsOk, Unwritten, Handling;
    assert SlotHas(q, q.read);
  }

  // A whole pop, with no other one on the way: in a safe state the handler is given the oldest event, and its
  // slot is free for another push.
  lemma WholePop<T>(q: Ring<T>, t: Thread, keep: bool)
    requires Safe(q) && t in q.pc && q.pc[t] == PopLoad && q.minWrite == q.read < q.maxRead
    ensures q.read < |q.pushed|
    ensures Becomes(q, t, 5, keep, q.(pc := q.pc[t := Idle], read := q.read + 1, minWrite := q.minWrite + 1,
      popped := q.popped[q.read := q.pushed[q.read]]))
  {
    OldestInPlace(q);
    hide Becomes, Slot, Pow2, Unique, PcsOk, Counts, Values, InPlace;
    PopAlone(q, t, keep);
    var p := PopHandle(q.read);
    var q3 := q.(pc := q.pc[t := p], read := q.read + 1);
    var q4 := q3.(pc := q.pc[t := Release(q.read, q.read)], popped := q.popped[q.read := q.pushed[q.read]]);
    PutTwice(q.pc, t, p, q4.pc[t]);
    OneTurn(q3, t, keep);
    TurnsOn(q, t, 3, 1, keep, q3, q4);
    PutTwice(q.pc, t, q4.pc[t], Idle);
    ReleaseAlone(q4, t, keep);
    TurnsOn(q, t, 4, 1, keep, q4, q4.(pc := q.pc[t := Idle], minWrite := q.minWrite + 1));
  }

  // ---------- one consumer ----------

  function PushTurns<T>(m: Mpsc<T>, t: Thread, k: nat, keep: bool): Mpsc<T>
    requires t in m.producers
    decreases k
  {
    if k == 0 then m else PushTurns(PushStep(m, t, keep), t, k - 1, keep)
  }

  function PopTurns<T>(m: Mpsc<T>, k: nat): Mpsc<T>
    decreases k
  {
    if k == 0 then m else PopTurns(PopStep(m), k - 1)
  }

  // A push that runs alone has its event at the end of the queue after three steps if a slot is free; otherwise
  // it looks again.
  lemma MpscPushAlone<T>(m: Mpsc<T>, c: Thread, t: Thread, v: T, keep: bool)
    requires MpscOk(m, c) && Counted(ToRing(m, c)) && t in m.producers && m.producers[t] == PushLoad(v)
    ensures PushTurns(m, t, 3, keep) ==
      if m.write < m.readIndex + Pow2(m.n) then
        m.(producers := m.producers[t := PushWrite(v, m.write)], write := m.write + 1, pushed := m.pushed + [v])
      else m.(producers := m.producers[t := PushCheck(v, m.write)])
  {
    hide Pow2, Slot, PcsOk, Unique, PushPc, Pushers, Poppers;
    var m1 := PushStep(m, t, keep);
    var m2 := PushStep(m1, t, keep);
    PutTwice(m.producers, t, m1.producers[t], m2.producers[t]);
    PutTwice(m.producers, t, m2.producers[t], PushStep(m2, t, keep).producers[t]);
  }

  // It copies the event and, with no other push on the way, publishes it.
  lemma MpscFillAlone<T>(m: Mpsc<T>, t: Thread, keep: bool)
    requires t in m.producers && m.producers[t].PushWrite? && |m.slots| == Pow2(m.n)
      && m.maxRead == m.producers[t].ticket
    ensures var k := m.producers[t].ticket;
      && Slot(k, m.n) < |m.slots|
      && PushTurns(m, t, 2, keep) == m.(producers := m.producers[t := Idle], maxRead := m.maxRead + 1,
           slots := m.slots[Slot(k, m.n) := m.producers[t].v])
  {
    SlotInBounds(m.producers[t].ticket, m.n);
    hide Pow2, Slot;
    PutTwice(m.producers, t, PushStep(m, t, keep).producers[t], Idle);
  }

  // The one consumer pops exactly if the oldest ticket is published, and its handler is given what is in the slot.
  lemma MpscPopAlone<T>(m: Mpsc<T>)
    requires |m.slots| == Pow2(m.n) && m.consumer.NoPop?
    ensures Slot(m.readIndex, m.n) < |m.slots|
    ensures if m.readIndex < m.maxRead then
        PopTurns(m, 4) == m.(readIndex := m.readIndex + 1,
          popped := m.popped[m.readIndex := m.slots[Slot(m.readIndex, m.n)]])
      else PopTurns(m, 2) == m
  {
    SlotInBounds(m.readIndex, m.n);
    hide Pow2, Slot;
    var m1 := PopStep(m);
    var m2 := PopStep(m1);
    if m.readIndex < m.maxRead {
      var m3 := PopStep(m2);
      assert PopTurns(m, 4) == PopTurns(m2, 2) == PopStep(m3);
    }
  }

  // In a safe state that is the oldest event.
  lemma MpscOldest<T>(m: Mpsc<T>, c: Thread)
    requires Safe(ToRing(m, c)) && m.consumer.NoPop? && m.readIndex < m.maxRead
    ensures m.readIndex < |m.pushed| && Slot(m.readIndex, m.n) < |m.slots|
    ensures m.slots[Slot(m.readIndex, m.n)] == m.pushed[m.readIndex]
  {
    hide Pow2, Slot, PcsOk, Unique, Pushers, Poppers, InPlace, Values;
    OldestInPlace(ToRing(m, c));
  }

  // ---------- one producer ----------

  function GiveTurns<T>(m: Spmc<T>, v: T, k: nat): Spmc<T>
    decreases k
  {
    if k == 0 then m else GiveTurns(GiveStep(m, v), v, k - 1)
  }

  function TakeTurns<T>(m: Spmc<T>, t: Thread, k: nat, keep: bool): Spmc<T>
    requires t in m.consumers
    decreases k
  {
    if k == 0 then m else TakeTurns(TakeStep(m, t, keep), t, k - 1, keep)
  }

  // The one producer pushes exactly if a slot is free.
  lemma SpmcPushAlone<T>(m: Spmc<T>, c: Thread, v: T)
    requires Counted(AsRing(m, c)) && m.producer.NoPush?
    ensures Slot(m.writeIndex, m.n) < |m.slots|
    ensures if m.writeIndex < m.minWrite + Pow2(m.n) then
        GiveTurns(m, v, 4) == m.(writeIndex := m.writeIndex + 1, slots := m.slots[Slot(m.writeIndex, m.n) := v],
          pushed := m.pushed + [v])
      else GiveTurns(m, v, 2) == m
  {
    SlotInBounds(m.writeIndex, m.n);
    hide Pow2, Slot, PcsOk, Unique, Pushers, Poppers;
    var m1 := GiveStep(m, v);
    var m2 := GiveStep(m1, v);
    if m.writeIndex < m.minWrite + Pow2(m.n) {
      var m3 := GiveStep(m2, v);
      assert GiveTurns(m, v, 4) == GiveTurns(m2, v, 2) == GiveStep(m3, v);
    }
  }

  // A pop that runs alone takes the oldest ticket if there is one.
  lemma SpmcPopAlone<T>(m: Spmc<T>, t: Thread, keep: bool)
    requires t in m.consumers && m.consumers[t] == PopLoad
    ensures if m.read < m.writeIndex then
        TakeTurns(m, t, 3, keep) == m.(consumers := m.consumers[t := PopHandle(m.read)], read := m.read + 1)
      else TakeTurns(m, t, 2, keep) == m.(consumers := m.consumers[t := Idle])
  {
    hide Slot;
    var m1 := TakeStep(m, t, keep);
    var m2 := TakeStep(m1, t, keep);
    PutTwice(m.consumers, t, m1.consumers[t], m2.consumers[t]);
    PutTwice(m.consumers, t, m2.consumers[t], TakeStep(m2, t, keep).consumers[t]);
  }

  // Its handler is given what is in the slot and, with no other pop on the way, the slot is free again.
  lemma SpmcDrainAlone<T>(m: Spmc<T>, t: Thread, keep: bool)
    requires t in m.consumers && m.consumers[t].PopHandle? && |m.slots| == Pow2(m.n)
      && m.minWrite == m.consumers[t].ticket
    ensures var k := m.consumers[t].ticket;
      && Slot(k, m.n) < |m.slots|
      && TakeTurns(m, t, 2, keep) == m.(consumers := m.consumers[t := Idle], minWrite := m.minWrite + 1,
           popped := m.popped[k := m.slots[Slot(k, m.n)]])
  {
    SlotInBounds(m.consumers[t].ticket, m.n);
    hide Pow2, Slot;
    PutTwice(m.consumers, t, TakeStep(m, t, keep).consumers[t], Idle);
  }
}
