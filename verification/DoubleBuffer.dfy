/** The double-buffered event queue and the loop that drains it: producers fill one buffer under a
    mutex while the consumer empties the other, and the two are swapped when that one is empty. */
module DoubleBuffer {
  import opened Collections
  import opened RingIndex

  class Buffer<T> {
    const n: nat
    const slots: array<T>
    var readIndex: nat
    var writeIndex: nat
    ghost var queue: seq<T>

    ghost predicate Valid()
      reads this, slots
    {
      && slots.Length == Pow2(n)
      && readIndex <= writeIndex <= readIndex + Pow2(n) && |queue| == writeIndex - readIndex
      && Holds(slots[..], readIndex, n, queue)
    }

    constructor (n: nat, slots: array<T>)
      requires slots.Length == Pow2(n)
      ensures Valid() && queue == [] && this.n == n && this.slots == slots
    {
      this.n, this.slots := n, slots;
      readIndex, writeIndex, queue := 0, 0, [];
    }

    method Push(event: T) returns (ok: bool)
      requires Valid()
      modifies `writeIndex, `queue, slots
      ensures Valid() && ok == (|old(queue)| < Pow2(n))
      ensures queue == if ok then old(queue) + [event] else old(queue)
    {
      ok := writeIndex - readIndex < slots.Length;
      if ok {
        CopyElsewhere(slots[..], readIndex, n, queue, writeIndex, event);
        ghost var before := slots[..];
        slots[Slot(writeIndex, n)] := event;
        assert slots[..] == before[Slot(writeIndex, n) := event];
        HoldsOneMore(slots[..], readIndex, n, queue, event);
        writeIndex := writeIndex + 1;
        queue := queue + [event];
      }
    }

    // The slot of the event that has been popped; it is left as it is.
    method Pop() returns (popped: bool, slot: nat)
      requires Valid()
      modifies `readIndex, `queue
      ensures Valid() && popped == (old(queue) != [])
      ensures popped ==> queue == old(queue)[1..] && slot < slots.Length && slots[slot] == old(queue)[0]
      ensures !popped ==> queue == old(queue)
    {
      popped := writeIndex > readIndex;
      slot := 0;
      if popped {
        HoldsOneLess(slots[..], readIndex, n, queue);
        slot := Slot(readIndex, n);
        readIndex := readIndex + 1;
        queue := queue[1..];
      }
    }
  }

  class DoubleBufferQueue<T> {
    var active: Buffer<T>
    var standby: Buffer<T>

    ghost predicate Valid()
      reads this, active, active.slots, standby, standby.slots
    {
      && active != standby && active.slots != standby.slots && active.n == standby.n
      && active.Valid() && standby.Valid()
    }

    // The one queue that the two buffers stand for.
    ghost function Contents(): seq<T>
      reads this, active, standby
    {
      active.queue + standby.queue
    }

    ghost function Now(): Queues<T>
      reads this, active, standby
    {
      Queues(active.queue, standby.queue)
    }

    // The buffers are those of before, swapped perhaps.
    ghost predicate Same(was: (Buffer<T>, Buffer<T>))
      reads this
    {
      (active, standby) == was || (standby, active) == was
    }

    constructor (n: nat, slots1: array<T>, slots2: array<T>)
      requires slots1 != slots2 && slots1.Length == slots2.Length == Pow2(n)
      ensures Valid() && Contents() == [] && fresh(active) && fresh(standby)
        && {active.slots, standby.slots} == {slots1, slots2}
    {
      active := new Buffer(n, slots1);
      standby := new Buffer(n, slots2);
    }

    // Any producer, under the mutex.
    method Push(event: T) returns (ok: bool)
      requires Valid()
      modifies standby, standby.slots
      ensures Valid() && ok == (|old(standby.queue)| < Pow2(standby.n)) && |standby.queue| <= Pow2(standby.n)
      ensures active.queue == old(active.queue)
      ensures standby.queue == if ok then old(standby.queue) + [event] else old(standby.queue)
      ensures Contents() == (if ok then old(Contents()) + [event] else old(Contents()))
    {
      ok := standby.Push(event);
      if ok {
        assert active.queue + (old(standby.queue) + [event]) == (active.queue + old(standby.queue)) + [event];
      }
    }

    // Pushes of any producers, one after the other: they are accepted in this order while there is room.
    method PushAll(events: seq<T>) returns (accepted: seq<T>)
      requires Valid()
      modifies standby, standby.slots
      ensures Valid() && accepted == Fit(events, Pow2(standby.n) - |old(standby.queue)|)
      ensures active.queue == old(active.queue) && standby.queue == old(standby.queue) + accepted
    {
      hide Holds, Slot, Pow2, Fit, DoubleBufferQueue.Contents;
      accepted := [];
      ghost var before := standby.queue;
      FitNone(events, Pow2(standby.n) - |before|);
      for i := 0 to |events|
        invariant Valid() && active.queue == old(active.queue) && standby.queue == before + accepted
        invariant accepted == Fit(events[..i], Pow2(standby.n) - |before|)
      {
        FitMore(events, i, Pow2(standby.n) - |before|);
        Associate(before, accepted, [events[i]]);
        var ok := Push(events[i]);
        if ok {
          accepted := accepted + [events[i]];
        }
      }
    }

    method Pop() returns (popped: bool, slot: nat)
      requires Valid()
      modifies active
      ensures Valid() && active == old(active) && popped == (old(active.queue) != [])
      ensures popped ==>
        active.queue == old(active.queue)[1..] && slot < active.slots.Length
          && active.slots[slot] == old(active.queue)[0]
      ensures popped ==> old(Contents()) == [active.slots[slot]] + Contents()
      ensures !popped ==> active.queue == old(active.queue) && Contents() == old(Contents())
    {
      popped, slot := active.Pop();
      if popped {
        assert old(active.queue) == [old(active.queue)[0]] + active.queue;
      }
    }

    // The consumer, when the active buffer is empty.
    method SwapBuffer() returns (ok: bool)
      requires Valid() && active.queue == []
      modifies this
      ensures Valid() && (active, standby) == (if ok then old((standby, active)) else old((active, standby)))
      ensures Contents() == old(Contents()) && ok == (Contents() != [])
      ensures ok == (old(standby.queue) != []) && active.queue == old(standby.queue) && standby.queue == []
    {
      ok := standby.writeIndex != standby.readIndex;
      if ok {
        active, standby := standby, active;
        assert [] + active.queue == active.queue + [];
      }
    }
  }

  // ---------- the loop that drains the queue ----------

  // The events that find room, of those that are pushed one after the other.
  function Fit<T>(events: seq<T>, room: int): seq<T> {
    if |events| <= room then events else if room > 0 then events[..room] else []
  }

  lemma FitMore<T>(events: seq<T>, i: nat, room: int)
    requires i < |events|
    ensures var before := Fit(events[..i], room);
      Fit(events[..i + 1], room) == if |before| < room then before + [events[i]] else before
  {
  }

  lemma FitNone<T>(events: seq<T>, room: int)
    ensures Fit(events[..0], room) == [] && events[..|events|] == events
  {
  }

  lemma FitTwice<T>(early: seq<T>, late: seq<T>, room: int)
    requires room >= 0
    ensures var first := Fit(early, room); Fit(early + late, room) == first + Fit(late, room - |first|)
  {
  }

  datatype Queues<T> = Queues(active: seq<T>, standby: seq<T>)

  function All<T>(q: Queues<T>): seq<T> { q.active + q.standby }

  datatype Outcome<T> = Outcome(q: Queues<T>, handled: seq<T>, accepted: seq<T>, turns: nat, goOn: bool)

  // What one turn of the loop does if `pushes` come in meanwhile: the head of the active queue is
  // handled, or else the queues are exchanged if anything is there.
  function AfterTurn<T>(q: Queues<T>, capacity: nat, isQuit: T -> bool, pushes: seq<T>): Outcome<T> {
    var accepted := Fit(pushes, capacity - |q.standby|);
    var standby := q.standby + accepted;
    if q.active != [] then
      Outcome(Queues(q.active[1..], standby), [q.active[0]], accepted, 1, !isQuit(q.active[0]))
    else
      Outcome(Queues(standby, []), [], accepted, 1, standby != [])
  }

  function AfterTurns<T>(q: Queues<T>, capacity: nat, isQuit: T -> bool, pushes: nat -> seq<T>,
      times: nat): Outcome<T> {
    if times == 0 then Outcome(q, [], [], 0, true)
    else
      var o := AfterTurns(q, capacity, isQuit, pushes, times - 1);
      if !o.goOn then o
      else
        var last := AfterTurn(o.q, capacity, isQuit, pushes(times - 1));
        Outcome(last.q, o.handled + last.handled, o.accepted + last.accepted, times, last.goOn)
  }

  lemma TurnKeepsOrder<T>(q: Queues<T>, capacity: nat, isQuit: T -> bool, pushes: seq<T>)
    ensures var o := AfterTurn(q, capacity, isQuit, pushes); o.handled + All(o.q) == All(q) + o.accepted
  {
    if q.active != [] {
      assert [q.active[0]] + q.active[1..] == q.active;
    }
  }

  // Nothing is lost, none is handled twice and the order is that of acceptance.  Every second turn handles
  // an event, a quit event is the last one handled, and the loop ends early only at such an event or when
  // nothing is queued.
  ghost predicate InOrder<T>(q: Queues<T>, isQuit: T -> bool, o: Outcome<T>) {
    && o.handled + All(o.q) == All(q) + o.accepted
    && o.turns <= 2 * |o.handled| + (if o.goOn && o.q.active == [] then 0 else 1)
    && (forall i :: 0 <= i < |o.handled| && (o.goOn || i < |o.handled| - 1) ==> !isQuit(o.handled[i]))
    && (!o.goOn ==> All(o.q) == [] || (o.handled != [] && isQuit(o.handled[|o.handled| - 1])))
  }

  lemma TurnInOrder<T>(q: Queues<T>, capacity: nat, isQuit: T -> bool, o: Outcome<T>, pushes: seq<T>)
    requires InOrder(q, isQuit, o) && o.goOn
    ensures var last := AfterTurn(o.q, capacity, isQuit, pushes);
      InOrder(q, isQuit, Outcome(last.q, o.handled + last.handled, o.accepted + last.accepted, o.turns + 1, last.goOn))
  {
    var last := AfterTurn(o.q, capacity, isQuit, pushes);
    TurnKeepsOrder(o.q, capacity, isQuit, pushes);
    DrainMore(All(q), o.accepted, o.handled, All(o.q), last.handled, last.accepted, All(last.q));
    hide All, Fit;
    if o.q.active == [] {
      EmptyAll(last.q);
    }
  }

  lemma EmptyAll<T>(q: Queues<T>)
    requires q.standby == []
    ensures All(q) == q.active
  {
  }

  lemma {:induction false} LoopInOrder<T>(q: Queues<T>, capacity: nat, isQuit: T -> bool, pushes: nat -> seq<T>,
      times: nat)
    ensures var o := AfterTurns(q, capacity, isQuit, pushes, times);
      InOrder(q, isQuit, o) && o.turns <= times && (o.goOn ==> o.turns == times)
  {
    if times > 0 {
      LoopInOrder(q, capacity, isQuit, pushes, times - 1);
      hide InOrder, AfterTurn;
      var o := AfterTurns(q, capacity, isQuit, pushes, times - 1);
      if o.goOn {
        TurnInOrder(q, capacity, isQuit, o, pushes(times - 1));
      }
    }
  }

  lemma {:induction false} LoopStops<T>(q: Queues<T>, capacity: nat, isQuit: T -> bool, pushes: nat -> seq<T>, n: nat,
      times: nat)
    requires n <= times && !AfterTurns(q, capacity, isQuit, pushes, n).goOn
    ensures AfterTurns(q, capacity, isQuit, pushes, times) == AfterTurns(q, capacity, isQuit, pushes, n)
    decreases times
  {
    if n < times {
      LoopStops(q, capacity, isQuit, pushes, n, times - 1);
    }
  }

  // One turn of EventLoopQueue::loop.  Producers may push before the pop (`early`) and after it
  // (`late`), before the type of the popped event is looked at or the buffers are swapped.
  method Turn<T>(q: DoubleBufferQueue<T>, isQuit: T -> bool, early: seq<T>, late: seq<T>)
    returns (goOn: bool, handled: seq<T>, accepted: seq<T>)
    requires q.Valid()
    modifies q, q.active, q.active.slots, q.standby, q.standby.slots
    ensures q.Valid() && q.Same(old((q.active, q.standby)))
    ensures Outcome(q.Now(), handled, accepted, 1, goOn) ==
      AfterTurn(old(q.Now()), Pow2(q.standby.n), isQuit, early + late)
  {
    hide Holds, Slot, Pow2, Fit, DoubleBufferQueue.Contents;
    FitTwice(early, late, Pow2(q.standby.n) - |q.standby.queue|);
    ghost var standby := q.standby.queue;
    accepted := q.PushAll(early);
    var popped, slot := q.Pop();
    handled := if popped then [q.active.slots[slot]] else [];
    var more := q.PushAll(late);
    Associate(standby, accepted, more);
    accepted := accepted + more;
    if popped {
      // The popped event is read again; nobody has written to its slot.
      goOn := !isQuit(q.active.slots[slot]);
    } else {
      goOn := q.SwapBuffer();
    }
  }

  function Pushes<T>(early: nat -> seq<T>, late: nat -> seq<T>): nat -> seq<T> { (i: nat) => early(i) + late(i) }

  // EventLoopQueue::loop: whatever producers push meanwhile, events are handled in the order in which
  // they were accepted, none is lost and none is handled twice.
  method Loop<T>(q: DoubleBufferQueue<T>, isQuit: T -> bool, times: nat, early: nat -> seq<T>, late: nat -> seq<T>)
    returns (handled: seq<T>, accepted: seq<T>, turns: nat)
    requires q.Valid()
    modifies q, q.active, q.active.slots, q.standby, q.standby.slots
    ensures q.Valid() && handled + q.Contents() == old(q.Contents()) + accepted
    ensures var o := AfterTurns(old(q.Now()), Pow2(q.standby.n), isQuit, Pushes(early, late), times);
      o == Outcome(q.Now(), handled, accepted, turns, o.goOn)
    ensures turns <= times && turns <= 2 * |handled| + 1
    ensures turns < times ==> (handled != [] && isQuit(handled[|handled| - 1])) || q.Contents() == []
    ensures forall i :: 0 <= i < |handled| - 1 ==> !isQuit(handled[i])
  {
    hide Holds, Slot, Pow2, AfterTurn;
    handled, accepted, turns := [], [], 0;
    ghost var before, capacity := q.Now(), Pow2(q.standby.n);
    ghost var pushes := Pushes(early, late);
    var goOn := true;
    while turns < times && goOn
      invariant q.Valid() && q.Same(old((q.active, q.standby))) && Pow2(q.standby.n) == capacity
      invariant turns <= times
      invariant Outcome(q.Now(), handled, accepted, turns, goOn) == AfterTurns(before, capacity, isQuit, pushes, turns)
      decreases times - turns
    {
      var h, a;
      goOn, h, a := Turn(q, isQuit, early(turns), late(turns));
      handled, accepted := handled + h, accepted + a;
      turns := turns + 1;
    }
    LoopInOrder(before, capacity, isQuit, pushes, turns);
    if !goOn {
      LoopStops(before, capacity, isQuit, pushes, turns, times);
    }
  }
}
