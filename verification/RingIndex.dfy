/** Where a ring queue keeps the event of a ticket: `index & (capacity - 1)`. */
module RingIndex {

  function Pow2(n: nat): (p: nat)
    ensures p > 0
  {
    if n == 0 then 1 else 2 * Pow2(n - 1)
  }

  // Bitwise and, bit by bit.
  function And(a: nat, b: nat): nat {
    if a == 0 || b == 0 then 0
    else 2 * And(a / 2, b / 2) + (if a % 2 == 1 && b % 2 == 1 then 1 else 0)
  }

  function Slot(index: nat, n: nat): nat { And(index, Pow2(n) - 1) }

  lemma {:induction false} AndZero(a: nat)
    ensures And(a, 0) == 0 && And(0, a) == 0
  {
  }

  // The mask 2^n - 1 keeps the last bit and masks the others with 2^(n-1) - 1.
  lemma SlotStep(index: nat, n: nat)
    requires n > 0
    ensures Slot(index, n) == 2 * Slot(index / 2, n - 1) + index % 2
  {
    var mask := Pow2(n) - 1;
    assert mask / 2 == Pow2(n - 1) - 1 && mask % 2 == 1;
    AndZero(mask);
    AndZero(Pow2(n - 1) - 1);
  }

  lemma {:induction false} SlotInBounds(index: nat, n: nat)
    ensures Slot(index, n) < Pow2(n)
    decreases n
  {
    if n == 0 {
      AndZero(index);
    } else {
      SlotStep(index, n);
      SlotInBounds(index / 2, n - 1);
    }
  }

  // Different tickets of a window no longer than the capacity have different slots.
  lemma {:induction false} SlotInjective(i: nat, j: nat, n: nat)
    requires i < j < i + Pow2(n)
    ensures Slot(i, n) != Slot(j, n)
    decreases n
  {
    if n > 0 {
      SlotStep(i, n);
      SlotStep(j, n);
      if i % 2 == j % 2 {
        SlotInjective(i / 2, j / 2, n - 1);
      }
    }
  }

  // A whole turn of the ring comes back to the same slot.
  lemma {:induction false} SlotPeriodic(i: nat, n: nat)
    ensures Slot(i + Pow2(n), n) == Slot(i, n)
    decreases n
  {
    if n == 0 {
      AndZero(i);
      AndZero(i + 1);
    } else {
      SlotStep(i, n);
      SlotStep(i + Pow2(n), n);
      assert (i + Pow2(n)) / 2 == i / 2 + Pow2(n - 1);
      SlotPeriodic(i / 2, n - 1);
    }
  }

  ghost predicate At<T>(slots: seq<T>, index: nat, n: nat, event: T) {
    Slot(index, n) < |slots| && slots[Slot(index, n)] == event
  }

  // The slots hold the events of a queue whose first ticket is `read`.
  ghost predicate Holds<T>(slots: seq<T>, read: nat, n: nat, queue: seq<T>)
    decreases queue
  {
    queue != [] ==> At(slots, read, n, queue[0]) && Holds(slots, read + 1, n, queue[1..])
  }

  // Copying an event into the next free slot disturbs no live one.
  lemma {:induction false} CopyElsewhere<T>(slots: seq<T>, read: nat, n: nat, queue: seq<T>, w: nat, event: T)
    requires |slots| == Pow2(n) && Holds(slots, read, n, queue) && read + |queue| <= w < read + Pow2(n)
    ensures Slot(w, n) < |slots|
    ensures Holds(slots[Slot(w, n) := event], read, n, queue) && At(slots[Slot(w, n) := event], w, n, event)
    decreases queue
  {
    SlotInBounds(w, n);
    if queue != [] {
      SlotInjective(read, w, n);
      CopyElsewhere(slots, read + 1, n, queue[1..], w, event);
    }
  }

  lemma {:induction false} HoldsOneMore<T>(slots: seq<T>, read: nat, n: nat, queue: seq<T>, event: T)
    requires Holds(slots, read, n, queue) && At(slots, read + |queue|, n, event)
    ensures Holds(slots, read, n, queue + [event])
    decreases queue
  {
    var queue1 := queue + [event];
    if queue == [] {
      assert queue1[1..] == [];
    } else {
      HoldsOneMore(slots, read + 1, n, queue[1..], event);
      assert queue1[1..] == queue[1..] + [event];
    }
  }

  lemma HoldsOneLess<T>(slots: seq<T>, read: nat, n: nat, queue: seq<T>)
    requires Holds(slots, read, n, queue) && queue != []
    ensures At(slots, read, n, queue[0]) && Holds(slots, read + 1, n, queue[1..])
  {
  }
}
