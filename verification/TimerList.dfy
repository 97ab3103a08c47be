/** The intrusive list of timers: nodes whose outer links point to themselves, and a head node that
    points to the first and the last of them. */
module TimerList {
  import opened Collections

  class Timer {
    var next: Timer
    var prev: Timer
    var interval: int
    var enabled: bool
    // Whether timer_queue_ is set.
    var queued: bool
    var expireTime: int

    constructor ()
      ensures next == this && prev == this && !queued && interval == 0 && enabled && expireTime == 0
    {
      next, prev, interval, enabled, queued, expireTime := this, this, 0, true, false, 0;
    }

    method Init() returns (ok: bool)
      modifies this
      ensures ok == !old(queued) && queued == old(queued)
      ensures ok ==> next == this && prev == this && interval == 0 && enabled && expireTime == 0
      ensures !ok ==> next == old(next) && prev == old(prev)
      ensures !ok ==> interval == old(interval) && enabled == old(enabled) && expireTime == old(expireTime)
    {
      ok := !queued;
      if ok {
        prev, next, interval, enabled, expireTime := this, this, 0, true, 0;
      }
    }
  }

  class List {
    const head: Timer
    var size: nat
    ghost var elems: seq<Timer>

    ghost predicate Valid()
      reads this, head, elems
    {
      && head !in elems && !head.queued && size == |elems| && Linked(elems)
      && head.next == (if elems == [] then head else elems[0])
      && head.prev == (if elems == [] then head else elems[|elems| - 1])
    }

    constructor ()
      ensures Valid() && elems == [] && fresh(head)
    {
      head := new Timer();
      size, elems := 0, [];
    }

    method PushBack(timer: Timer)
      requires Valid() && timer != head && timer !in elems
      modifies `size, `elems, head`next, head`prev, timer`next, timer`prev, elems`next, elems`prev
      ensures Valid() && elems == old(elems) + [timer]
    {
      timer.next := timer;
      if head.next == head {
        timer.prev := timer;
        head.next := timer;
      } else {
        timer.prev := head.prev;
        head.prev.next := timer;
      }
      head.prev := timer;
      size := size + 1;
      elems := elems + [timer];
    }

    method PushFront(timer: Timer)
      requires Valid() && timer != head && timer !in elems
      modifies `size, `elems, head`next, head`prev, timer`next, timer`prev, elems`next, elems`prev
      ensures Valid() && elems == [timer] + old(elems)
    {
      timer.prev := timer;
      if head.next == head {
        timer.next := timer;
        head.prev := timer;
      } else {
        timer.next := head.next;
        head.next.prev := timer;
      }
      head.next := timer;
      size := size + 1;
      elems := [timer] + elems;
    }

    // The popped timer keeps its own link to what was the second one.
    method PopFront()
      requires Valid()
      modifies `size, `elems, head, elems`prev
      ensures Valid() && elems == (if old(elems) == [] then [] else old(elems)[1..])
      ensures forall t :: t in old(elems) ==> t.next == old(t.next)
    {
      if head.next != head {
        ghost var rest := elems[1..];
        assert forall i :: 0 <= i < |rest| ==> rest[i] == elems[i + 1];
        assert head.next.next == elems[if 1 < |elems| then 1 else 0];
        head.next := head.next.next;
        head.next.prev := head.next;
        size := size - 1;
        elems := rest;
        if size == 0 {
          var _ := head.Init();
        }
      }
    }

    method PopBack()
      requires Valid()
      modifies `size, `elems, head, elems`next
      ensures Valid() && elems == (if old(elems) == [] then [] else old(elems)[..|old(elems)| - 1])
      ensures forall t :: t in old(elems) ==> t.prev == old(t.prev)
    {
      if head.next != head {
        ghost var rest := elems[..|elems| - 1];
        assert forall i :: 0 <= i < |rest| ==> rest[i] == elems[i];
        assert head.prev.prev == elems[if 1 < |elems| then |elems| - 2 else 0];
        head.prev := head.prev.prev;
        head.prev.next := head.prev;
        size := size - 1;
        elems := rest;
        if size == 0 {
          var _ := head.Init();
        }
      }
    }

    method InsertBefore(pos: Timer, timer: Timer, ghost k: nat)
      requires Valid() && timer != head && timer !in elems && k < |elems| && elems[k] == pos
      modifies `size, `elems, head`next, head`prev, timer`next, timer`prev, elems`next, elems`prev
      ensures Valid() && elems == Inserted(old(elems), k, timer)
    {
      hide Linked, Nexts, Prevs, NextsBut, PrevsBut, Inserted, NoDup;
      InsertedFacts(elems, k, timer, head);
      ghost var e, e1 := elems, Inserted(elems, k, timer);
      LinkBefore(pos, timer, k);
      if pos == head.next {
        head.next := timer;
        timer.prev := timer;
      }
      PrevsAll(e1, k);
      AllLinked(e1);
      size := size + 1;
      elems := e1;
    }

    // All links but, before the first timer, that of the new one to itself.
    method LinkBefore(pos: Timer, timer: Timer, ghost k: nat)
      requires Valid() && timer != head && timer !in elems && k < |elems| && elems[k] == pos
      modifies timer`next, timer`prev, elems`next, elems`prev
      ensures Nexts(Inserted(elems, k, timer)) && PrevsBut(Inserted(elems, k, timer), timer)
        && timer.prev == Before(elems, k)
    {
      hide Inserted, NoDup;
      ghost var e, e1 := elems, Inserted(elems, k, timer);
      InsertedIs(e, k, timer);
      OnlyAt(e, k);
      OnlyAt(e, if k > 0 then k - 1 else 0);
      assert pos.prev == Before(e, k);
      timer.next := pos;
      timer.prev := pos.prev;
      if pos != pos.prev {
        pos.prev.next := timer;
      }
      pos.prev := timer;
      assert Nexts(e1);
    }

    method InsertAfter(pos: Timer, timer: Timer, ghost k: nat)
      requires Valid() && timer != head && timer !in elems && k < |elems| && elems[k] == pos
      modifies `size, `elems, head`next, head`prev, timer`next, timer`prev, elems`next, elems`prev
      ensures Valid() && elems == Inserted(old(elems), k + 1, timer)
    {
      hide Linked, Nexts, Prevs, NextsBut, PrevsBut, Inserted, NoDup;
      InsertedFacts(elems, k + 1, timer, head);
      ghost var e, e1 := elems, Inserted(elems, k + 1, timer);
      LinkAfter(pos, timer, k);
      if pos == head.prev {
        head.prev := timer;
        timer.next := timer;
      }
      NextsAll(e1, k + 1);
      AllLinked(e1);
      size := size + 1;
      elems := e1;
    }

    // All links but, after the last timer, that of the new one to itself.
    method LinkAfter(pos: Timer, timer: Timer, ghost k: nat)
      requires Valid() && timer != head && timer !in elems && k < |elems| && elems[k] == pos
      modifies timer`next, timer`prev, elems`next, elems`prev
      ensures Prevs(Inserted(elems, k + 1, timer)) && NextsBut(Inserted(elems, k + 1, timer), timer)
        && timer.next == After(elems, k)
    {
      hide Inserted;
      ghost var e, e1 := elems, Inserted(elems, k + 1, timer);
      InsertedIs(e, k + 1, timer);
      OnlyAt(e, k);
      OnlyAt(e, if k + 1 < |e| then k + 1 else k);
      hide NoDup;
      assert pos.next == After(e, k);
      timer.next := pos.next;
      timer.prev := pos;
      if pos != pos.next {
        pos.next.prev := timer;
      }
      pos.next := timer;
      assert NextsBut(e1, timer);
    }

    // The removed timer is initialised afresh if its queue has let go of it, so it loses its interval.
    method Remove(timer: Timer, ghost k: nat)
      requires Valid() && timer != head && (elems != [] ==> k < |elems| && elems[k] == timer)
      modifies `size, `elems, head, timer, elems`next, elems`prev
      ensures Valid() && elems == if old(elems) == [] then [] else Removed(old(elems), k)
      ensures timer.queued == old(timer.queued)
      ensures old(elems) != [] && !timer.queued ==>
        timer.next == timer.prev == timer && timer.interval == 0 && timer.enabled
      ensures old(elems) == [] || timer.queued ==>
        timer.interval == old(timer.interval) && timer.enabled == old(timer.enabled)
    {
      if size == 0 {
        return;
      }
      hide Linked, Removed;
      TakeOut(timer, k);
      var _ := timer.Init();
    }

    // The list without the timer; one that becomes empty has its head initialised.
    method TakeOut(timer: Timer, ghost k: nat)
      requires Valid() && timer != head && k < |elems| && elems[k] == timer
      modifies `size, `elems, head, timer`next, timer`prev, elems`next, elems`prev
      ensures Valid() && elems == Removed(old(elems), k) && timer !in elems
    {
      hide Removed, Linked;
      ghost var e1 := Removed(elems, k);
      OutOfRemoved(elems, k, head);
      Unlink(timer, k);
      size := size - 1;
      elems := e1;
      if size == 0 {
        var _ := head.Init();
      }
    }

    // The links around the timer; the head still points to it if it is the only one.
    method Unlink(timer: Timer, ghost k: nat)
      requires Valid() && timer != head && k < |elems| && elems[k] == timer
      modifies head`next, head`prev, timer`next, timer`prev, elems`next, elems`prev
      ensures Linked(Removed(elems, k))
      ensures var e1 := Removed(elems, k); e1 != [] ==> head.next == e1[0] && head.prev == e1[|e1| - 1]
    {
      hide Linked, Nexts, Prevs, NextsBut, PrevsBut, Removed, NoDup;
      RemovedFacts(elems, k, head);
      ghost var e1 := Removed(elems, k);
      Bypass(timer, k);
      if timer == head.next {
        head.next := timer.next;
        head.next.prev := head.next;
        if e1 != [] {
          PrevsAll(e1, 0);
        }
      }
      if timer == head.prev {
        head.prev := timer.prev;
        head.prev.next := head.prev;
        if e1 != [] {
          NextsAll(e1, |e1| - 1);
        }
      }
      AllLinked(e1);
    }

    // The neighbours are linked to each other; at either end one link still leads to the timer.
    method Bypass(timer: Timer, ghost k: nat)
      requires Valid() && timer != head && k < |elems| && elems[k] == timer
      modifies timer`next, timer`prev, elems`next, elems`prev
      ensures timer.next == After(elems, k) && timer.prev == Before(elems, k)
      ensures var e1 := Removed(elems, k);
        && (if k > 0 then Prevs(e1) else e1 != [] ==> PrevsBut(e1, e1[0]))
        && (if k + 1 < |elems| || k == 0 then Nexts(e1) else NextsBut(e1, e1[k - 1]))
    {
      hide Removed, NoDup;
      ghost var e, e1 := elems, Removed(elems, k);
      RemovedIs(e, k);
      OnlyAt(e, k);
      OnlyAt(e, if k > 0 then k - 1 else 0);
      OnlyAt(e, if k + 1 < |e| then k + 1 else k);
      assert timer.prev == Before(e, k) && timer.next == After(e, k);
      timer.prev.next := timer.next;
      timer.next.prev := timer.prev;
    }
  }

  // Neighbours point to each other, the outermost two to themselves.
  ghost predicate Linked(elems: seq<Timer>)
    reads elems`next, elems`prev
  {
    NoDup(elems) && Nexts(elems) && Prevs(elems)
  }

  ghost predicate Nexts(elems: seq<Timer>)
    reads elems`next
  {
    forall i {:trigger elems[i].next} :: 0 <= i < |elems| ==> elems[i].next == After(elems, i)
  }

  ghost predicate Prevs(elems: seq<Timer>)
    reads elems`prev
  {
    forall i {:trigger elems[i].prev} :: 0 <= i < |elems| ==> elems[i].prev == Before(elems, i)
  }

  // With nothing said about the link of one timer.
  ghost predicate NextsBut(elems: seq<Timer>, timer: Timer)
    reads (set t | t in elems && t != timer)`next
  {
    forall i {:trigger elems[i].next} :: 0 <= i < |elems| && elems[i] != timer ==> elems[i].next == After(elems, i)
  }

  ghost predicate PrevsBut(elems: seq<Timer>, timer: Timer)
    reads (set t | t in elems && t != timer)`prev
  {
    forall i {:trigger elems[i].prev} :: 0 <= i < |elems| && elems[i] != timer ==> elems[i].prev == Before(elems, i)
  }

  lemma NextsAll(elems: seq<Timer>, k: nat)
    requires k < |elems| && NoDup(elems) && NextsBut(elems, elems[k]) && elems[k].next == After(elems, k)
    ensures Nexts(elems)
  {
    OnlyAt(elems, k);
  }

  lemma PrevsAll(elems: seq<Timer>, k: nat)
    requires k < |elems| && NoDup(elems) && PrevsBut(elems, elems[k]) && elems[k].prev == Before(elems, k)
    ensures Prevs(elems)
  {
    OnlyAt(elems, k);
  }

  ghost function After(elems: seq<Timer>, i: nat): Timer
    requires i < |elems|
  {
    elems[if i + 1 < |elems| then i + 1 else i]
  }

  ghost function Before(elems: seq<Timer>, i: nat): Timer
    requires i < |elems|
  {
    elems[if i > 0 then i - 1 else i]
  }

  lemma InsertedFacts(e: seq<Timer>, k: nat, timer: Timer, head: Timer)
    requires Linked(e) && k <= |e| && e != [] && timer !in e && head !in e && timer != head
    ensures var e1 := Inserted(e, k, timer);
      && |e1| == |e| + 1 && NoDup(e1) && head !in e1 && e1[k] == timer
      && e1[0] == (if k == 0 then timer else e[0]) && e1[|e|] == (if k == |e| then timer else e[|e| - 1])
      && (k > 0 ==> e1[k - 1] == e[k - 1]) && (k < |e| ==> e1[k + 1] == e[k])
    ensures k < |e| ==> (e[k] == e[0] <==> k == 0)
    ensures k > 0 ==> (e[k - 1] == e[|e| - 1] <==> k == |e|)
  {
    InsertedIs(e, k, timer);
  }

  lemma RemovedFacts(e: seq<Timer>, k: nat, head: Timer)
    requires Linked(e) && k < |e| && head !in e
    ensures var e1 := Removed(e, k);
      && |e1| == |e| - 1 && NoDup(e1) && head !in e1 && e[k] !in e1
      && (k > 0 ==> e1[0] == e[0] && e1[k - 1] == e[k - 1])
      && (k + 1 < |e| ==> e1[|e| - 2] == e[|e| - 1] && e1[k] == e[k + 1])
    ensures (e[k] == e[0] <==> k == 0) && (e[k] == e[|e| - 1] <==> k + 1 == |e|)
  {
    RemovedIs(e, k);
  }

  lemma AllLinked(e: seq<Timer>)
    requires NoDup(e) && (e != [] ==> Nexts(e) && Prevs(e))
    ensures Linked(e)
  {
  }

  lemma OutOfRemoved(e: seq<Timer>, k: nat, other: Timer)
    requires Linked(e) && k < |e| && other !in e
    ensures |Removed(e, k)| == |e| - 1 && e[k] !in Removed(e, k) && other !in Removed(e, k)
  {
    RemovedIs(e, k);
  }

}
