/** The timers of a SEDA stage: a fixed pool, a list of those that are free and a list of the active ones
    by deadline.  SedaTimerQueue inserts where the deadline belongs; SedaLRUTimerQueue, whose timers all
    have one interval, appends.

    The lists are sequences here, each with its own count; they are linked like those of TimerList.  An
    expired timer keeps its active flag; when such a one is cancelled or updated, the links that are mended
    are those of the wrong list. */
module SedaTimers {
  import opened Basics
  import opened Collections

  type TimerId = nat

  datatype SedaTimer = SedaTimer(param: int, endClock: int, interval: nat, isActive: bool)

  type Pool = map<TimerId, SedaTimer>

  const BLANK := SedaTimer(0, 0, 0, false)

  ghost function Deadlines(pool: Pool): map<TimerId, int> { map t | t in pool :: pool[t].endClock }

  function End(pool: Pool, t: TimerId): (e: int)
    ensures e == KeyOf(Deadlines(pool), t)
  {
    if t in pool then pool[t].endClock else 0
  }

  // The timers are in the order of their deadlines.
  ghost predicate Ordered(q: seq<TimerId>, pool: Pool) { SortedBy(q, Deadlines(pool)) }

  // Every timer of the pool is in exactly one of the lists, once.
  ghost predicate Partition(free: seq<TimerId>, active: seq<TimerId>, pool: Pool) {
    && NoDup(free) && NoDup(active)
    && (forall t :: t in pool <==> t in free || t in active)
    && (forall t :: t in free ==> t !in active)
  }

  // Where SedaTimerQueue puts a timer: behind the last one whose deadline is earlier.
  function Place(q: seq<TimerId>, ends: map<TimerId, int>, t: TimerId): seq<TimerId> {
    if q == [] || KeyOf(ends, q[|q| - 1]) < KeyOf(ends, t) then q + [t]
    else Place(q[..|q| - 1], ends, t) + [q[|q| - 1]]
  }

  ghost function Arranged(lru: bool, q: seq<TimerId>, pool: Pool, t: TimerId): seq<TimerId> {
    if lru then q + [t] else Place(q, Deadlines(pool), t)
  }

  // Place i has an earlier deadline just before it, if anything, and none earlier behind it.
  ghost predicate Suits(q: seq<TimerId>, ends: map<TimerId, int>, t: TimerId, i: nat) {
    && i <= |q| && (i > 0 ==> KeyOf(ends, q[i - 1]) < KeyOf(ends, t))
    && forall j :: i <= j < |q| ==> KeyOf(ends, t) <= KeyOf(ends, q[j])
  }

  // That is where the timer is put: ahead of those that have the same deadline.
  lemma {:induction false} PlaceSuits(q: seq<TimerId>, ends: map<TimerId, int>, t: TimerId)
    ensures exists i: nat :: Suits(q, ends, t, i) && Place(q, ends, t) == q[..i] + [t] + q[i..]
    decreases |q|
  {
    hide KeyOf;
    if q == [] || KeyOf(ends, q[|q| - 1]) < KeyOf(ends, t) {
      assert Suits(q, ends, t, |q|) && q[..|q|] + [t] + q[|q|..] == q + [t];
    } else {
      var front := q[..|q| - 1];
      PlaceSuits(front, ends, t);
      var i: nat :| Suits(front, ends, t, i) && Place(front, ends, t) == front[..i] + [t] + front[i..];
      assert Suits(q, ends, t, i);
      LastBehind(q, t, i);
    }
  }

  lemma LastBehind(q: seq<TimerId>, t: TimerId, i: nat)
    requires i < |q|
    ensures var front := q[..|q| - 1]; front[..i] + [t] + front[i..] + [q[|q| - 1]] == q[..i] + [t] + q[i..]
  {
  }

  lemma PlaceBefore(q: seq<TimerId>, ends: map<TimerId, int>, t: TimerId, i: nat)
    requires i < |q| && KeyOf(ends, t) <= KeyOf(ends, q[i])
    ensures Place(q[..i + 1], ends, t) + q[i + 1..] == Place(q[..i], ends, t) + q[i..]
  {
    var front := q[..i + 1];
    assert front[..|front| - 1] == q[..i] && front[|front| - 1] == q[i];
    assert Place(q[..i], ends, t) + [q[i]] + q[i + 1..] == Place(q[..i], ends, t) + q[i..];
  }

  class Queue {
    // Whether this is a SedaLRUTimerQueue, and its one interval.
    const lru: bool
    const lruInterval: nat
    var pool: Pool
    var free: seq<TimerId>
    var freeSize: nat
    var active: seq<TimerId>
    var activeSize: nat
    var lastClock: int

    ghost predicate Valid()
      reads this
    {
      Partition(free, active, pool) && freeSize == |free| && activeSize == |active| && (!lru ==> Ordered(active, pool))
    }

    ghost predicate Sorted()
      reads this
    {
      Ordered(active, pool)
    }

    constructor (size: nat, lru: bool, lruInterval: nat)
      ensures Valid() && Sorted() && active == [] && free == UpTo(size) && |free| == |pool| == size && lastClock == 0
      ensures this.lru == lru && this.lruInterval == lruInterval
    {
      this.lru, this.lruInterval := lru, lruInterval;
      free := UpTo(size);
      pool := map t | t in UpTo(size) :: BLANK;
      freeSize, active, activeSize, lastClock := size, [], 0, 0;
      new;
      NewPool(pool, size);
    }

    // Into the active list, if that is right.
    method Insert(t: TimerId)
      requires Partition(free, active + [t], pool) && t in pool && (!lru ==> Ordered(active, pool))
      requires freeSize == |free| && activeSize == |active|
      modifies `active, `activeSize
      ensures Valid() && active == Arranged(lru, old(active), pool, t)
    {
      ghost var before := active;
      ghost var i := Link(t);
      if !lru {
        PlaceOk(free, before, pool, t, i);
        PlaceOrdered(before, pool, t, i);
      }
    }

    // Into the active list, whatever state that is in: at the end, or behind the last timer that expires earlier.
    method Link(t: TimerId) returns (ghost i: nat)
      requires activeSize <= |active|
      modifies `active, `activeSize
      ensures i <= |old(active)| && active == old(active)[..i] + [t] + old(active)[i..]
        && activeSize == old(activeSize) + 1
      ensures lru ==> i == |old(active)| && active == old(active) + [t]
      ensures !lru && old(activeSize) == |old(active)| && t in pool ==> BelongsAt(old(active), pool, t, i)
    {
      if lru {
        i := |active|;
        active := active + [t];
      } else {
        var k := FindPlace(t);
        i := k;
        active := active[..k] + [t] + active[k..];
      }
      activeSize := activeSize + 1;
    }

    // The loop from the back over as many timers as the list counts, while they do not expire earlier.
    method FindPlace(t: TimerId) returns (i: nat)
      requires activeSize <= |active|
      ensures i <= |active|
      ensures forall j :: i <= j < |active| && |active| - activeSize <= j ==> End(pool, t) <= End(pool, active[j])
      ensures i > 0 ==> |active| - i < activeSize && End(pool, active[i - 1]) < End(pool, t)
      ensures activeSize == |active| && t in pool ==> BelongsAt(active, pool, t, i)
    {
      hide End, Place, BelongsAt;
      i := |active|;
      ghost var ends := Deadlines(pool);
      assert active[..i] == active && active[i..] == [];
      while |active| - i < activeSize && End(pool, t) <= End(pool, active[i - 1])
        invariant |active| - activeSize <= i <= |active|
        invariant forall j :: i <= j < |active| ==> End(pool, t) <= End(pool, active[j])
        invariant Place(active, ends, t) == Place(active[..i], ends, t) + active[i..]
      {
        i := i - 1;
        PlaceBefore(active, ends, t, i);
      }
      if activeSize == |active| {
        PlaceFound(active, pool, t, i);
      }
      if |active| - i == activeSize {
        i := 0;
      }
    }

    // active_list_.remove: an expired timer is in the free list, so that is where it is unlinked, but the active
    // list counts one less, and forgets its timers when it comes to none.
    method TakeOff(t: TimerId)
      requires Valid() && t in pool
      modifies `pool, `free, `active, `activeSize
      ensures t in old(active) ==> active == Drop(old(active), t) && free == old(free) && activeSize == |active|
      ensures pool == if old(active) == [] then old(pool) else old(pool)[t := BLANK]
      ensures t !in old(active) ==> Astray(old(free), old(active), free, active, activeSize)
    {
      if activeSize == 0 {
        return;
      }
      activeSize := activeSize - 1;
      if t in active {
        DropMembers(active, t);
        active := Drop(active, t);
      } else {
        free := Tear();
        active := if activeSize == 0 then [] else active;
      }
      pool := pool[t := BLANK];
    }

    // The free list after its links have been damaged: some of its timers are still reached.
    method Tear() returns (q: seq<TimerId>)
      ensures forall x :: x in q ==> x in free
    {
      q := [];
      q :| forall x :: x in q ==> x in free;
    }

    method SetTimer(interval: nat, param: int, now: int) returns (timer: Option<TimerId>)
      requires Valid()
      modifies `pool, `free, `freeSize, `active, `activeSize
      ensures Valid() && (timer == None <==> old(free) == [])
      ensures timer == None ==> pool == old(pool) && free == old(free) && active == old(active)
      ensures timer.Some? ==>
        var i := if lru then lruInterval else interval;
        && timer.value == old(free)[0] && free == old(free)[1..]
        && active == Arranged(lru, old(active), pool, timer.value)
        && pool == old(pool)[timer.value := SedaTimer(param, now + i, i, true)]
      // With one interval and a clock that does not run backwards, appending keeps the order.
      ensures lru && old(Sorted()) && Within(old(active), old(pool), now + lruInterval) ==>
        Sorted() && Within(active, pool, now + lruInterval)
    {
      hide Within, Deadlines, Partition, SortedBy, NoDup;
      if free == [] {
        return None;
      }
      var t := free[0];
      var i := if lru then lruInterval else interval;
      var x := SedaTimer(param, now + i, i, true);
      TakeFree(free, active, pool, x);
      if Ordered(active, pool) {
        OrderedSame(active, pool, t, x);
      }
      free, freeSize := free[1..], freeSize - 1;
      pool := pool[t := x];
      Insert(t);
      if lru && old(Sorted()) && Within(old(active), old(pool), now + lruInterval) {
        AppendOrdered(old(active), old(pool), t, x, now + lruInterval);
      }
      timer := Some(t);
    }

    // The lists stay as they should exactly if the timer is not flagged or really is in the active list.
    method CancelTimer(t: TimerId) returns (ret: int)
      requires Valid() && t in pool
      modifies `pool, `free, `freeSize, `active, `activeSize
      ensures Valid() <==> (old(pool)[t].isActive ==> t in old(active))
      ensures ret == (if old(pool)[t].isActive then 0 else -1)
      ensures pool.Keys == old(pool).Keys && freeSize == old(freeSize) + if ret == 0 then 1 else 0
      ensures Valid() && ret == 0 ==>
        free == [t] + old(free) && active == Drop(old(active), t) && pool == old(pool)[t := BLANK]
      ensures ret != 0 ==> free == old(free) && active == old(active) && pool == old(pool)
      ensures Valid() && old(Sorted()) ==> Sorted()
    {
      if !pool[t].isActive {
        return -1;
      }
      ret := 0;
      if t in active {
        TakeActive(free, active, pool, t, BLANK);
        TakeOff(t);
        free, freeSize := [t] + free, freeSize + 1;
      } else {
        ghost var free0, active0, pool0 := free, active, pool;
        TakeOff(t);
        free := Tear();
        freeSize := freeSize + 1;
        CancelledAstray(free0, active0, pool0, t, free, freeSize, active, activeSize, pool);
      }
    }

    // Taking the timer off its list blanks it, so the new deadline is now and its parameter is lost.
    method UpdateTimer(t: TimerId, now: int) returns (ret: int)
      requires Valid() && t in pool
      modifies `pool, `free, `active, `activeSize
      ensures Valid() <==> (old(pool)[t].isActive ==> t in old(active))
      ensures ret == (if old(pool)[t].isActive then 0 else -1)
      ensures ret == 0 ==> pool == old(pool)[t :=
        if old(active) == [] then old(pool)[t].(endClock := now + old(pool)[t].interval)
          else SedaTimer(0, now, 0, true)]
      ensures Valid() && ret == 0 ==>
        && pool == old(pool)[t := SedaTimer(0, now, 0, true)] && active == Arranged(lru, Drop(old(active), t), pool, t)
        && free == old(free)
      ensures ret != 0 ==> free == old(free) && active == old(active) && pool == old(pool)
      // The appending queue stays in order exactly if no other timer has its deadline still before it.
      ensures Valid() && ret == 0 && lru && old(Sorted()) ==>
        (Sorted() <==> Within(Drop(old(active), t), old(pool), now))
    {
      if !pool[t].isActive {
        return -1;
      }
      ret := 0;
      if t in active {
        TakeActive(free, active, pool, t, SedaTimer(0, now, 0, true));
        ghost var rest, pool0 := Drop(active, t), pool;
        TakeOff(t);
        pool := pool[t := pool[t].(endClock := now + pool[t].interval, isActive := true)];
        assert pool == pool0[t := SedaTimer(0, now, 0, true)];
        Insert(t);
        if lru && old(Sorted()) {
          AppendOrderedIff(rest, pool0, t, SedaTimer(0, now, 0, true));
        }
      } else {
        ghost var free0, active0, pool0 := free, active, pool;
        TakeOff(t);
        pool := pool[t := pool[t].(endClock := now + pool[t].interval, isActive := true)];
        ghost var active1, size1 := active, activeSize;
        ghost var i := Link(t);
        UpdatedAstray(free0, active0, pool0, t, free, active1, size1, i, pool);
      }
    }

    // Fires, in the order of the list, while the first timer is due; nothing unless the clock has advanced.
    method Expire(now: int) returns (fired: seq<TimerId>)
      requires Valid()
      modifies `free, `freeSize, `active, `activeSize, `lastClock
      ensures Valid() && pool == old(pool) && old(active) == fired + active && freeSize == old(freeSize) + |fired|
      ensures now <= old(lastClock) ==> fired == [] && lastClock == old(lastClock)
      ensures now > old(lastClock) ==> lastClock == now && (active != [] ==> End(pool, active[0]) > now)
      ensures forall t :: t in fired ==> End(pool, t) <= now
      // In order, so exactly the due timers are fired, by deadline.
      ensures old(Sorted()) ==> Sorted() && Ordered(fired, pool)
      ensures old(Sorted()) && now > old(lastClock) ==> forall t :: t in old(active) ==>
        (t in fired <==> End(pool, t) <= now)
    {
      hide Partition, End, Within;
      fired := [];
      MoveHead(fired, active);
      NoneWithin(pool, now);
      if now <= lastClock {
        FiredIs(fired, active, pool, now);
        return;
      }
      lastClock := now;
      while active != [] && now >= End(pool, active[0])
        invariant Valid() && old(active) == fired + active && lastClock == now && freeSize == old(freeSize) + |fired|
        invariant Within(fired, pool, now)
        decreases |active|
      {
        fired := FireFront(fired, now);
      }
      FiredIs(fired, active, pool, now);
    }

    // The loop's body.
    method FireFront(fired: seq<TimerId>, ghost now: int) returns (more: seq<TimerId>)
      requires Valid() && active != [] && Within(fired, pool, now) && End(pool, active[0]) <= now
      modifies `free, `freeSize, `active, `activeSize
      ensures Valid() && more + active == fired + old(active) && |more| == |fired| + 1 && |active| == |old(active)| - 1
      ensures freeSize == old(freeSize) + 1 && Within(more, pool, now)
    {
      hide Partition, Ordered, End;
      var t := active[0];
      MoveHead(fired, active);
      ExpireOne(free, active, pool);
      active, activeSize := active[1..], activeSize - 1;
      free, freeSize := [t] + free, freeSize + 1;
      more := fired + [t];
    }
  }

  lemma PlaceFound(q: seq<TimerId>, pool: Pool, t: TimerId, i: nat)
    requires i <= |q| && Place(q, Deadlines(pool), t) == Place(q[..i], Deadlines(pool), t) + q[i..]
    requires forall j :: i <= j < |q| ==> End(pool, t) <= End(pool, q[j])
    requires i > 0 ==> End(pool, q[i - 1]) < End(pool, t)
    ensures BelongsAt(q, pool, t, i)
  {
    hide End;
    assert i > 0 ==> q[..i][i - 1] == q[i - 1];
  }

  // Place i of the list is where Place puts the timer.
  ghost predicate BelongsAt(q: seq<TimerId>, pool: Pool, t: TimerId, i: nat) {
    && i <= |q| && q[..i] + [t] + q[i..] == Place(q, Deadlines(pool), t)
    && (forall j :: i <= j < |q| ==> End(pool, t) <= End(pool, q[j]))
    && (i > 0 ==> End(pool, q[i - 1]) < End(pool, t))
  }

  // ---------- a timer that is flagged but not in the active list ----------

  // What taking it off leaves.
  ghost predicate Astray(free: seq<TimerId>, active: seq<TimerId>, free1: seq<TimerId>, active1: seq<TimerId>,
      size1: nat) {
    if active == [] then free1 == free && active1 == [] && size1 == 0
    else
      && (forall x :: x in free1 ==> x in free)
      && size1 == |active| - 1 && active1 == if size1 == 0 then [] else active
  }

  ghost function Members(q: seq<TimerId>): set<TimerId> { set x | x in q }

  lemma {:induction false} MembersCount(q: seq<TimerId>)
    requires NoDup(q)
    ensures |Members(q)| == |q|
  {
    if q != [] {
      NoDupTail(q);
      MembersCount(q[1..]);
      assert q[0] in q && Members(q) - {q[0]} == Members(q[1..]);
      SetSize(Members(q), q[0]);
    }
  }

  // No timer is forgotten or counted twice.
  lemma CancelledAstray(free: seq<TimerId>, active: seq<TimerId>, pool: Pool, t: TimerId,
      free1: seq<TimerId>, freeSize1: nat, active1: seq<TimerId>, size1: nat, pool1: Pool)
    requires Partition(free, active, pool) && t in pool && t !in active && pool1.Keys == pool.Keys
    requires freeSize1 == |free| + 1 && active1 == (if |active| <= 1 then [] else active)
    requires (forall x :: x in free1 ==> x in free) && size1 == if active == [] then 0 else |active| - 1
    ensures !(Partition(free1, active1, pool1) && freeSize1 == |free1| && size1 == |active1|)
  {
    if active == [] {
      MembersCount(free);
      if NoDup(free1) {
        MembersCount(free1);
      }
      Subset(Members(free1), Members(free));
    } else {
      assert active[0] in active && active[0] in pool && active[0] !in free;
    }
  }

  lemma UpdatedAstray(free: seq<TimerId>, active: seq<TimerId>, pool: Pool, t: TimerId,
      free1: seq<TimerId>, active1: seq<TimerId>, size1: nat, i: nat, pool1: Pool)
    requires Partition(free, active, pool) && t in pool && t !in active && pool1.Keys == pool.Keys
    requires Astray(free, active, free1, active1, size1) && i <= |active1|
    ensures var active2 := active1[..i] + [t] + active1[i..];
      !(Partition(free1, active2, pool1) && size1 + 1 == |active2|)
  {
    var active2 := active1[..i] + [t] + active1[i..];
    assert t in free && active2[i] == t;
    if |active| == 1 {
      assert active[0] in active && active[0] in pool && active2 == [t];
    }
  }

  // No timer of the list has its deadline after e.
  ghost predicate Within(q: seq<TimerId>, pool: Pool, e: int) {
    forall t :: t in q ==> End(pool, t) <= e
  }

  lemma NewPool(pool: Pool, size: nat)
    requires pool == map t | t in UpTo(size) :: BLANK
    ensures Partition(UpTo(size), [], pool) && |pool| == size && |UpTo(size)| == size
  {
    UpToIs(size);
    PoolSize(pool, size);
  }

  lemma {:induction false} PoolSize(pool: Pool, size: nat)
    requires forall t :: t in pool <==> 0 <= t < size
    ensures |pool| == size
    decreases size
  {
    if size == 0 {
      assert pool == map[];
    } else {
      var last := size - 1;
      PoolSize(pool - {last}, last);
      assert pool.Keys == (pool - {last}).Keys + {last};
    }
  }

  // A timer of the pool is set anew; it is the last of the list that is being built.
  lemma TakeFree(free: seq<TimerId>, active: seq<TimerId>, pool: Pool, x: SedaTimer)
    requires Partition(free, active, pool) && free != []
    ensures Partition(free[1..], active + [free[0]], pool[free[0] := x]) && free[0] !in active
  {
    NoDupTail(free);
    NoDupAppend(active, [free[0]]);
    assert forall y :: y in active + [free[0]] <==> y in active || y == free[0];
  }

  lemma TakeActive(free: seq<TimerId>, active: seq<TimerId>, pool: Pool, t: TimerId, x: SedaTimer)
    requires Partition(free, active, pool) && t in active
    ensures Partition(free, Drop(active, t) + [t], pool[t := x]) && t !in Drop(active, t)
    ensures Partition([t] + free, Drop(active, t), pool[t := x])
    ensures Ordered(active, pool) ==> Ordered(Drop(active, t), pool[t := x]) && Ordered(Drop(active, t), pool)
  {
    DropMembers(active, t);
    NoDupAppend(Drop(active, t), [t]);
    NoDupAppend([t], free);
    assert forall y :: y in Drop(active, t) + [t] <==> y in active;
    assert forall y :: y in [t] + free <==> y in free || y == t;
    if Ordered(active, pool) {
      SortedDrop(active, t, Deadlines(pool));
      OrderedSame(Drop(active, t), pool, t, x);
    }
  }

  lemma OrderedSame(q: seq<TimerId>, pool: Pool, t: TimerId, x: SedaTimer)
    requires t !in q && Ordered(q, pool)
    ensures Ordered(q, pool[t := x])
  {
    SortedSame(q, Deadlines(pool), Deadlines(pool[t := x]));
  }

  lemma PlaceOk(free: seq<TimerId>, active: seq<TimerId>, pool: Pool, t: TimerId, i: nat)
    requires Partition(free, active + [t], pool) && i <= |active|
    ensures Partition(free, active[..i] + [t] + active[i..], pool)
  {
    PlaceMembers(active, t, i);
    PlaceNoDup(active, t, i);
    hide NoDup;
  }

  lemma PlaceMembers(active: seq<TimerId>, t: TimerId, i: nat)
    requires i <= |active|
    ensures forall y :: y in active[..i] + [t] + active[i..] <==> y in active + [t]
  {
    assert active == active[..i] + active[i..];
  }

  lemma PlaceNoDup(active: seq<TimerId>, t: TimerId, i: nat)
    requires NoDup(active + [t]) && i <= |active|
    ensures NoDup(active[..i] + [t] + active[i..])
  {
    var all := active + [t];
    assert all[|active|] == t && forall j :: 0 <= j < |active| ==> all[j] == active[j];
    InsertedIs(active, i, t);
  }

  lemma PlaceOrdered(active: seq<TimerId>, pool: Pool, t: TimerId, i: nat)
    requires Ordered(active, pool) && i <= |active| && t in pool
    requires forall j :: i <= j < |active| ==> End(pool, t) <= End(pool, active[j])
    requires i > 0 ==> End(pool, active[i - 1]) < End(pool, t)
    ensures Ordered(active[..i] + [t] + active[i..], pool)
  {
    forall j | 0 <= j < i
      ensures End(pool, active[j]) <= End(pool, t)
    {
      SortedMeans(active, Deadlines(pool), j, i - 1);
    }
    SortedInsert(active, Deadlines(pool), t, i);
  }

  lemma AppendOrdered(active: seq<TimerId>, pool: Pool, t: TimerId, x: SedaTimer, e: int)
    requires Ordered(active, pool) && t !in active && Within(active, pool, e) && x.endClock == e
    ensures Ordered(active + [t], pool[t := x]) && Within(active + [t], pool[t := x], e)
  {
    OrderedSame(active, pool, t, x);
    SortedAppend(active, Deadlines(pool[t := x]), t);
    assert forall y :: y in active + [t] <==> y in active || y == t;
  }

  lemma AppendOrderedIff(rest: seq<TimerId>, pool: Pool, t: TimerId, x: SedaTimer)
    requires Ordered(rest, pool) && t !in rest
    ensures Ordered(rest + [t], pool[t := x]) <==> Within(rest, pool, x.endClock)
  {
    var pool1, q := pool[t := x], rest + [t];
    if Within(rest, pool, x.endClock) {
      AppendOrdered(rest, pool, t, x, x.endClock);
    }
    if Ordered(q, pool1) {
      forall y | y in rest
        ensures End(pool, y) <= x.endClock
      {
        var i :| 0 <= i < |rest| && rest[i] == y;
        SortedMeans(q, Deadlines(pool1), i, |rest|);
      }
    }
  }

  lemma ExpireOne(free: seq<TimerId>, active: seq<TimerId>, pool: Pool)
    requires Partition(free, active, pool) && active != []
    ensures Partition([active[0]] + free, active[1..], pool)
    ensures Ordered(active, pool) ==> Ordered(active[1..], pool)
  {
    NoDupTail(active);
    NoDupAppend([active[0]], free);
    assert forall y :: y in [active[0]] + free <==> y in free || y == active[0];
  }

  lemma NoneWithin(pool: Pool, e: int)
    ensures Within([], pool, e)
  {
  }

  // What has been fired, if the front of the rest is not due.
  lemma FiredIs(fired: seq<TimerId>, active: seq<TimerId>, pool: Pool, now: int)
    requires Within(fired, pool, now)
    ensures forall t :: t in fired ==> End(pool, t) <= now
    ensures Ordered(fired + active, pool) ==> Ordered(active, pool) && Ordered(fired, pool)
    ensures Ordered(fired + active, pool) && (active != [] ==> End(pool, active[0]) > now) ==>
      forall t :: t in fired + active ==> (t in fired <==> End(pool, t) <= now)
  {
    hide End, SortedBy;
    if Ordered(fired + active, pool) {
      SortedParts(fired, active, Deadlines(pool));
      FrontIsNext(active, pool);
    }
  }

  // If the first timer is not due, none is.
  lemma FrontIsNext(active: seq<TimerId>, pool: Pool)
    requires Ordered(active, pool)
    ensures forall t :: t in active ==> End(pool, active[0]) <= End(pool, t)
  {
    forall t | t in active
      ensures End(pool, active[0]) <= End(pool, t)
    {
      var i :| 0 <= i < |active| && active[i] == t;
      SortedMeans(active, Deadlines(pool), 0, i);
    }
  }

  // ---------- the two queues compared ----------

  function EndsOf(q: seq<TimerId>, ends: map<TimerId, int>): seq<int> {
    if q == [] then [] else EndsOf(q[..|q| - 1], ends) + [KeyOf(ends, q[|q| - 1])]
  }

  // With one interval and a clock that does not run backwards, no deadline is later than that of the
  // timer being set: appending it gives the same sequence of deadlines as placing it.
  lemma {:induction false} AppendIsPlace(q: seq<TimerId>, ends: map<TimerId, int>, t: TimerId)
    requires SortedBy(q, ends) && forall x :: x in q ==> KeyOf(ends, x) <= KeyOf(ends, t)
    ensures EndsOf(Place(q, ends, t), ends) == EndsOf(q + [t], ends) == EndsOf(q, ends) + [KeyOf(ends, t)]
    decreases |q|
  {
    hide SortedBy;
    assert (q + [t])[..|q|] == q;
    if q != [] && KeyOf(ends, q[|q| - 1]) >= KeyOf(ends, t) {
      var front, last := q[..|q| - 1], q[|q| - 1];
      assert q == front + [last];
      SortedParts(front, [last], ends);
      AppendIsPlace(front, ends, t);
      var placed := Place(front, ends, t) + [last];
      assert placed[..|placed| - 1] == Place(front, ends, t);
    }
  }

  lemma {:induction false} EndsAt(q: seq<TimerId>, ends: map<TimerId, int>)
    ensures |EndsOf(q, ends)| == |q| && forall i :: 0 <= i < |q| ==> EndsOf(q, ends)[i] == KeyOf(ends, q[i])
    decreases |q|
  {
    if q != [] {
      EndsAt(q[..|q| - 1], ends);
    }
  }

  // The deadlines of the active timers, in their order.
  ghost function Due(q: Queue): seq<int>
    reads q
  {
    EndsOf(q.active, Deadlines(q.pool))
  }

  // Either queue, if no deadline is later than the new one.
  lemma SetEnds(lru: bool, active: seq<TimerId>, pool: Pool, t: TimerId, x: SedaTimer)
    requires t !in active && Ordered(active, pool) && forall e :: e in EndsOf(active, Deadlines(pool)) ==>
      e <= x.endClock
    ensures var pool1 := pool[t := x];
      EndsOf(Arranged(lru, active, pool1, t), Deadlines(pool1)) == EndsOf(active, Deadlines(pool)) + [x.endClock]
  {
    var ends, ends1 := Deadlines(pool), Deadlines(pool[t := x]);
    EndsAt(active, ends);
    EndsAt(active, ends1);
    OrderedSame(active, pool, t, x);
    assert EndsOf(active, ends1) == EndsOf(active, ends);
    forall y | y in active
      ensures KeyOf(ends1, y) <= KeyOf(ends1, t)
    {
      var i :| 0 <= i < |active| && active[i] == y;
      assert EndsOf(active, ends)[i] in EndsOf(active, ends);
    }
    AppendIsPlace(active, ends1, t);
  }

  lemma EndsJoin(q: seq<TimerId>, r: seq<TimerId>, ends: map<TimerId, int>)
    ensures EndsOf(q + r, ends) == EndsOf(q, ends) + EndsOf(r, ends)
  {
    EndsAt(q + r, ends);
    EndsAt(q, ends);
    EndsAt(r, ends);
    hide EndsOf, KeyOf;
  }

  // Expiry takes off the deadlines that are not after now: how many depends on the deadlines alone.
  lemma ExpireEnds(fired: seq<TimerId>, active: seq<TimerId>, pool: Pool, now: int)
    requires Within(fired, pool, now) && (active != [] ==> End(pool, active[0]) > now)
    ensures var ends := EndsOf(fired + active, Deadlines(pool));
      && |fired| <= |ends| && (forall i :: 0 <= i < |fired| ==> ends[i] <= now)
      && (|fired| < |ends| ==> ends[|fired|] > now)
      && EndsOf(active, Deadlines(pool)) == ends[|fired|..] && EndsOf(fired, Deadlines(pool)) == ends[..|fired|]
  {
    var ends := Deadlines(pool);
    EndsJoin(fired, active, ends);
    EndsAt(fired, ends);
    EndsAt(active, ends);
    hide EndsOf;
    assert forall i :: 0 <= i < |fired| ==> fired[i] in fired;
  }

  datatype Operation = Setting(param: int, now: int) | Expiring(now: int)

  // The clock does not run backwards.
  ghost predicate Clocked(ops: seq<Operation>, clock: int)
    decreases |ops|
  {
    ops != [] ==> clock <= ops[0].now && Clocked(ops[1..], ops[0].now)
  }

  // A queue that inserts and one that appends, of equal size, whose timers are due at the same times.
  ghost predicate Alike(a: Queue, b: Queue, clock: int)
    reads a, b
  {
    && a != b && a.Valid() && b.Valid() && !a.lru && b.lru && b.Sorted() && |a.free| == |b.free|
    && a.lastClock == b.lastClock
    && Due(a) == Due(b) && forall e :: e in Due(a) ==> e <= clock + b.lruInterval
  }

  method SetBoth(a: Queue, b: Queue, param: int, now: int, ghost clock: int)
    requires Alike(a, b, clock) && clock <= now
    modifies a, b
    ensures Alike(a, b, now)
    ensures Due(a) == old(Due(a)) + if old(a.free) == [] then [] else [now + b.lruInterval]
  {
    hide Partition, Ordered, Within, EndsOf, Deadlines, Arranged, KeyOf;
    ghost var i := b.lruInterval;
    if a.free != [] {
      NotActive(a.free, a.active, a.pool);
      NotActive(b.free, b.active, b.pool);
      SetEnds(false, a.active, a.pool, a.free[0], SedaTimer(param, now + i, i, true));
      SetEnds(true, b.active, b.pool, b.free[0], SedaTimer(param, now + i, i, true));
      DueWithin(b.active, b.pool, now + i);
    }
    var _ := a.SetTimer(b.lruInterval, param, now);
    var _ := b.SetTimer(b.lruInterval, param, now);
  }

  lemma NotActive(free: seq<TimerId>, active: seq<TimerId>, pool: Pool)
    requires Partition(free, active, pool) && free != []
    ensures free[0] !in active
  {
    assert free[0] in free;
  }

  lemma DueWithin(active: seq<TimerId>, pool: Pool, e: int)
    requires forall d :: d in EndsOf(active, Deadlines(pool)) ==> d <= e
    ensures Within(active, pool, e)
  {
    EndsAt(active, Deadlines(pool));
    forall t | t in active
      ensures End(pool, t) <= e
    {
      var i :| 0 <= i < |active| && active[i] == t;
      assert EndsOf(active, Deadlines(pool))[i] in EndsOf(active, Deadlines(pool));
    }
  }

  method ExpireBoth(a: Queue, b: Queue, now: int, ghost clock: int) returns (firedA: seq<TimerId>, firedB: seq<TimerId>)
    requires Alike(a, b, clock) && clock <= now
    modifies a, b
    ensures Alike(a, b, now) && a.pool == old(a.pool) && b.pool == old(b.pool)
    // They fire timers of the same deadlines.
    ensures EndsOf(firedA, Deadlines(a.pool)) == EndsOf(firedB, Deadlines(b.pool))
    ensures EndsOf(firedA, Deadlines(a.pool)) + Due(a) == old(Due(a))
  {
    hide Partition, Ordered, End, EndsOf;
    ghost var due := Due(a);
    firedA := a.Expire(now);
    firedB := b.Expire(now);
    if now > old(a.lastClock) {
      BothExpired(firedA, a.active, a.pool, firedB, b.active, b.pool, now);
    } else {
      NothingExpired(a.active, a.pool, b.active, b.pool);
    }
    StillAmong(EndsOf(firedA, Deadlines(a.pool)), Due(a));
    assert due == EndsOf(firedA, Deadlines(a.pool)) + Due(a);
    assert |a.free| == |b.free|;
  }

  lemma StillAmong(gone: seq<int>, left: seq<int>)
    ensures forall e :: e in left ==> e in gone + left
  {
  }

  lemma BothExpired(fired: seq<TimerId>, active: seq<TimerId>, pool: Pool, fired1: seq<TimerId>, active1: seq<TimerId>,
      pool1: Pool, now: int)
    requires EndsOf(fired + active, Deadlines(pool)) == EndsOf(fired1 + active1, Deadlines(pool1))
    requires (forall t :: t in fired ==> End(pool, t) <= now) && (forall t :: t in fired1 ==> End(pool1, t) <= now)
    requires active != [] ==> End(pool, active[0]) > now
    requires active1 != [] ==> End(pool1, active1[0]) > now
    ensures |fired| == |fired1| && EndsOf(fired, Deadlines(pool)) == EndsOf(fired1, Deadlines(pool1))
    ensures EndsOf(active, Deadlines(pool)) == EndsOf(active1, Deadlines(pool1))
    ensures EndsOf(fired, Deadlines(pool)) + EndsOf(active, Deadlines(pool)) == EndsOf(fired + active, Deadlines(pool))
  {
    FiredWithin(fired, pool, now);
    FiredWithin(fired1, pool1, now);
    ExpireEnds(fired, active, pool, now);
    ExpireEnds(fired1, active1, pool1, now);
    hide EndsOf, End;
    var ends := EndsOf(fired + active, Deadlines(pool));
    SameCut(ends, |fired|, |fired1|, now);
  }

  lemma SameCut(ends: seq<int>, k: nat, k1: nat, now: int)
    requires k <= |ends| && k1 <= |ends|
    requires (forall i :: 0 <= i < k ==> ends[i] <= now) && (forall i :: 0 <= i < k1 ==> ends[i] <= now)
    requires (k < |ends| ==> ends[k] > now) && (k1 < |ends| ==> ends[k1] > now)
    ensures k == k1 && ends[..k] + ends[k..] == ends
  {
  }

  lemma NothingExpired(active: seq<TimerId>, pool: Pool, active1: seq<TimerId>, pool1: Pool)
    ensures EndsOf([], Deadlines(pool)) == EndsOf([], Deadlines(pool1)) == []
    ensures [] + active == active && [] + active1 == active1
    ensures [] + EndsOf(active, Deadlines(pool)) == EndsOf(active, Deadlines(pool))
  {
  }

  lemma FiredWithin(fired: seq<TimerId>, pool: Pool, now: int)
    requires forall t :: t in fired ==> End(pool, t) <= now
    ensures Within(fired, pool, now)
  {
  }

  // In any run of settings and expiries with one interval and a clock that does not run backwards, the appending queue
  // always has the deadlines of the inserting one, in the same order.
  method RunBoth(a: Queue, b: Queue, ops: seq<Operation>, ghost clock: int)
    requires Alike(a, b, clock) && Clocked(ops, clock)
    modifies a, b
    ensures Due(a) == Due(b) && a.Valid() && b.Valid() && b.Sorted()
  {
    hide Partition, Ordered;
    ghost var now := clock;
    assert ops[0..] == ops;
    for i := 0 to |ops|
      invariant Alike(a, b, now) && Clocked(ops[i..], now)
    {
      assert ops[i..][0] == ops[i] && ops[i..][1..] == ops[i + 1..];
      match ops[i] {
        case Setting(param, at) => SetBoth(a, b, param, at, now);
        case Expiring(at) => var _, _ := ExpireBoth(a, b, at, now);
      }
      now := ops[i].now;
    }
  }

  // Where that goes wrong: a timer of 10 ms that is updated 1 ms later is due at once, but stands behind one
  // that is due at 10 ms, so at 5 ms it is not fired.
  method UpdateHidesADueTimer() returns (q: Queue, t: TimerId, fired: seq<TimerId>)
    ensures q.Valid() && !q.Sorted() && q.lastClock == 5
    ensures t in q.active && t in q.pool && q.pool[t].endClock == 1 && fired == []
  {
    hide Partition, Ordered, Place;
    q := new Queue(2, true, 10);
    var first := q.SetTimer(10, 0, 0);
    var second := q.SetTimer(10, 0, 0);
    t := first.value;
    var other := second.value;
    TwoFree(2);
    assert q.active == [t, other] && t != other;
    var ret := q.UpdateTimer(t, 1);
    assert other in Drop([t, other], t);
    assert !q.Sorted() && q.active == [other, t];
    fired := q.Expire(5);
    FirstOf([other, t], fired, q.active);
  }

  // Where the flag does harm: the only timer of a pool has expired and is cancelled; the free list then counts two.
  method CancelAnExpiredTimer() returns (q: Queue, t: TimerId)
    ensures !q.Valid() && q.pool.Keys == {t} && q.freeSize == 2
  {
    hide Ordered;
    q := new Queue(1, false, 0);
    OneFree(1);
    assert q.free == [0];
    var timer := q.SetTimer(10, 0, 0);
    t := timer.value;
    assert q.active == [t] && q.pool.Keys == {0};
    var fired := q.Expire(10);
    FirstOf([t], fired, q.active);
    assert q.active == [] && fired == [t];
    var ret := q.CancelTimer(t);
  }

  lemma OneFree(n: nat)
    requires n == 1
    ensures UpTo(n) == [0]
  {
  }

  lemma FirstOf(all: seq<TimerId>, front: seq<TimerId>, rest: seq<TimerId>)
    requires all == front + rest
    ensures if front == [] then rest == all else all != [] && all[0] in front
  {
    if front != [] {
      assert all[0] == front[0];
    }
  }

  lemma TwoFree(n: nat)
    requires n == 2
    ensures UpTo(n) == [0, 1]
  {
  }
}
