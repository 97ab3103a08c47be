/** The timer queue: timers of equal interval share a list, and because clocks do not run backwards every
    list is in the order in which its timers expire.

    The lists are sequences here; TimerList shows that the linked ones behave like them. */
module TimerQueue {
  import opened Collections

  type TimerId = nat

  datatype Timer = Timer(interval: int, enabled: bool, cycle: bool, queued: bool, expireTime: int)

  type Timers = map<TimerId, Timer>

  // The list holds armed timers of its interval, sorted by the time when they expire.
  ghost predicate ListOk(q: seq<TimerId>, interval: int, timers: Timers, now: int) {
    && NoDup(q)
    && (forall t :: t in q ==>
         t in timers && timers[t].queued && timers[t].interval == interval && timers[t].expireTime <= now + interval)
    && Sorted(q, timers)
  }

  ghost function Expiries(timers: Timers): map<TimerId, int> { map t | t in timers :: timers[t].expireTime }

  // The timers expire in the order of the list.
  ghost predicate Sorted(q: seq<TimerId>, timers: Timers) { SortedBy(q, Expiries(timers)) }

  ghost predicate ListsOk(lists: map<int, seq<TimerId>>, timers: Timers, now: int) {
    forall k :: k in lists ==> ListOk(lists[k], k, timers, now)
  }

  ghost predicate Listed(lists: map<int, seq<TimerId>>, timers: Timers) {
    forall t :: t in timers && timers[t].queued ==> timers[t].interval in lists && t in lists[timers[t].interval]
  }

  // The list of an interval; it is made when the first timer needs it.
  function Entries(lists: map<int, seq<TimerId>>, k: int): seq<TimerId> {
    if k in lists then lists[k] else []
  }

  function Armed(x: Timer, now: int): Timer { x.(queued := true, expireTime := now + x.interval) }

  // A timer that is taken off its list is initialised.
  function Disarmed(x: Timer): Timer { Timer(0, true, x.cycle, false, 0) }

  function Lapsed(x: Timer): Timer { x.(queued := false) }

  predicate Due(t: Timer, now: int) { t.queued && t.expireTime <= now }

  class TimerQueue {
    // All the timers there are, in this queue or not.
    var timers: Timers
    var lists: map<int, seq<TimerId>>
    // The latest timestamp seen.
    ghost var clock: int

    ghost predicate Valid()
      reads this
    {
      ListsOk(lists, timers, clock) && Listed(lists, timers)
    }

    constructor (timers: Timers, clock: int)
      requires forall t :: t in timers ==> !timers[t].queued
      ensures Valid() && this.timers == timers && this.clock == clock
    {
      this.timers, this.clock, lists := timers, clock, map[];
    }

    // Arms a timer that is enabled and not armed.
    method AddTimer(t: TimerId, now: int) returns (ret: int)
      requires Valid() && t in timers && now >= clock
      modifies this
      ensures Valid() && clock == now
      ensures ret == if old(timers[t]).enabled && !old(timers[t]).queued then 1 else 0
      ensures timers == if ret == 0 then old(timers) else
        old(timers)[t := old(timers)[t].(queued := true, expireTime := now + old(timers)[t].interval)]
    {
      LaterClock(lists, timers, clock, now);
      hide ListsOk, Listed;
      clock := now;
      ret := 0;
      if timers[t].enabled && !timers[t].queued {
        var k := timers[t].interval;
        Arm(lists, timers, t, now);
        timers := timers[t := Armed(timers[t], now)];
        lists := lists[k := Entries(lists, k) + [t]];
        ret := 1;
      }
    }

    // Disarms an armed timer.  Taking it off its list initialises it: its interval becomes 0.
    method DeleteTimer(t: TimerId) returns (ret: int)
      requires Valid() && t in timers
      modifies this
      ensures Valid() && clock == old(clock) && ret == if old(timers[t]).queued then 1 else 0
      ensures timers == if ret == 0 then old(timers) else
        old(timers)[t := Timer(0, true, old(timers)[t].cycle, false, 0)]
    {
      ret := 0;
      if timers[t].queued {
        var k := timers[t].interval;
        Disarm(lists, timers, clock, t);
        lists := lists[k := Drop(lists[k], t)];
        timers := timers[t := Disarmed(timers[t])];
        ret := 1;
      }
    }

    // A due timer is disarmed and taken off the front of its list.
    method PopDue(k: int, now: int) returns (t: TimerId)
      requires Valid() && clock == now && k in lists && lists[k] != []
      modifies `timers, `lists
      ensures Valid() && lists == old(lists)[k := old(lists)[k][1..]]
      ensures t == old(lists)[k][0] && t in old(timers) && old(timers)[t].queued && old(timers)[t].interval == k
      ensures timers == old(timers)[t := Lapsed(old(timers)[t])]
      ensures lists[k] != [] ==> lists[k][0] in timers
    {
      hide ListsOk, Listed;
      TakeFront(lists, timers, now, k);
      t := lists[k][0];
      timers := timers[t := Lapsed(timers[t])];
      lists := lists[k := lists[k][1..]];
      FrontKnown(lists, timers, now, k);
    }

    // The loop over the due timers at the front of one list.
    method CollectList(k: int, now: int) returns (fired: seq<TimerId>)
      requires Valid() && k in lists && clock <= now
      modifies `timers, `lists, `clock
      ensures Valid() && clock == now && k in lists && lists == old(lists)[k := lists[k]]
      ensures FiredFrom(old(timers), timers, fired, k, now) && old(lists)[k] == fired + lists[k]
      ensures Sorted(fired, old(timers))
      ensures forall t :: t in timers && timers[t].queued && timers[t].interval == k ==> !Due(timers[t], now)
    {
      LaterClock(lists, timers, clock, now);
      clock := now;
      assert ListOk(lists[k], k, timers, now);
      hide ListsOk, Listed, FiredFrom, ListOk, SortedBy;
      fired := [];
      NoneFired(timers, k, now);
      PutSame(lists, k);
      FrontKnown(lists, timers, now, k);
      MoveHead(fired, lists[k]);
      while lists[k] != [] && Due(timers[lists[k][0]], now)
        invariant Valid() && clock == now && k in lists && lists == old(lists)[k := lists[k]]
        invariant lists[k] != [] ==> lists[k][0] in timers
        invariant FiredFrom(old(timers), timers, fired, k, now) && old(lists)[k] == fired + lists[k]
        decreases |lists[k]|
      {
        ghost var before, list := timers, lists[k];
        PutTwice(old(lists), k, list, list[1..]);
        var t := PopDue(k, now);
        FireOne(old(timers), before, fired, t, k, now);
        MoveHead(fired, list);
        fired := fired + [t];
      }
      SortedParts(fired, lists[k], Expiries(old(timers)));
      NoneDue(lists, timers, now, k);
    }

    // The list of the least interval that is still to come.
    method CollectNext(ghost before: Timers, fired: seq<TimerId>, rest: set<int>, ghost done: set<int>, now: int)
      returns (all: seq<TimerId>, k: int)
      requires Valid() && clock == now && Split(lists.Keys, rest, done) && rest != {}
      requires FiredAmong(before, timers, fired, done, now) && Ascending(fired, before)
      modifies `timers, `lists, `clock
      ensures Valid() && clock == now && lists.Keys == old(lists).Keys
      ensures k in rest && |rest - {k}| < |rest| && Split(lists.Keys, rest - {k}, done + {k})
      ensures FiredAmong(before, timers, all, done + {k}, now) && Ascending(all, before)
    {
      hide Split, FiredAmong, ListsOk, Listed, FiredFrom, Fired, Lapsed;
      LeastExists(rest);
      k :| Least(rest, k);
      SplitStep(lists.Keys, rest, done, k);
      assert k in rest;
      hide Ascending, Least;
      var more := CollectList(k, now);
      FireMore(before, old(timers), timers, fired, more, done, k, now);
      all := fired + more;
    }

    // The loop over all lists, by ascending interval.
    method Collect(now: int) returns (fired: seq<TimerId>)
      requires Valid() && clock <= now
      modifies `timers, `lists, `clock
      ensures Valid() && clock == now
      ensures FiredAmong(old(timers), timers, fired, old(lists).Keys, now) && Ascending(fired, old(timers))
      ensures forall t :: t in timers && timers[t].queued ==> !Due(timers[t], now)
    {
      LaterClock(lists, timers, clock, now);
      clock := now;
      hide ListsOk, Listed, FiredAmong, FiredFrom, Ascending, Split, Least;
      fired := [];
      NoneFiredYet(timers, now);
      var rest, done := lists.Keys, {};
      NothingDone(rest);
      while rest != {}
        invariant Valid() && clock == now && lists.Keys == old(lists).Keys && Split(lists.Keys, rest, done)
        invariant FiredAmong(old(timers), timers, fired, done, now) && Ascending(fired, old(timers))
        decreases |rest|
      {
        var k;
        fired, k := CollectNext(old(timers), fired, rest, done, now);
        rest, done := rest - {k}, done + {k};
      }
      AllDone(lists.Keys, done);
      AllCollected(old(timers), timers, fired, lists, now);
    }

    // Every fired timer is handled once; those that repeat are armed again.
    method Rearm(fired: seq<TimerId>, now: int)
      requires Valid() && clock == now && NoDup(fired) && forall t :: t in fired ==> t in timers && !timers[t].queued
      modifies this
      ensures Valid() && clock == now && timers.Keys == old(timers).Keys
      ensures forall t :: t in timers ==> timers[t] == if t in fired then Handled(old(timers)[t], now)
        else old(timers)[t]
    {
      hide ListsOk, Listed;
      var i := 0;
      while i < |fired|
        invariant i <= |fired| && Valid() && clock == now && timers.Keys == old(timers).Keys
        invariant forall t :: t in timers ==>
          timers[t] == if t in fired[..i] then Handled(old(timers)[t], now) else old(timers)[t]
      {
        var t := fired[i];
        NextFired(fired, i);
        if timers[t].cycle {
          var _ := AddTimer(t, now);
        }
        i := i + 1;
      }
      assert fired[..i] == fired;
    }

    // loop: exactly the armed timers whose time has come are fired, each once.
    method Loop(now: int) returns (ret: nat, fired: seq<TimerId>)
      requires Valid() && clock <= now
      modifies this
      ensures Valid() && clock == now && timers.Keys == old(timers).Keys && ret == |fired| && NoDup(fired)
      ensures forall t :: t in fired <==> t in old(timers) && old(timers)[t].queued && old(timers)[t].expireTime <= now
      ensures Ascending(fired, old(timers))
      // Afterwards a timer that was due is armed exactly if it repeats and is enabled; the others are as they were.
      ensures forall t :: t in timers ==> Passed(old(timers)[t], now, timers[t])
    {
      fired := Collect(now);
      FiredAreDue(old(timers), timers, fired, old(lists).Keys, now);
      hide FiredAmong, Ascending;
      Rearm(fired, now);
      ret := |fired|;
    }

    // The sizes of the lists add up to the number of armed timers.
    method Size() returns (n: nat)
      requires Valid()
      ensures n == |set t | t in timers && timers[t].queued|
    {
      hide ListsOk;
      n := 0;
      var rest, done := lists.Keys, {};
      assert ArmedIn(timers, {}) == {};
      hide Listed, ArmedIn;
      while rest != {}
        invariant lists.Keys == rest + done && rest !! done && n == |ArmedIn(timers, done)|
        decreases |rest|
      {
        ghost var some := Pick(rest);
        var k :| k in rest;
        OneMoreList(lists, timers, clock, done, k);
        n := n + |lists[k]|;
        rest, done := rest - {k}, done + {k};
      }
      assert done == lists.Keys;
      EveryList(lists, timers);
    }
  }

  lemma LaterClock(lists: map<int, seq<TimerId>>, timers: Timers, clock: int, now: int)
    requires ListsOk(lists, timers, clock) && clock <= now
    ensures ListsOk(lists, timers, now)
  {
    forall k | k in lists
      ensures ListOk(lists[k], k, timers, now)
    {
      assert ListOk(lists[k], k, timers, clock);
    }
  }

  // A list none of whose timers changes stays as it is.
  lemma SameList(q: seq<TimerId>, k: int, timers: Timers, timers1: Timers, now: int)
    requires ListOk(q, k, timers, now) && forall t :: t in q ==> t in timers1 && timers1[t] == timers[t]
    ensures ListOk(q, k, timers1, now)
  {
    SortedSame(q, Expiries(timers), Expiries(timers1));
  }

  lemma Arm(lists: map<int, seq<TimerId>>, timers: Timers, t: TimerId, now: int)
    requires ListsOk(lists, timers, now) && Listed(lists, timers) && t in timers && !timers[t].queued
    ensures var k := timers[t].interval;
      var lists1, timers1 := lists[k := Entries(lists, k) + [t]], timers[t := Armed(timers[t], now)];
      ListsOk(lists1, timers1, now) && Listed(lists1, timers1)
  {
    var k := timers[t].interval;
    var q := Entries(lists, k);
    var lists1, timers1 := lists[k := q + [t]], timers[t := Armed(timers[t], now)];
    forall j | j in lists1
      ensures ListOk(lists1[j], j, timers1, now)
    {
      assert j in lists ==> ListOk(lists[j], j, timers, now);
      if j != k {
        SameList(lists[j], j, timers, timers1, now);
      } else {
        ArmList(q, k, timers, timers1, t, now);
      }
    }
  }

  lemma ArmList(q: seq<TimerId>, k: int, timers: Timers, timers1: Timers, t: TimerId, now: int)
    requires ListOk(q, k, timers, now) && t !in q && t in timers
    requires timers[t].interval == k && timers1 == timers[t := Armed(timers[t], now)]
    ensures ListOk(q + [t], k, timers1, now)
  {
    SortedSame(q, Expiries(timers), Expiries(timers1));
    SortedAppend(q, Expiries(timers1), t);
    assert forall x :: x in q + [t] <==> x in q || x == t;
  }

  lemma Disarm(lists: map<int, seq<TimerId>>, timers: Timers, now: int, t: TimerId)
    requires ListsOk(lists, timers, now) && Listed(lists, timers) && t in timers && timers[t].queued
    ensures timers[t].interval in lists
    ensures var k := timers[t].interval;
      var lists1, timers1 := lists[k := Drop(lists[k], t)], timers[t := Disarmed(timers[t])];
      ListsOk(lists1, timers1, now) && Listed(lists1, timers1)
  {
    var k := timers[t].interval;
    var lists1, timers1 := lists[k := Drop(lists[k], t)], timers[t := Disarmed(timers[t])];
    assert ListOk(lists[k], k, timers, now);
    DropMembers(lists[k], t);
    forall j | j in lists1
      ensures ListOk(lists1[j], j, timers1, now)
    {
      assert ListOk(lists[j], j, timers, now);
      if j != k {
        assert t !in lists[j];
        SameList(lists[j], j, timers, timers1, now);
      } else {
        DropOk(lists[k], k, timers, timers1, t, now);
      }
    }
  }

  lemma DropOk(q: seq<TimerId>, k: int, timers: Timers, timers1: Timers, t: TimerId, now: int)
    requires ListOk(q, k, timers, now) && forall x :: x in q && x != t ==> x in timers1 && timers1[x] == timers[x]
    ensures ListOk(Drop(q, t), k, timers1, now)
  {
    DropMembers(q, t);
    SortedDrop(q, t, Expiries(timers));
    SortedSame(Drop(q, t), Expiries(timers), Expiries(timers1));
  }

  // The fired timers, which had been armed and are no more; the others are as they were.
  ghost predicate Fired(timers: Timers, timers1: Timers, fired: seq<TimerId>) {
    && NoDup(fired) && timers1.Keys == timers.Keys
    && (forall t :: t in fired ==> t in timers && timers[t].queued)
    && (forall t :: t in timers ==> timers1[t] == if t in fired then Lapsed(timers[t]) else timers[t])
  }

  ghost predicate FiredFrom(timers: Timers, timers1: Timers, fired: seq<TimerId>, k: int, now: int) {
    Fired(timers, timers1, fired) && forall t :: t in fired ==> Due(timers[t], now) && timers[t].interval == k
  }

  lemma NoneFired(timers: Timers, k: int, now: int)
    ensures FiredFrom(timers, timers, [], k, now)
  {
  }

  lemma FireOne(timers: Timers, timers1: Timers, fired: seq<TimerId>, t: TimerId, k: int, now: int)
    requires FiredFrom(timers, timers1, fired, k, now) && t in timers1 && Due(timers1[t], now)
      && timers1[t].interval == k
    ensures FiredFrom(timers, timers1[t := Lapsed(timers1[t])], fired + [t], k, now)
  {
    assert forall x :: x in fired + [t] <==> x in fired || x == t;
  }

  lemma FrontKnown(lists: map<int, seq<TimerId>>, timers: Timers, now: int, k: int)
    requires ListsOk(lists, timers, now) && k in lists
    ensures lists[k] != [] ==> lists[k][0] in timers
  {
    assert ListOk(lists[k], k, timers, now);
    if lists[k] != [] {
      assert lists[k][0] in lists[k];
    }
  }

  // The first timer of a list is taken off it.
  lemma TakeFront(lists: map<int, seq<TimerId>>, timers: Timers, now: int, k: int)
    requires ListsOk(lists, timers, now) && Listed(lists, timers) && k in lists && lists[k] != []
    ensures var t := lists[k][0];
      && t in timers && timers[t].queued && timers[t].interval == k
      && var lists1, timers1 := lists[k := lists[k][1..]], timers[t := Lapsed(timers[t])];
         ListsOk(lists1, timers1, now) && Listed(lists1, timers1)
  {
    var q := lists[k];
    var t := q[0];
    assert ListOk(q, k, timers, now);
    assert q == [t] + q[1..] && t !in q[1..];
    var lists1, timers1 := lists[k := q[1..]], timers[t := Lapsed(timers[t])];
    forall j | j in lists1
      ensures ListOk(lists1[j], j, timers1, now)
    {
      assert ListOk(lists[j], j, timers, now);
      if j == k {
        SortedTail(q, k, timers, now);
      }
      SameList(lists1[j], j, timers, timers1, now);
    }
  }

  lemma SortedTail(q: seq<TimerId>, k: int, timers: Timers, now: int)
    requires ListOk(q, k, timers, now) && q != []
    ensures ListOk(q[1..], k, timers, now)
  {
    assert forall i :: 0 <= i < |q| - 1 ==> q[1..][i] == q[i + 1];
  }

  // Looking at the front is enough: if that is not due, nothing in the list is.
  lemma NoneDue(lists: map<int, seq<TimerId>>, timers: Timers, now: int, k: int)
    requires ListsOk(lists, timers, now) && Listed(lists, timers) && k in lists
    requires lists[k] != [] ==> lists[k][0] in timers && !Due(timers[lists[k][0]], now)
    ensures forall t :: t in timers && timers[t].queued && timers[t].interval == k ==> !Due(timers[t], now)
  {
    assert ListOk(lists[k], k, timers, now);
    forall t | t in timers && timers[t].queued && timers[t].interval == k
      ensures !Due(timers[t], now)
    {
      var i :| 0 <= i < |lists[k]| && lists[k][i] == t;
      SortedMeans(lists[k], Expiries(timers), 0, i);
    }
  }

  // ---------- all lists together ----------

  // A timer that has been fired, once its handler has returned.
  function Handled(x: Timer, now: int): Timer { if x.cycle && x.enabled && !x.queued then Armed(x, now) else x }

  // What a pass of the loop makes of a timer.
  ghost predicate Passed(x: Timer, now: int, y: Timer) {
    && y.interval == x.interval && y.enabled == x.enabled && y.cycle == x.cycle
    && if x.queued && x.expireTime <= now then
         && (y.queued <==> x.cycle && x.enabled)
         && y.expireTime == (if y.queued then now + x.interval else x.expireTime)
       else y == x
  }

  ghost predicate FiredAmong(timers: Timers, timers1: Timers, fired: seq<TimerId>, done: set<int>, now: int) {
    && Fired(timers, timers1, fired)
    && (forall t :: t in fired ==> Due(timers[t], now) && timers[t].interval in done)
    && (forall t :: t in timers1 && timers1[t].queued && timers1[t].interval in done ==> !Due(timers1[t], now))
  }

  // By ascending interval, and those of one interval in the order in which they expire.
  predicate NotAfter(x: Timer, y: Timer) {
    x.interval < y.interval || (x.interval == y.interval && x.expireTime <= y.expireTime)
  }

  ghost predicate Ascending(fired: seq<TimerId>, timers: Timers) {
    forall i, j :: 0 <= i < j < |fired| && fired[i] in timers && fired[j] in timers ==>
      NotAfter(timers[fired[i]], timers[fired[j]])
  }

  lemma NoneFiredYet(timers: Timers, now: int)
    ensures FiredAmong(timers, timers, [], {}, now) && Ascending([], timers)
  {
  }

  // The keys that are still to come are above those that are done.
  ghost predicate Split(keys: set<int>, rest: set<int>, done: set<int>) {
    rest + done == keys && rest !! done && forall j, k :: j in done && k in rest ==> j < k
  }

  lemma NothingDone(keys: set<int>)
    ensures Split(keys, keys, {})
  {
  }

  lemma AllDone(keys: set<int>, done: set<int>)
    requires Split(keys, {}, done)
    ensures done == keys
  {
  }

  lemma SplitStep(keys: set<int>, rest: set<int>, done: set<int>, k: int)
    requires Split(keys, rest, done) && Least(rest, k)
    ensures Split(keys, rest - {k}, done + {k}) && |rest - {k}| < |rest|
    ensures k in keys && k !in done && forall j :: j in done ==> j < k
  {
    SetSize(rest, k);
    assert (rest - {k}) + (done + {k}) == rest + done;
  }

  predicate Least(s: set<int>, k: int) { k in s && forall j :: j in s ==> k <= j }

  lemma {:induction false} LeastExists(s: set<int>)
    requires s != {}
    ensures exists k :: Least(s, k)
    decreases |s|
  {
    var x := Pick(s);
    var rest := s - {x};
    SetSize(s, x);
    assert forall j :: j in s <==> j in rest || j == x;
    if rest == {} {
      assert Least(s, x);
    } else {
      LeastExists(rest);
      var k :| Least(rest, k);
      assert Least(s, if x < k then x else k);
    }
  }

  lemma FireMore(timers: Timers, timers1: Timers, timers2: Timers, fired: seq<TimerId>, more: seq<TimerId>,
      done: set<int>, k: int, now: int)
    requires FiredAmong(timers, timers1, fired, done, now) && FiredFrom(timers1, timers2, more, k, now)
      && Ascending(fired, timers)
    requires Sorted(more, timers1) && k !in done && forall j :: j in done ==> j < k
    requires forall t :: t in timers2 && timers2[t].queued && timers2[t].interval == k ==> !Due(timers2[t], now)
    ensures FiredAmong(timers, timers2, fired + more, done + {k}, now) && Ascending(fired + more, timers)
  {
    hide Due, SortedBy;
    var all := fired + more;
    assert forall t :: t in all <==> t in fired || t in more;
    forall t | t in more
      ensures t !in fired && timers1[t] == timers[t] && t in timers
    {
    }
    assert Fired(timers, timers2, all) by {
      NoDupAppend(fired, more);
    }
    hide Fired;
    forall i, j | 0 <= i < j < |all| && all[i] in timers && all[j] in timers
      ensures NotAfter(timers[all[i]], timers[all[j]])
    {
      assert j >= |fired| ==> all[j] in more;
      assert if i < |fired| then all[i] in fired else all[i] in more;
      if i >= |fired| {
        SortedMeans(more, Expiries(timers1), i - |fired|, j - |fired|);
      }
    }
  }

  lemma AllCollected(timers: Timers, timers1: Timers, fired: seq<TimerId>, lists: map<int, seq<TimerId>>, now: int)
    requires FiredAmong(timers, timers1, fired, lists.Keys, now) && Listed(lists, timers1)
    ensures forall t :: t in timers1 && timers1[t].queued ==> !Due(timers1[t], now)
  {
  }

  lemma FiredAreDue(timers: Timers, timers1: Timers, fired: seq<TimerId>, done: set<int>, now: int)
    requires FiredAmong(timers, timers1, fired, done, now)
    requires forall t :: t in timers1 && timers1[t].queued ==> !Due(timers1[t], now)
    ensures NoDup(fired) && timers1.Keys == timers.Keys
    ensures forall t :: t in fired <==> t in timers && Due(timers[t], now)
    ensures forall t :: t in timers ==> timers1[t] == if t in fired then Lapsed(timers[t]) else timers[t]
  {
    forall t | t in timers && Due(timers[t], now)
      ensures t in fired
    {
      assert t in timers1;
    }
  }

  lemma NextFired(fired: seq<TimerId>, i: nat)
    requires i < |fired| && NoDup(fired)
    ensures fired[i] !in fired[..i] && forall t :: t in fired[..i + 1] <==> t in fired[..i] || t == fired[i]
  {
    assert fired[..i + 1] == fired[..i] + [fired[i]];
  }

  ghost function ArmedIn(timers: Timers, done: set<int>): set<TimerId> {
    set t | t in timers && timers[t].queued && timers[t].interval in done
  }

  lemma OneMoreList(lists: map<int, seq<TimerId>>, timers: Timers, now: int, done: set<int>, k: int)
    requires ListsOk(lists, timers, now) && Listed(lists, timers) && k in lists && k !in done
    ensures |ArmedIn(timers, done + {k})| == |ArmedIn(timers, done)| + |lists[k]|
  {
    var q := lists[k];
    assert ListOk(q, k, timers, now);
    SizeOfList(q);
    assert forall t :: t in timers && timers[t].queued && timers[t].interval == k <==> t in q;
    hide ListsOk, Listed, ListOk;
    ArmedSplit(timers, done, k, q);
  }

  lemma ArmedSplit(timers: Timers, done: set<int>, k: int, q: seq<TimerId>)
    requires k !in done && |Elements(q)| == |q|
    requires forall t :: t in timers && timers[t].queued && timers[t].interval == k <==> t in q
    ensures |ArmedIn(timers, done + {k})| == |ArmedIn(timers, done)| + |q|
  {
    assert ArmedIn(timers, done + {k}) == ArmedIn(timers, done) + Elements(q);
    assert ArmedIn(timers, done) !! Elements(q);
  }

  ghost function Elements(q: seq<TimerId>): set<TimerId> { set t | t in q }

  lemma {:induction false} SizeOfList(q: seq<TimerId>)
    requires NoDup(q)
    ensures |Elements(q)| == |q|
  {
    if q != [] {
      var rest := q[1..];
      assert q == [q[0]] + rest && q[0] !in rest;
      SizeOfList(rest);
      assert Elements(q) == {q[0]} + Elements(rest);
    }
  }

  lemma EveryList(lists: map<int, seq<TimerId>>, timers: Timers)
    requires Listed(lists, timers)
    ensures ArmedIn(timers, lists.Keys) == set t | t in timers && timers[t].queued
  {
  }
}
