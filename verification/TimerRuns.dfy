/** Whole runs of a timer queue: timers are added and deleted and passes of the loop are made in any order, and
    the clock does not run backwards. */
module TimerRuns {
  import opened Collections
  import opened TimerQueue

  datatype Step = Add(t: TimerId, now: int) | Delete(t: TimerId) | Pass(now: int)

  datatype Outcome = Returned(ret: int) | Fired(ts: seq<TimerId>)

  // No timer but t changes.
  ghost predicate OnlyTo(x: Timers, t: TimerId, y: Timers) {
    y.Keys == x.Keys && forall u :: u in x && u != t ==> y[u] == x[u]
  }

  ghost predicate IsDue(x: Timers, t: TimerId, now: int) { t in x && x[t].queued && x[t].expireTime <= now }

  ghost predicate Follows(x: Timers, step: Step, o: Outcome, y: Timers) {
    match step
    case Add(t, now) =>
      && t in x && OnlyTo(x, t, y) && o == Returned(if x[t].enabled && !x[t].queued then 1 else 0)
      && y[t] == if o.ret == 1 then x[t].(queued := true, expireTime := now + x[t].interval) else x[t]
    case Delete(t) =>
      && t in x && OnlyTo(x, t, y) && o == Returned(if x[t].queued then 1 else 0)
      && y[t] == if o.ret == 1 then Timer(0, true, x[t].cycle, false, 0) else x[t]
    case Pass(now) =>
      && y.Keys == x.Keys && o.Fired? && NoDup(o.ts) && Ascending(o.ts, x)
      && (forall t :: t in o.ts <==> IsDue(x, t, now))
      && forall t :: t in x ==> Passed(x[t], now, y[t])
  }

  ghost predicate IsRun(xs: seq<Timers>, steps: seq<Step>, os: seq<Outcome>) {
    && |xs| == |steps| + 1 && |os| == |steps|
    && (forall t :: t in xs[0] ==> !xs[0][t].queued)
    && forall i :: 0 <= i < |steps| ==> Follows(xs[i], steps[i], os[i], xs[i + 1])
  }

  predicate Possible(timers: Timers, clock: int, step: Step) {
    match step
    case Add(t, now) => t in timers && clock <= now
    case Delete(t) => t in timers
    case Pass(now) => clock <= now
  }

  method DoStep(q: TimerQueue, step: Step) returns (o: Outcome)
    requires q.Valid() && Possible(q.timers, q.clock, step)
    modifies q
    ensures q.Valid() && Follows(old(q.timers), step, o, q.timers)
    ensures q.clock == if step.Delete? then old(q.clock) else step.now
  {
    match step
    case Add(t, now) =>
      var ret := q.AddTimer(t, now);
      o := Returned(ret);
    case Delete(t) =>
      var ret := q.DeleteTimer(t);
      o := Returned(ret);
    case Pass(now) =>
      var _, fired := q.Loop(now);
      o := Fired(fired);
  }

  lemma OneMore(xs: seq<Timers>, steps: seq<Step>, os: seq<Outcome>, n: nat, o: Outcome, x: Timers)
    requires n < |steps| && IsRun(xs, steps[..n], os) && Follows(xs[n], steps[n], o, x)
    ensures |xs| == n + 1 && IsRun(xs + [x], steps[..n + 1], os + [o]) && (xs + [x])[n + 1] == x
  {
    hide Follows;
    var xs1, steps1, os1 := xs + [x], steps[..n + 1], os + [o];
    forall i | 0 <= i < |steps1|
      ensures Follows(xs1[i], steps1[i], os1[i], xs1[i + 1])
    {
      assert i < n ==> xs1[i] == xs[i] && xs1[i + 1] == xs[i + 1] && steps1[i] == steps[..n][i] && os1[i] == os[i];
    }
  }

  lemma NoSteps(timers: Timers, steps: seq<Step>)
    requires forall t :: t in timers ==> !timers[t].queued
    ensures IsRun([timers], steps[..0], [])
  {
  }

  // The code takes the steps, up to the first one that is not possible.
  method Run(timers: Timers, clock: int, steps: seq<Step>)
    returns (q: TimerQueue, taken: nat, os: seq<Outcome>, ghost xs: seq<Timers>)
    requires forall t :: t in timers ==> !timers[t].queued
    ensures q.Valid() && taken <= |steps|
    // It stops only at a timer that does not exist or at a clock that runs backwards.
    ensures taken < |steps| ==>
      || (!steps[taken].Pass? && steps[taken].t !in q.timers)
      || (!steps[taken].Delete? && steps[taken].now < q.clock)
    ensures IsRun(xs, steps[..taken], os) && xs[0] == timers && q.timers == xs[taken]
  {
    hide Follows, IsRun;
    var time := clock;
    q := new TimerQueue(timers, clock);
    taken, os, xs := 0, [], [timers];
    NoSteps(timers, steps);
    while taken < |steps| && Possible(q.timers, time, steps[taken])
      invariant taken <= |steps| && q.Valid() && fresh(q) && q.clock == time
      invariant |xs| == taken + 1 && IsRun(xs, steps[..taken], os) && xs[0] == timers && q.timers == xs[taken]
    {
      var o := DoStep(q, steps[taken]);
      OneMore(xs, steps, os, taken, o, q.timers);
      time := if steps[taken].Delete? then time else steps[taken].now;
      xs, os := xs + [q.timers], os + [o];
      taken := taken + 1;
    }
  }

  // ---------- when a timer fires ----------

  // A pass fires timer t in the i-th step.
  ghost predicate Fires(steps: seq<Step>, os: seq<Outcome>, i: nat, t: TimerId)
    requires i < |steps| == |os|
  {
    steps[i].Pass? && os[i].Fired? && t in os[i].ts
  }

  // Timer t is armed in the i-th step: it is added, or it fires and repeats.
  ghost predicate Arms(xs: seq<Timers>, steps: seq<Step>, os: seq<Outcome>, i: nat, t: TimerId)
    requires i < |steps| == |os| < |xs|
  {
    if steps[i].Add? then steps[i].t == t && os[i] == Returned(1)
    else Fires(steps, os, i, t) && t in xs[i] && xs[i][t].cycle && xs[i][t].enabled
  }

  // It is neither fired nor deleted in the steps from i to j.
  ghost predicate Rests(steps: seq<Step>, os: seq<Outcome>, i: nat, j: nat, t: TimerId)
    requires j <= |steps| == |os|
  {
    forall k :: i <= k < j ==> !Fires(steps, os, k, t) && steps[k] != Delete(t)
  }

  lemma ArmedAt(xs: seq<Timers>, steps: seq<Step>, os: seq<Outcome>, i: nat, t: TimerId)
    requires IsRun(xs, steps, os) && i < |steps| && Arms(xs, steps, os, i, t)
    ensures t in xs[i] && t in xs[i + 1]
    ensures xs[i + 1][t] == xs[i][t].(queued := true, expireTime := steps[i].now + xs[i][t].interval)
  {
    assert Follows(xs[i], steps[i], os[i], xs[i + 1]);
    assert steps[i].Pass? ==> IsDue(xs[i], t, steps[i].now);
  }

  lemma {:induction false} StaysArmed(xs: seq<Timers>, steps: seq<Step>, os: seq<Outcome>, i: nat, j: nat, t: TimerId)
    requires IsRun(xs, steps, os) && i <= j <= |steps| && t in xs[i] && xs[i][t].queued && Rests(steps, os, i, j, t)
    ensures t in xs[j] && xs[j][t] == xs[i][t]
    decreases j
  {
    if i < j {
      StaysArmed(xs, steps, os, i, j - 1, t);
      assert Follows(xs[j - 1], steps[j - 1], os[j - 1], xs[j]);
      assert steps[j - 1].Pass? ==> !IsDue(xs[j - 1], t, steps[j - 1].now);
    }
  }

  // Once it is armed, a timer that is not deleted fires in the first pass that is made when its interval has gone by,
  // and in none before that: so a timer that repeats fires again and again.
  lemma FiresInTime(xs: seq<Timers>, steps: seq<Step>, os: seq<Outcome>, i: nat, j: nat, t: TimerId)
    requires IsRun(xs, steps, os) && i < j < |steps| && Arms(xs, steps, os, i, t) && Rests(steps, os, i + 1, j, t)
    requires steps[j].Pass?
    ensures t in xs[i]
    ensures Fires(steps, os, j, t) <==> steps[j].now >= steps[i].now + xs[i][t].interval
  {
    ArmedAt(xs, steps, os, i, t);
    StaysArmed(xs, steps, os, i + 1, j, t);
    assert Follows(xs[j], steps[j], os[j], xs[j + 1]);
    assert t in os[j].ts <==> IsDue(xs[j], t, steps[j].now);
  }

  lemma {:induction false} StaysUnarmed(xs: seq<Timers>, steps: seq<Step>, os: seq<Outcome>, i: nat, j: nat, t: TimerId)
    requires IsRun(xs, steps, os) && i <= j <= |steps| && t in xs[i] && !xs[i][t].queued
    requires forall k :: i <= k < j ==> !Arms(xs, steps, os, k, t)
    ensures t in xs[j] && !xs[j][t].queued && (j < |steps| ==> !Fires(steps, os, j, t))
    decreases j
  {
    if j < |steps| {
      assert Follows(xs[j], steps[j], os[j], xs[j + 1]);
    }
    if i < j {
      StaysUnarmed(xs, steps, os, i, j - 1, t);
      assert Follows(xs[j - 1], steps[j - 1], os[j - 1], xs[j]);
      assert !Arms(xs, steps, os, j - 1, t);
    }
  }

  // A timer never fires unless it has been armed since it last fired or was deleted: so one that does not repeat
  // fires once for each time it is added, at most.
  lemma FiresOnlyArmed(xs: seq<Timers>, steps: seq<Step>, os: seq<Outcome>, i: nat, j: nat, t: TimerId)
    requires IsRun(xs, steps, os) && i < j < |steps| && t in xs[i] && Fires(steps, os, j, t)
    requires Fires(steps, os, i, t) || steps[i] == Delete(t)
    ensures exists k :: i <= k < j && Arms(xs, steps, os, k, t)
  {
    if forall k :: i <= k < j ==> !Arms(xs, steps, os, k, t) {
      assert Follows(xs[i], steps[i], os[i], xs[i + 1]);
      assert steps[i].Pass? ==> IsDue(xs[i], t, steps[i].now);
      assert !Arms(xs, steps, os, i, t);
      StaysUnarmed(xs, steps, os, i + 1, j, t);
    }
  }

  // Nor does one that has never been added.
  lemma NeverAdded(xs: seq<Timers>, steps: seq<Step>, os: seq<Outcome>, j: nat, t: TimerId)
    requires IsRun(xs, steps, os) && j < |steps| && Fires(steps, os, j, t) && t in xs[0]
    ensures exists k :: 0 <= k < j && Arms(xs, steps, os, k, t)
  {
    if forall k :: 0 <= k < j ==> !Arms(xs, steps, os, k, t) {
      StaysUnarmed(xs, steps, os, 0, j, t);
    }
  }
}
