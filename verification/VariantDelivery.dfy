/** Exactly when the queues with one consumer or one producer keep events in their slots and deliver what was
    pushed, in either version of their retry loops. */
module VariantDelivery {
  import opened Basics
  import opened Collections
  import opened RingIndex
  import opened SlotTraces
  import opened MpmcRing
  import opened MpmcDelivery
  import opened RingVariants

  // ---------- many producers, one consumer ----------

  ghost function MpscTouch<T>(m: Mpsc<T>, s: MpscStep<T>): Touch {
    Touch(
      if s.Step? && s.t in m.producers && m.producers[s.t].PushWrite? then Some(m.producers[s.t].ticket) else None,
      if s.Pop? && m.consumer.Ready? then Some(m.consumer.r) else None)
  }

  function MpscFrame<T>(m: Mpsc<T>): Frame<T> { Frame(m.slots, m.pushed, m.popped) }

  function MpscFrames<T>(ms: seq<Mpsc<T>>): seq<Frame<T>> { seq(|ms|, i requires 0 <= i < |ms| => MpscFrame(ms[i])) }

  ghost function MpscTouches<T>(ms: seq<Mpsc<T>>, ss: seq<MpscStep<T>>): seq<Touch>
    requires |ss| <= |ms|
  {
    seq(|ss|, i requires 0 <= i < |ss| => MpscTouch(ms[i], ss[i]))
  }

  // A step that is one move touches what the move touches; one that is two touches nothing.
  lemma MpscTouchIs<T>(m: Mpsc<T>, s: MpscStep<T>, c: Thread)
    requires MpscOk(m, c) && MpscEnabled(m, s)
    ensures 1 <= |Moves(m, s, c)| <= 2
    ensures |Moves(m, s, c)| == 1 ==> TouchOf(ToRing(m, c), Moves(m, s, c)[0]) == MpscTouch(m, s)
    ensures |Moves(m, s, c)| == 2 ==>
      MpscTouch(m, s) == Touch(None, None) && s.Pop? && MpscFrame(PopStep(m)) == MpscFrame(m) && PopStep(m).n == m.n
    ensures FrameOf(ToRing(m, c)) == MpscFrame(m)
  {
    hide Slot, Less;
  }

  lemma MpscMoveFrame<T>(m: Mpsc<T>, s: MpscStep<T>, c: Thread, keep: bool)
    requires MpscOk(m, c) && MpscEnabled(m, s) && Counted(ToRing(m, c))
    ensures var m1 := MpscNext(m, s, keep);
      m1.n == m.n && FrameStep(MpscFrame(m), MpscTouch(m, s), MpscFrame(m1), m.n)
  {
    var q, moves, m1 := ToRing(m, c), Moves(m, s, c), MpscNext(m, s, keep);
    MpscRefines(m, s, c, keep);
    MpscTouchIs(m, s, c);
    SameSlots(m1, c);
    if |moves| == 1 {
      assert moves == [moves[0]];
      OneMove(q, moves[0], keep);
    } else {
      PoppedArePushed(q);
    }
    hide Counted, Moves, CanPlay, Play, MpscTouch, PushStep, PopStep, MpscEnabled, MpscOk, Slot;
  }

  lemma SameSlots<T>(m: Mpsc<T>, c: Thread)
    ensures FrameOf(ToRing(m, c)) == MpscFrame(m) && ToRing(m, c).n == m.n
  {
  }

  lemma OneMove<T>(q: Ring<T>, move: MpmcRing.Move<T>, keep: bool)
    requires Counted(q) && CanPlay(q, [move], keep)
    ensures var q1 := Play(q, [move], keep); q1.n == q.n && FrameStep(FrameOf(q), TouchOf(q, move), FrameOf(q1), q.n)
  {
    PlayOne(q, move, keep);
    hide Counted, Next, Enabled, FrameStep;
    MoveFrame(q, move, keep);
  }

  lemma MpscStepFrame<T>(ms: seq<Mpsc<T>>, ss: seq<MpscStep<T>>, c: Thread, keep: bool, i: nat)
    requires IsMpscRun(ms, ss, c, keep) && i < |ss|
    ensures ms[i + 1].n == ms[i].n
    ensures FrameStep(MpscFrame(ms[i]), MpscTouch(ms[i], ss[i]), MpscFrame(ms[i + 1]), ms[i].n)
  {
    MpscRunSafe(ms, ss, c, keep, i);
    hide Counted, MpscOk, MpscNext, MpscEnabled, FrameStep, MpscTouch, MpscFrame, ToRing, MpscStart;
    MpscMoveFrame(ms[i], ss[i], c, keep);
  }

  lemma {:induction false} MpscSameRing<T>(ms: seq<Mpsc<T>>, ss: seq<MpscStep<T>>, c: Thread, keep: bool, i: nat)
    requires IsMpscRun(ms, ss, c, keep) && i < |ms|
    ensures ms[i].n == ms[0].n
    decreases i
  {
    if i > 0 {
      MpscSameRing(ms, ss, c, keep, i - 1);
      MpscStepFrame(ms, ss, c, keep, i - 1);
    }
  }

  // In any run, of either version, in which events are told apart: the consumer is given what was pushed under
  // each ticket if and only if it looks at every slot after the copy for its ticket and before any other.
  lemma MpscDeliveredIffTimely<T>(ms: seq<Mpsc<T>>, ss: seq<MpscStep<T>>, c: Thread, keep: bool, n: nat)
    requires IsMpscRun(ms, ss, c, keep) && n < |ms| && Fresh(ms[n].pushed, ms[0].slots)
    ensures AllRight(ms[n].pushed, ms[n].popped) <==>
      forall i :: 0 <= i < n ==> Timely(MpscTouches(ms, ss), ms[0].n, i)
  {
    forall i | 0 <= i < |ss|
      ensures FrameStep(MpscFrame(ms[i]), MpscTouch(ms[i], ss[i]), MpscFrame(ms[i + 1]), ms[0].n)
    {
      MpscSameRing(ms, ss, c, keep, i);
      MpscStepFrame(ms, ss, c, keep, i);
    }
    hide FrameStep, MpscTouch, MpscNext, MpscEnabled, Timely, AllRight, Fresh;
    RightIffTimely(MpscFrames(ms), MpscTouches(ms, ss), ms[0].n, n);
  }

  // A publication of the ticket that is next must wait for its event to be in place.
  ghost predicate MpscCareful<T>(m: Mpsc<T>, s: MpscStep<T>) {
    s.Step? && s.t in m.producers && m.producers[s.t].Publish? && m.producers[s.t].expected == m.maxRead ==>
      !Unwritten(m.producers, m.maxRead)
  }

  // From a safe state a step leads to a safe one exactly if it is careful, whichever version runs.
  lemma MpscSafeIffCareful<T>(m: Mpsc<T>, s: MpscStep<T>, c: Thread, keep: bool)
    requires MpscOk(m, c) && MpscEnabled(m, s) && Safe(ToRing(m, c))
    ensures Safe(ToRing(MpscNext(m, s, keep), c)) <==> MpscCareful(m, s)
  {
    var q, moves := ToRing(m, c), Moves(m, s, c);
    MpscRefines(m, s, c, keep);
    MpscTouchIs(m, s, c);
    MpscCarefulIs(m, s, c, keep);
    hide Safe, ToRing, Moves, MpscCareful, Careful, Unwritten, MpscTouch, PushStep, PopStep, CanPlay, Play, MpscOk,
      MpscEnabled, MpscNext;
    if |moves| == 1 {
      assert moves == [moves[0]];
      OneCareful(q, moves[0], keep);
    } else {
      assert moves == [moves[0], moves[1]];
      TwoCareful(q, moves[0], moves[1], keep);
    }
  }

  lemma OneCareful<T>(q: Ring<T>, move: MpmcRing.Move<T>, keep: bool)
    requires Safe(q) && CanPlay(q, [move], keep)
    ensures Enabled(q, move) && (Safe(Play(q, [move], keep)) <==> Careful(q, move))
  {
    PlayOne(q, move, keep);
    hide Safe, Careful, Next;
    SafeIffCareful(q, move, keep);
  }

  lemma TwoCareful<T>(q: Ring<T>, move: MpmcRing.Move<T>, move1: MpmcRing.Move<T>, keep: bool)
    requires Safe(q) && Enabled(q, move) && Enabled(Next(q, move, keep), move1) && CanPlay(q, [move, move1], keep)
    requires Careful(q, move) && Careful(Next(q, move, keep), move1)
    ensures Safe(Play(q, [move, move1], keep))
  {
    PlayTwo(q, move, move1, keep);
    hide Safe, Careful, Next, Enabled;
    SafeIffCareful(q, move, keep);
    SafeIffCareful(Next(q, move, keep), move1, keep);
  }

  // Of the moves that a step stands for only a publication can be careless.
  lemma MpscCarefulIs<T>(m: Mpsc<T>, s: MpscStep<T>, c: Thread, keep: bool)
    requires MpscOk(m, c) && MpscEnabled(m, s) && Counted(ToRing(m, c))
    ensures var q, moves := ToRing(m, c), Moves(m, s, c);
      && Enabled(q, moves[0])
      && (|moves| == 1 ==> (Careful(q, moves[0]) <==> MpscCareful(m, s)))
      && (|moves| == 2 ==>
           && Enabled(Next(q, moves[0], keep), moves[1]) && Careful(q, moves[0])
           && Careful(Next(q, moves[0], keep), moves[1]) && MpscCareful(m, s))
  {
    hide Unwritten, Handling, Counts, PcsOk, Unique;
    var q := ToRing(m, c);
    SameProducers(m, c, m.maxRead);
    if s.Pop? && m.consumer.Handled? {
      OwnIsHandled(q.pc, c);
    }
    hide Slot, Pow2;
  }

  lemma SameProducers<T>(m: Mpsc<T>, c: Thread, k: nat)
    requires MpscOk(m, c)
    ensures Unwritten(ToRing(m, c).pc, k) <==> Unwritten(m.producers, k)
  {
    var pc := ToRing(m, c).pc;
    if t :| t in m.producers && m.producers[t].PushWrite? && m.producers[t].ticket == k {
      assert pc[t] == m.producers[t];
    }
    if t :| t in pc && pc[t].PushWrite? && pc[t].ticket == k {
      assert t != c && pc[t] == m.producers[t];
    }
  }

  // ---------- one producer, many consumers ----------

  ghost function SpmcTouch<T>(m: Spmc<T>, s: SpmcStep<T>): Touch {
    Touch(
      if s.Push? && m.producer.Spare? then Some(m.producer.w) else None,
      if s.Move? && s.t in m.consumers && m.consumers[s.t].PopHandle? then Some(m.consumers[s.t].ticket) else None)
  }

  // An event counts as pushed from the moment when its producer knows that there is room.
  function SpmcFrame<T>(m: Spmc<T>): Frame<T> {
    Frame(m.slots, if Claimed(m.producer) then m.pushed + [m.producer.v] else m.pushed, m.popped)
  }

  function SpmcFrames<T>(ms: seq<Spmc<T>>): seq<Frame<T>> { seq(|ms|, i requires 0 <= i < |ms| => SpmcFrame(ms[i])) }

  ghost function SpmcTouches<T>(ms: seq<Spmc<T>>, ss: seq<SpmcStep<T>>): seq<Touch>
    requires |ss| <= |ms|
  {
    seq(|ss|, i requires 0 <= i < |ss| => SpmcTouch(ms[i], ss[i]))
  }

  lemma SpmcTouchIs<T>(m: Spmc<T>, s: SpmcStep<T>, c: Thread)
    requires SpmcOk(m, c) && SpmcEnabled(m, s)
    ensures 1 <= |SpmcMoves(m, s, c)| <= 2
    ensures |SpmcMoves(m, s, c)| == 1 ==> TouchOf(AsRing(m, c), SpmcMoves(m, s, c)[0]) == SpmcTouch(m, s)
    ensures |SpmcMoves(m, s, c)| == 2 ==>
      var m1 := GiveStep(m, s.v);
      && SpmcTouch(m, s) == Touch(None, None) && s.Push? && m1.slots == m.slots && m1.popped == m.popped && m1.n == m.n
      && SpmcFrame(m).pushed <= SpmcFrame(m1).pushed
  {
    hide Slot, Less;
  }

  lemma SpmcMoveFrame<T>(m: Spmc<T>, s: SpmcStep<T>, c: Thread, keep: bool)
    requires SpmcOk(m, c) && SpmcEnabled(m, s) && Counted(AsRing(m, c))
    ensures var m1 := SpmcNext(m, s, keep);
      m1.n == m.n && FrameStep(SpmcFrame(m), SpmcTouch(m, s), SpmcFrame(m1), m.n)
  {
    var q, moves, m1 := AsRing(m, c), SpmcMoves(m, s, c), SpmcNext(m, s, keep);
    SpmcRefines(m, s, c, keep);
    SpmcTouchIs(m, s, c);
    if |moves| == 1 {
      assert moves == [moves[0]];
      OneMove(q, moves[0], keep);
    } else {
      PoppedArePushed(q);
    }
    hide Counted, SpmcMoves, CanPlay, Play, SpmcTouch, TakeStep, GiveStep, SpmcEnabled, SpmcOk, Slot;
  }

  lemma SpmcStepFrame<T>(ms: seq<Spmc<T>>, ss: seq<SpmcStep<T>>, c: Thread, keep: bool, i: nat)
    requires IsSpmcRun(ms, ss, c, keep) && i < |ss|
    ensures ms[i + 1].n == ms[i].n
    ensures FrameStep(SpmcFrame(ms[i]), SpmcTouch(ms[i], ss[i]), SpmcFrame(ms[i + 1]), ms[i].n)
  {
    SpmcRunSafe(ms, ss, c, keep, i);
    hide Counted, SpmcOk, SpmcNext, SpmcEnabled, FrameStep, SpmcTouch, SpmcFrame, AsRing, SpmcStart;
    SpmcMoveFrame(ms[i], ss[i], c, keep);
  }

  lemma {:induction false} SpmcSameRing<T>(ms: seq<Spmc<T>>, ss: seq<SpmcStep<T>>, c: Thread, keep: bool, i: nat)
    requires IsSpmcRun(ms, ss, c, keep) && i < |ms|
    ensures ms[i].n == ms[0].n
    decreases i
  {
    if i > 0 {
      SpmcSameRing(ms, ss, c, keep, i - 1);
      SpmcStepFrame(ms, ss, c, keep, i - 1);
    }
  }

  lemma SpmcDeliveredIffTimely<T>(ms: seq<Spmc<T>>, ss: seq<SpmcStep<T>>, c: Thread, keep: bool, n: nat)
    requires IsSpmcRun(ms, ss, c, keep) && n < |ms| && Fresh(SpmcFrame(ms[n]).pushed, ms[0].slots)
    ensures AllRight(SpmcFrame(ms[n]).pushed, ms[n].popped) <==>
      forall i :: 0 <= i < n ==> Timely(SpmcTouches(ms, ss), ms[0].n, i)
  {
    forall i | 0 <= i < |ss|
      ensures FrameStep(SpmcFrame(ms[i]), SpmcTouch(ms[i], ss[i]), SpmcFrame(ms[i + 1]), ms[0].n)
    {
      SpmcSameRing(ms, ss, c, keep, i);
      SpmcStepFrame(ms, ss, c, keep, i);
    }
    hide FrameStep, SpmcTouch, SpmcNext, SpmcEnabled, Timely, AllRight, Fresh;
    RightIffTimely(SpmcFrames(ms), SpmcTouches(ms, ss), ms[0].n, n);
  }

  // A release of the ticket that is next must wait for its handler.
  ghost predicate SpmcCareful<T>(m: Spmc<T>, s: SpmcStep<T>) {
    s.Move? && s.t in m.consumers && m.consumers[s.t].Release? && m.consumers[s.t].expected == m.minWrite ==>
      !Handling(m.consumers, m.minWrite)
  }

  lemma SpmcSafeIffCareful<T>(m: Spmc<T>, s: SpmcStep<T>, c: Thread, keep: bool)
    requires SpmcOk(m, c) && SpmcEnabled(m, s) && Safe(AsRing(m, c))
    ensures Safe(AsRing(SpmcNext(m, s, keep), c)) <==> SpmcCareful(m, s)
  {
    var q, moves := AsRing(m, c), SpmcMoves(m, s, c);
    SpmcRefines(m, s, c, keep);
    SpmcTouchIs(m, s, c);
    SpmcCarefulIs(m, s, c, keep);
    hide Safe, AsRing, SpmcMoves, SpmcCareful, Careful, Handling, SpmcTouch, TakeStep, GiveStep, CanPlay, Play, SpmcOk,
      SpmcEnabled, SpmcNext;
    if |moves| == 1 {
      assert moves == [moves[0]];
      OneCareful(q, moves[0], keep);
    } else {
      assert moves == [moves[0], moves[1]];
      TwoCareful(q, moves[0], moves[1], keep);
    }
  }

  lemma SpmcCarefulIs<T>(m: Spmc<T>, s: SpmcStep<T>, c: Thread, keep: bool)
    requires SpmcOk(m, c) && SpmcEnabled(m, s) && Counted(AsRing(m, c))
    ensures var q, moves := AsRing(m, c), SpmcMoves(m, s, c);
      && Enabled(q, moves[0])
      && (|moves| == 1 ==> (Careful(q, moves[0]) <==> SpmcCareful(m, s)))
      && (|moves| == 2 ==>
           && Enabled(Next(q, moves[0], keep), moves[1]) && Careful(q, moves[0])
           && Careful(Next(q, moves[0], keep), moves[1]) && SpmcCareful(m, s))
  {
    hide Slot, Handling, Counts, PcsOk, Unique;
    var q := AsRing(m, c);
    SameConsumers(m, c, m.minWrite);
    if s.Push? && m.producer.Filled? {
      OwnIsWritten(q.pc, c);
    }
    hide Unwritten, Pow2;
  }

  lemma SameConsumers<T>(m: Spmc<T>, c: Thread, k: nat)
    requires SpmcOk(m, c)
    ensures Handling(AsRing(m, c).pc, k) <==> Handling(m.consumers, k)
  {
    var pc := AsRing(m, c).pc;
    if t :| t in m.consumers && m.consumers[t].PopHandle? && m.consumers[t].ticket == k {
      assert pc[t] == m.consumers[t];
    }
    if t :| t in pc && pc[t].PopHandle? && pc[t].ticket == k {
      assert t != c && pc[t] == m.consumers[t];
    }
  }

  // ---------- runs of the code as written that go wrong ----------

  ghost predicate MpscReach(m: Mpsc<int>) {
    exists ms: seq<Mpsc<int>>, ss: seq<MpscStep<int>> :: IsMpscRun(ms, ss, 3, false) && ms[|ss|] == m
  }

  lemma MpscGo(m: Mpsc<int>, s: MpscStep<int>) returns (m1: Mpsc<int>)
    requires MpscReach(m) && MpscEnabled(m, s)
    ensures m1 == MpscNext(m, s, false) && MpscReach(m1)
  {
    hide MpscEnabled, MpscNext, MpscStart;
    var ms, ss :| IsMpscRun(ms, ss, 3, false) && ms[|ss|] == m;
    m1 := MpscNext(m, s, false);
    var ms1, ss1 := ms + [m1], ss + [s];
    assert IsMpscRun(ms1, ss1, 3, false) && ms1[|ss1|] == m1;
  }

  lemma MpscNew() returns (m: Mpsc<int>)
    ensures MpscReach(m) && m == Mpsc(1, 0, 0, 0, [0, 0], map[1 := Idle, 2 := Idle], NoPop, [], map[])
  {
    TwoSlots();
    m := MpscStart(1, [0, 0], {1, 2});
    assert m.producers == map[1 := Idle, 2 := Idle];
    assert m == MpscStart(m.n, m.slots, {1, 2});
    var ss: seq<MpscStep<int>> := [];
    assert IsMpscRun([m], ss, 3, false) && [m][|ss|] == m;
  }

  // One producer claims ticket 0 for event 7 and stops before it copies the event.
  lemma MpscStalled() returns (m: Mpsc<int>)
    ensures MpscReach(m) && m == Mpsc(1, 0, 1, 0, [0, 0], map[1 := PushWrite(7, 0), 2 := Idle], NoPop, [7], map[])
  {
    TwoSlots();
    m := MpscNew();
    hide MpscReach, Slot, Pow2;
    m := MpscGo(m, MpscStep.Begin(1, 7));
    assert m.producers == map[1 := PushLoad(7), 2 := Idle];
    m := MpscGo(m, MpscStep.Step(1));
    assert m.producers == map[1 := PushCheck(7, 0), 2 := Idle];
    m := MpscGo(m, MpscStep.Step(1));
    assert m.producers == map[1 := PushClaim(7, 0), 2 := Idle];
    m := MpscGo(m, MpscStep.Step(1));
    assert m.producers == map[1 := PushWrite(7, 0), 2 := Idle];
  }

  // The other one copies event 8 under ticket 1 and, retrying, publishes ticket 0.
  lemma MpscPublishedWrong() returns (m: Mpsc<int>)
    ensures MpscReach(m) && m == Mpsc(1, 0, 2, 1, [0, 8], map[1 := PushWrite(7, 0), 2 := Idle], NoPop, [7, 8], map[])
  {
    TwoSlots();
    m := MpscStalled();
    hide MpscReach, Slot, Pow2;
    m := MpscGo(m, MpscStep.Begin(2, 8));
    assert m.producers == map[1 := PushWrite(7, 0), 2 := PushLoad(8)];
    m := MpscGo(m, MpscStep.Step(2));
    assert m.producers == map[1 := PushWrite(7, 0), 2 := PushCheck(8, 1)];
    m := MpscGo(m, MpscStep.Step(2));
    assert m.producers == map[1 := PushWrite(7, 0), 2 := PushClaim(8, 1)];
    m := MpscGo(m, MpscStep.Step(2));
    assert m.producers == map[1 := PushWrite(7, 0), 2 := PushWrite(8, 1)];
    m := MpscGo(m, MpscStep.Step(2));
    assert m.producers == map[1 := PushWrite(7, 0), 2 := Publish(1, 1)];
    m := MpscGo(m, MpscStep.Step(2));
    assert m.producers == map[1 := PushWrite(7, 0), 2 := Publish(1, 0)];
    m := MpscGo(m, MpscStep.Step(2));
    assert m.producers == map[1 := PushWrite(7, 0), 2 := Idle];
  }

  // The consumer is given what slot 0 held from the start.
  lemma MpscWrongEvent() returns (m: Mpsc<int>)
    ensures MpscReach(m) && 0 in m.popped && 0 < |m.pushed| && m.popped[0] != m.pushed[0]
  {
    TwoSlots();
    m := MpscPublishedWrong();
    hide MpscReach, Slot, Pow2;
    m := MpscGo(m, MpscStep.Pop);
    m := MpscGo(m, MpscStep.Pop);
    m := MpscGo(m, MpscStep.Pop);
  }

  ghost predicate SpmcReach(m: Spmc<int>) {
    exists ms: seq<Spmc<int>>, ss: seq<SpmcStep<int>> :: IsSpmcRun(ms, ss, 3, false) && ms[|ss|] == m
  }

  lemma SpmcGo(m: Spmc<int>, s: SpmcStep<int>) returns (m1: Spmc<int>)
    requires SpmcReach(m) && SpmcEnabled(m, s)
    ensures m1 == SpmcNext(m, s, false) && SpmcReach(m1)
  {
    hide SpmcEnabled, SpmcNext, SpmcStart;
    var ms, ss :| IsSpmcRun(ms, ss, 3, false) && ms[|ss|] == m;
    m1 := SpmcNext(m, s, false);
    var ms1, ss1 := ms + [m1], ss + [s];
    assert IsSpmcRun(ms1, ss1, 3, false) && ms1[|ss1|] == m1;
  }

  lemma SpmcNew() returns (m: Spmc<int>)
    ensures SpmcReach(m) && m == Spmc(1, 0, 0, 0, [0, 0], NoPush, map[1 := Idle, 2 := Idle], [], map[])
  {
    TwoSlots();
    m := SpmcStart(1, [0, 0], {1, 2});
    assert m.consumers == map[1 := Idle, 2 := Idle];
    assert m == SpmcStart(m.n, m.slots, {1, 2});
    var ss: seq<SpmcStep<int>> := [];
    assert IsSpmcRun([m], ss, 3, false) && [m][|ss|] == m;
  }

  // The producer pushes an event while there is room.
  lemma SpmcPushed(m: Spmc<int>, v: int) returns (m1: Spmc<int>)
    requires SpmcReach(m) && m.n == 1 && |m.slots| == 2 && m.producer == NoPush
    requires m.minWrite <= m.writeIndex < m.minWrite + 2 && Slot(m.writeIndex, 1) < 2
    ensures SpmcReach(m1)
    ensures m1 == m.(writeIndex := m.writeIndex + 1, slots := m.slots[Slot(m.writeIndex, 1) := v],
      pushed := m.pushed + [v])
  {
    TwoSlots();
    hide SpmcReach, Slot, Pow2;
    m1 := SpmcGo(m, SpmcStep.Push(v));
    m1 := SpmcGo(m1, SpmcStep.Push(v));
    m1 := SpmcGo(m1, SpmcStep.Push(v));
    m1 := SpmcGo(m1, SpmcStep.Push(v));
  }

  lemma SpmcBothPushed() returns (m: Spmc<int>)
    ensures SpmcReach(m) && m == Spmc(1, 0, 2, 0, [7, 8], NoPush, map[1 := Idle, 2 := Idle], [7, 8], map[])
  {
    TwoSlots();
    m := SpmcNew();
    hide SpmcReach, Slot, Pow2;
    m := SpmcPushed(m, 7);
    m := SpmcPushed(m, 8);
  }

  // Events 7 and 8 are pushed; one consumer claims ticket 0 and stops before its handler looks at the slot.
  lemma SpmcStalled() returns (m: Spmc<int>)
    ensures SpmcReach(m)
    ensures m == Spmc(1, 1, 2, 0, [7, 8], NoPush, map[1 := PopHandle(0), 2 := Idle], [7, 8], map[])
  {
    m := SpmcBothPushed();
    hide SpmcReach, Slot, Pow2;
    m := SpmcGo(m, SpmcStep.Seek(1));
    assert m.consumers == map[1 := PopLoad, 2 := Idle];
    m := SpmcGo(m, SpmcStep.Move(1));
    assert m.consumers == map[1 := PopCheck(0), 2 := Idle];
    m := SpmcGo(m, SpmcStep.Move(1));
    assert m.consumers == map[1 := PopClaim(0), 2 := Idle];
    m := SpmcGo(m, SpmcStep.Move(1));
    assert m.consumers == map[1 := PopHandle(0), 2 := Idle];
  }

  // The other one handles ticket 1 and, retrying, releases ticket 0.
  lemma SpmcReleasedWrong() returns (m: Spmc<int>)
    ensures SpmcReach(m)
    ensures m == Spmc(1, 2, 2, 1, [7, 8], NoPush, map[1 := PopHandle(0), 2 := Idle], [7, 8], map[1 := 8])
  {
    TwoSlots();
    m := SpmcStalled();
    hide SpmcReach, Slot, Pow2;
    m := SpmcGo(m, SpmcStep.Seek(2));
    assert m.consumers == map[1 := PopHandle(0), 2 := PopLoad];
    m := SpmcGo(m, SpmcStep.Move(2));
    assert m.consumers == map[1 := PopHandle(0), 2 := PopCheck(1)];
    m := SpmcGo(m, SpmcStep.Move(2));
    assert m.consumers == map[1 := PopHandle(0), 2 := PopClaim(1)];
    m := SpmcGo(m, SpmcStep.Move(2));
    assert m.consumers == map[1 := PopHandle(0), 2 := PopHandle(1)];
    m := SpmcGo(m, SpmcStep.Move(2));
    assert m.consumers == map[1 := PopHandle(0), 2 := Release(1, 1)];
    m := SpmcGo(m, SpmcStep.Move(2));
    assert m.consumers == map[1 := PopHandle(0), 2 := Release(1, 0)];
    m := SpmcGo(m, SpmcStep.Move(2));
    assert m.consumers == map[1 := PopHandle(0), 2 := Idle];
  }

  // The producer copies event 9 over event 7 before that has been handled.
  lemma SpmcWrongEvent() returns (m: Spmc<int>)
    ensures SpmcReach(m) && 0 in m.popped && 0 < |m.pushed| && m.popped[0] != m.pushed[0]
  {
    TwoSlots();
    SlotPeriodic(0, 1);
    m := SpmcReleasedWrong();
    m := SpmcPushed(m, 9);
    hide SpmcReach, Slot, Pow2;
    m := SpmcGo(m, SpmcStep.Move(1));
  }
}
