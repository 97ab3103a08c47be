/** The queues with one consumer or one producer.  Each of their steps is one or two moves of the queue
    with many of both, so what MpmcRing proves of every run holds of theirs. */
module RingVariants {
  import opened Collections
  import opened RingIndex
  import opened MpmcRing

  // Several moves in a row.
  predicate CanPlay<T>(q: Ring<T>, ms: seq<Move<T>>, keep: bool)
    decreases |ms|
  {
    ms != [] ==> Enabled(q, ms[0]) && CanPlay(Next(q, ms[0], keep), ms[1..], keep)
  }

  function Play<T>(q: Ring<T>, ms: seq<Move<T>>, keep: bool): Ring<T>
    requires CanPlay(q, ms, keep)
    decreases |ms|
  {
    if ms == [] then q else Play(Next(q, ms[0], keep), ms[1..], keep)
  }

  lemma {:induction false} PlayKeeps<T>(q: Ring<T>, ms: seq<Move<T>>, keep: bool)
    requires CanPlay(q, ms, keep) && Counted(q)
    ensures Counted(Play(q, ms, keep))
    ensures keep && Safe(q) && Own(q) ==> Safe(Play(q, ms, keep)) && Own(Play(q, ms, keep))
    decreases |ms|
  {
    hide Counted, InPlace, Values, Own, Enabled, Next;
    if ms != [] {
      NextCounted(q, ms[0], keep);
      if keep && Safe(q) && Own(q) {
        OwnIsCareful(q, ms[0]);
        OwnKept(q, ms[0]);
        SafeIffCareful(q, ms[0], keep);
      }
      PlayKeeps(Next(q, ms[0], keep), ms[1..], keep);
    }
  }

  lemma PlayOne<T>(q: Ring<T>, m: Move<T>, keep: bool)
    requires Enabled(q, m)
    ensures CanPlay(q, [m], keep) && Play(q, [m], keep) == Next(q, m, keep)
  {
    assert [m][1..] == [];
    assert CanPlay(Next(q, m, keep), [], keep);
  }

  lemma PlayTwo<T>(q: Ring<T>, m: Move<T>, m1: Move<T>, keep: bool)
    requires Enabled(q, m) && Enabled(Next(q, m, keep), m1)
    ensures CanPlay(q, [m, m1], keep) && Play(q, [m, m1], keep) == Next(Next(q, m, keep), m1, keep)
  {
    assert [m, m1][1..] == [m1];
    PlayOne(Next(q, m, keep), m1, keep);
  }

  // ---------- many producers, one consumer ----------

  datatype Reader = NoPop | Loaded(r: nat) | Ready(r: nat) | Handled(r: nat)

  // There is no index of released tickets: the one consumer advances the read index when it is done.
  datatype Mpsc<T> = Mpsc(
    n: nat,
    readIndex: nat,
    write: nat,
    maxRead: nat,
    slots: seq<T>,
    producers: map<Thread, Pc<T>>,
    consumer: Reader,
    pushed: seq<T>,
    popped: map<nat, T>)

  predicate PushPc<T>(p: Pc<T>) { p.Idle? || p.PushLoad? || p.PushCheck? || p.PushClaim? || p.PushWrite? || p.Publish? }

  ghost predicate MpscOk<T>(m: Mpsc<T>, c: Thread) {
    && c !in m.producers && (forall t :: t in m.producers ==> PushPc(m.producers[t]))
    && (m.consumer.NoPop? || m.consumer.r == m.readIndex)
  }

  datatype MpscStep<T> =
    | Begin(t: Thread, v: T)
    | Tire(t: Thread)
    | Step(t: Thread)
    | Fail(t: Thread)
    | Pop

  predicate MpscEnabled<T>(m: Mpsc<T>, s: MpscStep<T>) {
    match s
    case Begin(t, _) => t in m.producers && m.producers[t].Idle?
    case Tire(t) => t in m.producers && m.producers[t].PushLoad?
    case Step(t) => t in m.producers && !m.producers[t].Idle?
    case Fail(t) => t in m.producers && (m.producers[t].PushClaim? || m.producers[t].Publish?)
    case Pop => true
  }

  function At<T>(m: Mpsc<T>, t: Thread, p: Pc<T>): Mpsc<T> { m.(producers := m.producers[t := p]) }

  function PushStep<T>(m: Mpsc<T>, t: Thread, keep: bool): Mpsc<T>
    requires t in m.producers
  {
    match m.producers[t]
    case PushLoad(v) => At(m, t, PushCheck(v, m.write))
    case PushCheck(v, w) => At(m, t, if Less(w, m.readIndex, Pow2(m.n)) then PushClaim(v, w) else PushLoad(v))
    case PushClaim(v, w) =>
      if m.write == w then At(m, t, PushWrite(v, w)).(write := w + 1, pushed := m.pushed + [v])
        else At(m, t, PushLoad(v))
    case PushWrite(v, k) =>
      var i := Slot(k, m.n);
      At(m, t, Publish(k, k)).(slots := if i < |m.slots| then m.slots[i := v] else m.slots)
    case Publish(k, e) =>
      if m.maxRead == e then At(m, t, Idle).(maxRead := e + 1) else At(m, t, Publish(k, if keep then k else m.maxRead))
    case _ => m
  }

  function PopStep<T>(m: Mpsc<T>): Mpsc<T> {
    match m.consumer
    case NoPop => m.(consumer := Loaded(m.readIndex))
    case Loaded(r) => m.(consumer := if m.maxRead > r then Ready(r) else NoPop)
    case Ready(r) =>
      var i := Slot(r, m.n);
      m.(consumer := Handled(r), popped := if i < |m.slots| then m.popped[r := m.slots[i]] else m.popped)
    case Handled(r) => m.(consumer := NoPop, readIndex := r + 1)
  }

  function MpscNext<T>(m: Mpsc<T>, s: MpscStep<T>, keep: bool): Mpsc<T>
    requires MpscEnabled(m, s)
  {
    match s
    case Begin(t, v) => At(m, t, PushLoad(v))
    case Tire(t) => At(m, t, Idle)
    case Step(t) => PushStep(m, t, keep)
    case Fail(t) =>
      (match m.producers[t]
       case PushClaim(v, _) => At(m, t, PushLoad(v))
       case Publish(k, _) => At(m, t, Publish(k, if keep then k else m.maxRead))
       case _ => m)
    case Pop => PopStep(m)
  }

  // The consumer of many consumers' queue: it has claimed its ticket once it has seen that it may.
  function ReaderPc<T>(c: Reader): Pc<T> {
    match c
    case NoPop => Idle
    case Loaded(r) => PopCheck(r)
    case Ready(r) => PopHandle(r)
    case Handled(r) => Release(r, r)
  }

  function ToRing<T>(m: Mpsc<T>, c: Thread): Ring<T> {
    Ring(m.n, if m.consumer.Ready? || m.consumer.Handled? then m.readIndex + 1 else m.readIndex,
      m.write, m.maxRead, m.readIndex, m.slots, m.producers[c := ReaderPc(m.consumer)], m.pushed, m.popped)
  }

  // The moves that a step stands for.
  function Moves<T>(m: Mpsc<T>, s: MpscStep<T>, c: Thread): seq<Move<T>> {
    match s
    case Begin(t, v) => [StartPush(t, v)]
    case Tire(t) => [GiveUp(t)]
    case Step(t) => [Advance(t)]
    case Fail(t) => [Spurious(t)]
    case Pop =>
      match m.consumer
      case NoPop => [StartPop(c), Advance(c)]
      case Loaded(r) => if m.maxRead > r then [Advance(c), Advance(c)] else [Advance(c)]
      case _ => [Advance(c)]
  }

  lemma PutApart<K, V>(m: map<K, V>, k: K, v: V, j: K, w: V)
    requires k != j
    ensures m[k := v][j := w] == m[j := w][k := v]
  {
  }

  lemma MpscPushRefines<T>(m: Mpsc<T>, s: MpscStep<T>, c: Thread, keep: bool)
    requires MpscOk(m, c) && MpscEnabled(m, s) && !s.Pop?
    ensures CanPlay(ToRing(m, c), Moves(m, s, c), keep)
    ensures Play(ToRing(m, c), Moves(m, s, c), keep) == ToRing(MpscNext(m, s, keep), c)
  {
    hide CanPlay, ReaderPc, Enabled, PushPc, Play, Pow2;
    var q, m1 := ToRing(m, c), MpscNext(m, s, keep);
    assert q.pc[s.t] == m.producers[s.t];
    PutApart(m.producers, s.t, m1.producers[s.t], c, ReaderPc(m.consumer));
    hide Slot;
    PlayOne(q, Moves(m, s, c)[0], keep);
    if s.Step? {
      PushStepRefines(m, s.t, c, keep);
    }
  }

  lemma PushStepRefines<T>(m: Mpsc<T>, t: Thread, c: Thread, keep: bool)
    requires MpscOk(m, c) && t in m.producers && !m.producers[t].Idle?
    ensures t in ToRing(m, c).pc && Advanced(ToRing(m, c), t, keep) == ToRing(PushStep(m, t, keep), c)
  {
    hide ReaderPc, Pow2;
    var q, m1 := ToRing(m, c), PushStep(m, t, keep);
    assert q.pc[t] == m.producers[t];
    PutApart(m.producers, t, m1.producers[t], c, ReaderPc(m.consumer));
    hide Slot;
  }

  lemma MpscPopRefines<T>(m: Mpsc<T>, c: Thread, keep: bool)
    requires MpscOk(m, c)
    ensures CanPlay(ToRing(m, c), Moves(m, Pop, c), keep)
    ensures Play(ToRing(m, c), Moves(m, Pop, c), keep) == ToRing(PopStep(m), c)
  {
    hide Slot, Pow2, CanPlay, Play;
    var q, ms := ToRing(m, c), Moves(m, Pop, c);
    var q1 := Next(q, ms[0], keep);
    PutTwice(m.producers, c, q.pc[c], q1.pc[c]);
    if |ms| == 1 {
      PlayOne(q, ms[0], keep);
    } else {
      PutTwice(m.producers, c, q1.pc[c], Next(q1, ms[1], keep).pc[c]);
      PlayTwo(q, ms[0], ms[1], keep);
    }
  }

  lemma MpscRefines<T>(m: Mpsc<T>, s: MpscStep<T>, c: Thread, keep: bool)
    requires MpscOk(m, c) && MpscEnabled(m, s)
    ensures MpscOk(MpscNext(m, s, keep), c) && CanPlay(ToRing(m, c), Moves(m, s, c), keep)
    ensures Play(ToRing(m, c), Moves(m, s, c), keep) == ToRing(MpscNext(m, s, keep), c)
  {
    MpscStays(m, s, c, keep);
    hide MpscOk, ToRing, Moves, PushStep, PopStep, CanPlay, Play, MpscEnabled;
    if s.Pop? {
      MpscPopRefines(m, c, keep);
    } else {
      MpscPushRefines(m, s, c, keep);
    }
  }

  // Nor can it take a step that the queue with many consumers could not.
  lemma MpscEnabledIff<T>(m: Mpsc<T>, s: MpscStep<T>, c: Thread, keep: bool)
    requires MpscOk(m, c) && (s.Pop? || s.t in m.producers)
    ensures MpscEnabled(m, s) <==> CanPlay(ToRing(m, c), Moves(m, s, c), keep)
  {
    if s.Pop? {
      MpscPopRefines(m, c, keep);
    } else {
      assert ToRing(m, c).pc[s.t] == m.producers[s.t] && PushPc(m.producers[s.t]);
      hide ToRing, MpscOk, PushPc;
      if Enabled(ToRing(m, c), Moves(m, s, c)[0]) {
        PlayOne(ToRing(m, c), Moves(m, s, c)[0], keep);
      }
    }
  }

  lemma MpscStays<T>(m: Mpsc<T>, s: MpscStep<T>, c: Thread, keep: bool)
    requires MpscOk(m, c) && MpscEnabled(m, s)
    ensures MpscOk(MpscNext(m, s, keep), c)
  {
    hide Slot, Pow2;
  }

  function MpscStart<T>(n: nat, slots: seq<T>, producers: set<Thread>): Mpsc<T> {
    Mpsc(n, 0, 0, 0, slots, map t | t in producers :: Idle, NoPop, [], map[])
  }

  ghost predicate IsMpscRun<T>(ms: seq<Mpsc<T>>, ss: seq<MpscStep<T>>, c: Thread, keep: bool) {
    && |ms| == |ss| + 1
    && (exists producers :: c !in producers && ms[0] == MpscStart(ms[0].n, ms[0].slots, producers))
    && |ms[0].slots| == Pow2(ms[0].n)
    && forall i :: 0 <= i < |ss| ==> MpscEnabled(ms[i], ss[i]) && ms[i + 1] == MpscNext(ms[i], ss[i], keep)
  }

  lemma MpscStartSafe<T>(n: nat, slots: seq<T>, producers: set<Thread>, c: Thread)
    requires c !in producers && |slots| == Pow2(n)
    ensures var m := MpscStart(n, slots, producers);
      MpscOk(m, c) && Safe(ToRing(m, c)) && Own(ToRing(m, c))
  {
    hide Safe, Own, Pow2;
    var m := MpscStart(n, slots, producers);
    StartSafe(n, slots, producers + {c});
    assert ToRing(m, c).pc == Start(n, slots, producers + {c}).pc;
  }

  // In every run the counts hold; if tickets are published in order, every consumed event is the one pushed
  // under its ticket and no live slot is overwritten.
  lemma {:induction false} MpscRunSafe<T>(ms: seq<Mpsc<T>>, ss: seq<MpscStep<T>>, c: Thread, keep: bool, i: nat)
    requires IsMpscRun(ms, ss, c, keep) && i < |ms|
    ensures MpscOk(ms[i], c) && Counted(ToRing(ms[i], c))
    ensures keep ==> Safe(ToRing(ms[i], c)) && Own(ToRing(ms[i], c))
    decreases i
  {
    hide MpscOk, Counted, InPlace, Values, Own, ToRing, MpscNext, MpscEnabled;
    if i == 0 {
      var producers :| c !in producers && ms[0] == MpscStart(ms[0].n, ms[0].slots, producers);
      MpscStartSafe(ms[0].n, ms[0].slots, producers, c);
    } else {
      MpscRunSafe(ms, ss, c, keep, i - 1);
      MpscRefines(ms[i - 1], ss[i - 1], c, keep);
      PlayKeeps(ToRing(ms[i - 1], c), Moves(ms[i - 1], ss[i - 1], c), keep);
    }
  }

  // ---------- one producer, many consumers ----------

  datatype Writer<T> = NoPush | Held(v: T, w: nat) | Spare(v: T, w: nat) | Filled(v: T, w: nat)

  // There is no index of published tickets: the one producer advances the write index when it is done.
  datatype Spmc<T> = Spmc(
    n: nat,
    read: nat,
    writeIndex: nat,
    minWrite: nat,
    slots: seq<T>,
    producer: Writer<T>,
    consumers: map<Thread, Pc<T>>,
    pushed: seq<T>,
    popped: map<nat, T>)

  predicate PopPc<T>(p: Pc<T>) { p.Idle? || p.PopLoad? || p.PopCheck? || p.PopClaim? || p.PopHandle? || p.Release? }

  ghost predicate SpmcOk<T>(m: Spmc<T>, c: Thread) {
    && c !in m.consumers && (forall t :: t in m.consumers ==> PopPc(m.consumers[t]))
    && (m.producer.NoPush? || m.producer.w == m.writeIndex)
  }

  datatype SpmcStep<T> =
    | Seek(t: Thread)
    | Leave(t: Thread)
    | Move(t: Thread)
    | Miss(t: Thread)
    | Push(v: T)   // v is the event that a push begins with

  predicate SpmcEnabled<T>(m: Spmc<T>, s: SpmcStep<T>) {
    match s
    case Seek(t) => t in m.consumers && m.consumers[t].Idle?
    case Leave(t) => t in m.consumers && m.consumers[t].PopLoad?
    case Move(t) => t in m.consumers && !m.consumers[t].Idle?
    case Miss(t) => t in m.consumers && (m.consumers[t].PopClaim? || m.consumers[t].Release?)
    case Push(_) => true
  }

  function On<T>(m: Spmc<T>, t: Thread, p: Pc<T>): Spmc<T> { m.(consumers := m.consumers[t := p]) }

  function TakeStep<T>(m: Spmc<T>, t: Thread, keep: bool): Spmc<T>
    requires t in m.consumers
  {
    match m.consumers[t]
    case PopLoad => On(m, t, PopCheck(m.read))
    case PopCheck(r) => On(m, t, if m.writeIndex > r then PopClaim(r) else Idle)
    case PopClaim(r) => if m.read == r then On(m, t, PopHandle(r)).(read := r + 1) else On(m, t, PopLoad)
    case PopHandle(k) =>
      var i := Slot(k, m.n);
      On(m, t, Release(k, k)).(popped := if i < |m.slots| then m.popped[k := m.slots[i]] else m.popped)
    case Release(k, e) =>
      if m.minWrite == e then On(m, t, Idle).(minWrite := e + 1)
        else On(m, t, Release(k, if keep then k else m.minWrite))
    case _ => m
  }

  function GiveStep<T>(m: Spmc<T>, v: T): Spmc<T> {
    match m.producer
    case NoPush => m.(producer := Held(v, m.writeIndex))
    case Held(u, w) => m.(producer := if Less(w, m.minWrite, Pow2(m.n)) then Spare(u, w) else NoPush)
    case Spare(u, w) =>
      var i := Slot(w, m.n);
      m.(producer := Filled(u, w), slots := if i < |m.slots| then m.slots[i := u] else m.slots)
    case Filled(u, w) => m.(producer := NoPush, writeIndex := w + 1, pushed := m.pushed + [u])
  }

  function SpmcNext<T>(m: Spmc<T>, s: SpmcStep<T>, keep: bool): Spmc<T>
    requires SpmcEnabled(m, s)
  {
    match s
    case Seek(t) => On(m, t, PopLoad)
    case Leave(t) => On(m, t, Idle)
    case Move(t) => TakeStep(m, t, keep)
    case Miss(t) =>
      (match m.consumers[t]
       case PopClaim(_) => On(m, t, PopLoad)
       case Release(k, _) => On(m, t, Release(k, if keep then k else m.minWrite))
       case _ => m)
    case Push(v) => GiveStep(m, v)
  }

  function WriterPc<T>(w: Writer<T>): Pc<T> {
    match w
    case NoPush => Idle
    case Held(v, i) => PushCheck(v, i)
    case Spare(v, i) => PushWrite(v, i)
    case Filled(v, i) => Publish(i, i)
  }

  predicate Claimed<T>(w: Writer<T>) { w.Spare? || w.Filled? }

  function AsRing<T>(m: Spmc<T>, c: Thread): Ring<T> {
    Ring(m.n, m.read, if Claimed(m.producer) then m.writeIndex + 1 else m.writeIndex, m.writeIndex, m.minWrite, m.slots,
      m.consumers[c := WriterPc(m.producer)],
      if Claimed(m.producer) then m.pushed + [m.producer.v] else m.pushed, m.popped)
  }

  function SpmcMoves<T>(m: Spmc<T>, s: SpmcStep<T>, c: Thread): seq<MpmcRing.Move<T>> {
    match s
    case Seek(t) => [StartPop(t)]
    case Leave(t) => [GiveUp(t)]
    case Move(t) => [Advance(t)]
    case Miss(t) => [Spurious(t)]
    case Push(v) =>
      match m.producer
      case NoPush => [StartPush(c, v), Advance(c)]
      case Held(_, w) => [Advance(c), if Less(w, m.minWrite, Pow2(m.n)) then Advance(c) else GiveUp(c)]
      case _ => [Advance(c)]
  }

  lemma SpmcTakeRefines<T>(m: Spmc<T>, t: Thread, c: Thread, keep: bool)
    requires SpmcOk(m, c) && t in m.consumers && !m.consumers[t].Idle?
    ensures t in AsRing(m, c).pc && Advanced(AsRing(m, c), t, keep) == AsRing(TakeStep(m, t, keep), c)
  {
    hide Slot, Pow2, Write, WriterPc, Claim;
    var q, m1 := AsRing(m, c), TakeStep(m, t, keep);
    assert q.pc[t] == m.consumers[t];
    PutApart(m.consumers, t, m1.consumers[t], c, WriterPc(m.producer));
  }

  // The moves that change a consumer's program counter alone.
  lemma SpmcTurnRefines<T>(m: Spmc<T>, s: SpmcStep<T>, c: Thread, keep: bool)
    requires SpmcOk(m, c) && SpmcEnabled(m, s) && !s.Push? && !s.Move?
    ensures Enabled(AsRing(m, c), SpmcMoves(m, s, c)[0])
    ensures Next(AsRing(m, c), SpmcMoves(m, s, c)[0], keep) == AsRing(SpmcNext(m, s, keep), c)
  {
    hide WriterPc, Slot, Pow2, Advanced, TakeStep;
    var q, m1 := AsRing(m, c), SpmcNext(m, s, keep);
    assert q.pc[s.t] == m.consumers[s.t];
    PutApart(m.consumers, s.t, m1.consumers[s.t], c, WriterPc(m.producer));
  }

  lemma SpmcPopRefines<T>(m: Spmc<T>, s: SpmcStep<T>, c: Thread, keep: bool)
    requires SpmcOk(m, c) && SpmcEnabled(m, s) && !s.Push?
    ensures CanPlay(AsRing(m, c), SpmcMoves(m, s, c), keep)
    ensures Play(AsRing(m, c), SpmcMoves(m, s, c), keep) == AsRing(SpmcNext(m, s, keep), c)
  {
    if s.Move? {
      SpmcTakeRefines(m, s.t, c, keep);
      assert AsRing(m, c).pc[s.t] == m.consumers[s.t];
    } else {
      SpmcTurnRefines(m, s, c, keep);
    }
    hide AsRing, Advanced, TakeStep, CanPlay, Play;
    PlayOne(AsRing(m, c), SpmcMoves(m, s, c)[0], keep);
  }

  lemma SpmcPushRefines<T>(m: Spmc<T>, v: T, c: Thread, keep: bool)
    requires SpmcOk(m, c)
    ensures CanPlay(AsRing(m, c), SpmcMoves(m, Push(v), c), keep)
    ensures Play(AsRing(m, c), SpmcMoves(m, Push(v), c), keep) == AsRing(GiveStep(m, v), c)
  {
    if Claimed(m.producer) {
      SpmcFillRefines(m, v, c, keep);
    } else {
      SpmcBeginRefines(m, v, c, keep);
    }
  }

  // The producer loads, or it checks and has claimed its ticket by that: two moves.
  lemma SpmcBeginRefines<T>(m: Spmc<T>, v: T, c: Thread, keep: bool)
    requires SpmcOk(m, c) && !Claimed(m.producer)
    ensures CanPlay(AsRing(m, c), SpmcMoves(m, Push(v), c), keep)
    ensures Play(AsRing(m, c), SpmcMoves(m, Push(v), c), keep) == AsRing(GiveStep(m, v), c)
  {
    hide Slot, Pow2, CanPlay, Play, PopPc;
    var q, ms := AsRing(m, c), SpmcMoves(m, Push(v), c);
    var q1 := Next(q, ms[0], keep);
    PutTwice(m.consumers, c, q.pc[c], q1.pc[c]);
    PutTwice(m.consumers, c, q1.pc[c], Next(q1, ms[1], keep).pc[c]);
    PlayTwo(q, ms[0], ms[1], keep);
  }

  // The producer copies or publishes.
  lemma SpmcFillRefines<T>(m: Spmc<T>, v: T, c: Thread, keep: bool)
    requires SpmcOk(m, c) && Claimed(m.producer)
    ensures CanPlay(AsRing(m, c), SpmcMoves(m, Push(v), c), keep)
    ensures Play(AsRing(m, c), SpmcMoves(m, Push(v), c), keep) == AsRing(GiveStep(m, v), c)
  {
    hide Slot, Pow2, CanPlay, Play, PopPc;
    var q, ms := AsRing(m, c), SpmcMoves(m, Push(v), c);
    PutTwice(m.consumers, c, q.pc[c], Next(q, ms[0], keep).pc[c]);
    PlayOne(q, ms[0], keep);
  }

  lemma SpmcEnabledIff<T>(m: Spmc<T>, s: SpmcStep<T>, c: Thread, keep: bool)
    requires SpmcOk(m, c) && (s.Push? || s.t in m.consumers)
    ensures SpmcEnabled(m, s) <==> CanPlay(AsRing(m, c), SpmcMoves(m, s, c), keep)
  {
    if s.Push? {
      SpmcPushRefines(m, s.v, c, keep);
    } else {
      assert AsRing(m, c).pc[s.t] == m.consumers[s.t] && PopPc(m.consumers[s.t]);
      hide AsRing, SpmcOk, PopPc;
      if Enabled(AsRing(m, c), SpmcMoves(m, s, c)[0]) {
        PlayOne(AsRing(m, c), SpmcMoves(m, s, c)[0], keep);
      }
    }
  }

  lemma SpmcStays<T>(m: Spmc<T>, s: SpmcStep<T>, c: Thread, keep: bool)
    requires SpmcOk(m, c) && SpmcEnabled(m, s)
    ensures SpmcOk(SpmcNext(m, s, keep), c)
  {
    hide Slot, Pow2;
  }

  lemma SpmcRefines<T>(m: Spmc<T>, s: SpmcStep<T>, c: Thread, keep: bool)
    requires SpmcOk(m, c) && SpmcEnabled(m, s)
    ensures SpmcOk(SpmcNext(m, s, keep), c) && CanPlay(AsRing(m, c), SpmcMoves(m, s, c), keep)
    ensures Play(AsRing(m, c), SpmcMoves(m, s, c), keep) == AsRing(SpmcNext(m, s, keep), c)
  {
    SpmcStays(m, s, c, keep);
    hide SpmcOk, AsRing, SpmcMoves, TakeStep, GiveStep, CanPlay, Play, SpmcEnabled;
    if s.Push? {
      SpmcPushRefines(m, s.v, c, keep);
    } else {
      SpmcPopRefines(m, s, c, keep);
    }
  }

  function SpmcStart<T>(n: nat, slots: seq<T>, consumers: set<Thread>): Spmc<T> {
    Spmc(n, 0, 0, 0, slots, NoPush, map t | t in consumers :: Idle, [], map[])
  }

  ghost predicate IsSpmcRun<T>(ms: seq<Spmc<T>>, ss: seq<SpmcStep<T>>, c: Thread, keep: bool) {
    && |ms| == |ss| + 1
    && (exists consumers :: c !in consumers && ms[0] == SpmcStart(ms[0].n, ms[0].slots, consumers))
    && |ms[0].slots| == Pow2(ms[0].n)
    && forall i :: 0 <= i < |ss| ==> SpmcEnabled(ms[i], ss[i]) && ms[i + 1] == SpmcNext(ms[i], ss[i], keep)
  }

  lemma SpmcStartSafe<T>(n: nat, slots: seq<T>, consumers: set<Thread>, c: Thread)
    requires c !in consumers && |slots| == Pow2(n)
    ensures var m := SpmcStart(n, slots, consumers);
      SpmcOk(m, c) && Safe(AsRing(m, c)) && Own(AsRing(m, c))
  {
    hide Safe, Own, Pow2;
    var m := SpmcStart(n, slots, consumers);
    StartSafe(n, slots, consumers + {c});
    assert AsRing(m, c).pc == Start(n, slots, consumers + {c}).pc;
  }

  lemma {:induction false} SpmcRunSafe<T>(ms: seq<Spmc<T>>, ss: seq<SpmcStep<T>>, c: Thread, keep: bool, i: nat)
    requires IsSpmcRun(ms, ss, c, keep) && i < |ms|
    ensures SpmcOk(ms[i], c) && Counted(AsRing(ms[i], c))
    ensures keep ==> Safe(AsRing(ms[i], c)) && Own(AsRing(ms[i], c))
    decreases i
  {
    hide SpmcOk, Counted, InPlace, Values, Own, AsRing, SpmcNext, SpmcEnabled;
    if i == 0 {
      var consumers :| c !in consumers && ms[0] == SpmcStart(ms[0].n, ms[0].slots, consumers);
      SpmcStartSafe(ms[0].n, ms[0].slots, consumers, c);
    } else {
      SpmcRunSafe(ms, ss, c, keep, i - 1);
      SpmcRefines(ms[i - 1], ss[i - 1], c, keep);
      PlayKeeps(AsRing(ms[i - 1], c), SpmcMoves(ms[i - 1], ss[i - 1], c), keep);
    }
  }
}
