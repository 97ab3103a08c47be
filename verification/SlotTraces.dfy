/** What a ring of slots hands out, seen from the slots alone: in each step some ticket's event may be
    copied into its slot, and the slot of some ticket may be given to a handler. */
module SlotTraces {
  import opened Basics
  import opened Collections
  import opened RingIndex

  datatype Frame<T> = Frame(slots: seq<T>, pushed: seq<T>, popped: map<nat, T>)

  // The ticket whose event a step copies into its slot, and the one whose slot it gives to a handler.
  datatype Touch = Touch(copied: Option<nat>, handled: Option<nat>)

  // Every handler was given what was pushed under its ticket.
  ghost predicate AllRight<T>(pushed: seq<T>, popped: map<nat, T>) {
    forall k :: k in popped ==> k < |pushed| && popped[k] == pushed[k]
  }

  // No event is pushed twice and none is what a slot held from the start.
  ghost predicate Fresh<T>(pushed: seq<T>, slots: seq<T>) {
    NoDup(pushed) && forall v :: v in pushed ==> v !in slots
  }

  ghost predicate Copies<T>(f: Frame<T>, copied: Option<nat>, slots1: seq<T>, n: nat) {
    match copied
    case None => slots1 == f.slots
    case Some(k) => k < |f.pushed| && Slot(k, n) < |f.slots| && slots1 == f.slots[Slot(k, n) := f.pushed[k]]
  }

  ghost predicate Hands<T>(f: Frame<T>, handled: Option<nat>, popped1: map<nat, T>, n: nat) {
    match handled
    case None => popped1 == f.popped
    case Some(k) =>
      k < |f.pushed| && k !in f.popped && Slot(k, n) < |f.slots| && popped1 == f.popped[k := f.slots[Slot(k, n)]]
  }

  ghost predicate FrameStep<T>(f: Frame<T>, x: Touch, f1: Frame<T>, n: nat) {
    && f.pushed <= f1.pushed && Copies(f, x.copied, f1.slots, n) && Hands(f, x.handled, f1.popped, n)
    && forall k :: k in f.popped ==> k < |f.pushed|
  }

  ghost predicate IsTrace<T>(fs: seq<Frame<T>>, xs: seq<Touch>, n: nat) {
    && |fs| == |xs| + 1 && fs[0].popped == map[]
    && forall i :: 0 <= i < |xs| ==> FrameStep(fs[i], xs[i], fs[i + 1], n)
  }

  // The ticket whose event was the last to be copied into slot s before the i-th step.
  ghost function LastCopied(xs: seq<Touch>, n: nat, i: nat, s: nat): Option<nat>
    requires i <= |xs|
  {
    if i == 0 then None
    else
      var k := xs[i - 1].copied;
      if k.Some? && Slot(k.value, n) == s then k else LastCopied(xs, n, i - 1, s)
  }

  // If the i-th step gives a slot to a handler, what was last copied into it is the event of that ticket.
  ghost predicate Timely(xs: seq<Touch>, n: nat, i: nat)
    requires i < |xs|
  {
    xs[i].handled.Some? ==> LastCopied(xs, n, i, Slot(xs[i].handled.value, n)) == xs[i].handled
  }

  // ---------- what is in the slots ----------

  ghost predicate SlotTold<T>(f: Frame<T>, first: seq<T>, s: nat, last: Option<nat>)
    requires s < |f.slots|
  {
    match last
    case None => s < |first| && f.slots[s] == first[s]
    case Some(k) => k < |f.pushed| && f.slots[s] == f.pushed[k]
  }

  lemma SlotStillTold<T>(f: Frame<T>, x: Touch, f1: Frame<T>, n: nat, first: seq<T>, s: nat, last: Option<nat>)
    requires FrameStep(f, x, f1, n) && s < |f.slots| && SlotTold(f, first, s, last)
    ensures |f1.slots| == |f.slots|
    ensures SlotTold(f1, first, s, if x.copied.Some? && Slot(x.copied.value, n) == s then x.copied else last)
  {
    hide Slot, Hands;
  }

  // A slot holds the event last copied into it, or what it held from the start.
  lemma {:induction false} SlotsHoldLast<T>(fs: seq<Frame<T>>, xs: seq<Touch>, n: nat, i: nat, s: nat)
    requires IsTrace(fs, xs, n) && i < |fs| && s < |fs[0].slots|
    ensures |fs[i].slots| == |fs[0].slots| && SlotTold(fs[i], fs[0].slots, s, LastCopied(xs, n, i, s))
    decreases i
  {
    hide Slot, FrameStep, SlotTold;
    if i > 0 {
      SlotsHoldLast(fs, xs, n, i - 1, s);
      SlotStillTold(fs[i - 1], xs[i - 1], fs[i], n, fs[0].slots, s, LastCopied(xs, n, i - 1, s));
    } else {
      ToldAtFirst(fs[0], s);
    }
  }

  lemma ToldAtFirst<T>(f: Frame<T>, s: nat)
    requires s < |f.slots|
    ensures SlotTold(f, f.slots, s, None)
  {
  }

  // ---------- when what is handed out is right ----------

  lemma FreshPrefix<T>(pushed: seq<T>, more: seq<T>, slots: seq<T>)
    requires pushed <= more && Fresh(more, slots)
    ensures Fresh(pushed, slots)
  {
    assert forall i :: 0 <= i < |pushed| ==> pushed[i] == more[i] && more[i] in more;
  }

  // The slot holds the ticket's event exactly if that was the last to be copied into it.
  lemma RightSlot<T>(f: Frame<T>, first: seq<T>, k: nat, s: nat, last: Option<nat>)
    requires k < |f.pushed| && s < |f.slots| && SlotTold(f, first, s, last)
    ensures last == Some(k) ==> f.slots[s] == f.pushed[k]
    ensures Fresh(f.pushed, first) ==> (f.slots[s] == f.pushed[k] <==> last == Some(k))
  {
    assert last.None? ==> first[s] in first;
    assert f.pushed[k] in f.pushed;
    if Fresh(f.pushed, first) {
      OnlyAt(f.pushed, k);
    }
  }

  // One more hand-out.
  lemma HandsRight<T>(f: Frame<T>, x: Touch, f1: Frame<T>, n: nat)
    requires FrameStep(f, x, f1, n)
    ensures AllRight(f1.pushed, f1.popped) <==>
      AllRight(f.pushed, f.popped) && (x.handled.Some? ==>
        f.slots[Slot(x.handled.value, n)] == f.pushed[x.handled.value])
  {
    hide Slot, Copies;
    assert forall k :: k in f.popped ==> f1.popped[k] == f.popped[k] && f1.pushed[k] == f.pushed[k];
    if x.handled.Some? {
      assert f1.pushed[x.handled.value] == f.pushed[x.handled.value];
    }
  }

  // One more step: it hands out rightly if it is timely, and only then if the events are told apart.
  lemma StepDelivers<T>(fs: seq<Frame<T>>, xs: seq<Touch>, n: nat, i: nat)
    requires IsTrace(fs, xs, n) && i < |xs|
    ensures var right, right1 := AllRight(fs[i].pushed, fs[i].popped), AllRight(fs[i + 1].pushed, fs[i + 1].popped);
      && (right && Timely(xs, n, i) ==> right1)
      && (Fresh(fs[i].pushed, fs[0].slots) && right1 ==> right && Timely(xs, n, i))
  {
    HandsRight(fs[i], xs[i], fs[i + 1], n);
    if xs[i].handled.Some? {
      var k := xs[i].handled.value;
      SlotCount(fs, xs, n, i);
      SlotsHoldLast(fs, xs, n, i, Slot(k, n));
      RightSlot(fs[i], fs[0].slots, k, Slot(k, n), LastCopied(xs, n, i, Slot(k, n)));
    }
    hide AllRight, Slot, LastCopied, Fresh, FrameStep;
  }

  lemma {:induction false} SlotCount<T>(fs: seq<Frame<T>>, xs: seq<Touch>, n: nat, i: nat)
    requires IsTrace(fs, xs, n) && i < |fs|
    ensures |fs[i].slots| == |fs[0].slots|
    decreases i
  {
    hide Slot, Hands;
    if i > 0 {
      SlotCount(fs, xs, n, i - 1);
      assert FrameStep(fs[i - 1], xs[i - 1], fs[i], n);
    }
  }

  // Where events are told apart, every handler is given what was pushed under its ticket if and only if every
  // slot is given away after the copy for its ticket and before any other.
  lemma {:induction false} RightIffTimely<T>(fs: seq<Frame<T>>, xs: seq<Touch>, n: nat, i: nat)
    requires IsTrace(fs, xs, n) && i < |fs| && Fresh(fs[i].pushed, fs[0].slots)
    ensures AllRight(fs[i].pushed, fs[i].popped) <==> forall j :: 0 <= j < i ==> Timely(xs, n, j)
    decreases i
  {
    hide Timely, Fresh;
    if i > 0 {
      assert FrameStep(fs[i - 1], xs[i - 1], fs[i], n);
      FreshPrefix(fs[i - 1].pushed, fs[i].pushed, fs[0].slots);
      RightIffTimely(fs, xs, n, i - 1);
      StepDelivers(fs, xs, n, i - 1);
      hide AllRight, IsTrace, FrameStep;
      assert (forall j :: 0 <= j < i ==> Timely(xs, n, j)) <==>
        (forall j :: 0 <= j < i - 1 ==> Timely(xs, n, j)) && Timely(xs, n, i - 1);
    }
  }

  // Whatever is pushed, also equal events: it is right if every slot is given away in time.
  lemma {:induction false} TimelyIsRight<T>(fs: seq<Frame<T>>, xs: seq<Touch>, n: nat, i: nat)
    requires IsTrace(fs, xs, n) && i < |fs| && forall j :: 0 <= j < i ==> Timely(xs, n, j)
    ensures AllRight(fs[i].pushed, fs[i].popped)
    decreases i
  {
    hide Timely, FrameStep;
    if i > 0 {
      TimelyIsRight(fs, xs, n, i - 1);
      StepDelivers(fs, xs, n, i - 1);
    }
  }
}
