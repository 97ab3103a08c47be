/** The bounded queue of one producer and one consumer, one shared access at a time.

    Each method is one access of the producer or the consumer to what they share; the two sides take
    turns in any way.  `queue` is the queue that users see: it grows when the producer stores the
    write index and shrinks when the consumer stores the read index.  `pushed` and `given` record, by
    ticket, what was published and what the handler was given. */
module SpscQueue {
  import opened RingIndex

  datatype Producer<T> = Ready | Loaded(event: T, w: nat) | Room(event: T, w: nat) | Copied(event: T, w: nat)

  datatype Consumer = Waiting | Reading(r: nat) | Seen(r: nat) | Handled(r: nat)

  class Queue<T> {
    const n: nat
    const slots: array<T>
    var readIndex: nat
    var writeIndex: nat
    var producer: Producer<T>
    var consumer: Consumer
    ghost var queue: seq<T>
    ghost var pushed: seq<T>
    ghost var given: seq<T>

    ghost predicate Indexed()
      reads this
    {
      && slots.Length == Pow2(n)
      && readIndex <= writeIndex <= readIndex + Pow2(n) && |queue| == writeIndex - readIndex
    }

    ghost predicate Stored()
      requires Indexed()
      reads this, slots
    {
      Holds(slots[..], readIndex, n, queue)
    }

    ghost predicate ProducerOk()
      reads this, slots
    {
      match producer
      case Ready => true
      case Loaded(_, w) => w == writeIndex
      case Room(_, w) => w == writeIndex && w < readIndex + Pow2(n)
      case Copied(event, w) => w == writeIndex && w < readIndex + Pow2(n) && At(slots[..], w, n, event)
    }

    ghost predicate ConsumerOk()
      reads this
    {
      match consumer
      case Waiting => true
      case Reading(r) => r == readIndex
      case _ => consumer.r == readIndex < writeIndex
    }

    // The handler was given the event of every ticket up to its own.
    ghost predicate Recorded()
      reads this
    {
      && |pushed| == writeIndex && readIndex <= writeIndex && queue == pushed[readIndex..]
      && |given| == readIndex + (if consumer.Handled? then 1 else 0) && given <= pushed
    }

    ghost predicate Valid()
      reads this, slots
    {
      Indexed() && Stored() && ProducerOk() && ConsumerOk() && Recorded()
    }

    ghost function Now(): View<T>
      reads this
    {
      View(producer, consumer, readIndex, pushed, given)
    }

    constructor (n: nat, slots: array<T>)
      requires slots.Length == Pow2(n)
      ensures Valid() && Now() == Start() && this.n == n && this.slots == slots
    {
      this.n, this.slots := n, slots;
      readIndex, writeIndex, producer, consumer, queue, pushed, given := 0, 0, Ready, Waiting, [], [], [];
    }

    // ---------- push ----------

    method PushLoad(event: T)
      requires Valid() && producer == Ready
      modifies `producer
      ensures Valid() && producer == Loaded(event, writeIndex)
    {
      producer := Loaded(event, writeIndex);
    }

    // push fails exactly if the queue is full at this moment.
    method PushCheck() returns (ok: bool)
      requires Valid() && producer.Loaded?
      modifies `producer
      ensures Valid() && ok == (|queue| < Pow2(n))
      ensures producer == if ok then Room(old(producer.event), writeIndex) else Ready
    {
      ok := producer.w - readIndex < slots.Length;
      producer := if ok then Room(producer.event, producer.w) else Ready;
    }

    method PushCopy()
      requires Valid() && producer.Room?
      modifies `producer, slots
      ensures Valid() && producer == Copied(old(producer.event), writeIndex)
    {
      var w, event := producer.w, producer.event;
      SlotInBounds(w, n);
      CopyElsewhere(slots[..], readIndex, n, queue, w, event);
      ghost var before := slots[..];
      slots[Slot(w, n)] := event;
      assert slots[..] == before[Slot(w, n) := event];
      producer := Copied(event, w);
    }

    method PushPublish()
      requires Valid() && producer.Copied?
      modifies `producer, `writeIndex, `queue, `pushed
      ensures Valid() && producer == Ready && queue == old(queue) + [old(producer.event)]
      ensures pushed == old(pushed) + [old(producer.event)]
    {
      HoldsOneMore(slots[..], readIndex, n, queue, producer.event);
      writeIndex := producer.w + 1;
      queue, pushed := queue + [producer.event], pushed + [producer.event];
      producer := Ready;
    }

    // ---------- pop ----------

    method PopLoad()
      requires Valid() && consumer == Waiting
      modifies `consumer
      ensures Valid() && consumer == Reading(readIndex)
    {
      consumer := Reading(readIndex);
    }

    // pop finds nothing exactly if the queue is empty at this moment.
    method PopCheck() returns (ok: bool)
      requires Valid() && consumer.Reading?
      modifies `consumer
      ensures Valid() && ok == (queue != [])
      ensures consumer == if ok then Seen(readIndex) else Waiting
    {
      ok := writeIndex > consumer.r;
      consumer := if ok then Seen(consumer.r) else Waiting;
    }

    // The handler is given the oldest event.
    method PopHandle() returns (event: T)
      requires Valid() && consumer.Seen?
      modifies `consumer, `given
      ensures Valid() && queue != [] && event == queue[0] == pushed[readIndex] && consumer == Handled(readIndex)
      ensures given == old(given) + [event]
    {
      SlotInBounds(consumer.r, n);
      HoldsOneLess(slots[..], readIndex, n, queue);
      event := slots[Slot(consumer.r, n)];
      given := given + [event];
      consumer := Handled(consumer.r);
    }

    method PopRelease()
      requires Valid() && consumer.Handled?
      modifies `consumer, `readIndex, `queue
      ensures Valid() && consumer == Waiting && old(queue) != [] && queue == old(queue)[1..]
      ensures readIndex == old(readIndex) + 1
    {
      HoldsOneLess(slots[..], readIndex, n, queue);
      readIndex := consumer.r + 1;
      queue := queue[1..];
      consumer := Waiting;
    }

    // While the consumer has an event in hand, it is still in its slot, whatever the producer does.
    lemma EventInHand()
      requires Valid() && (consumer.Seen? || consumer.Handled?)
      ensures queue != [] && At(slots[..], consumer.r, n, queue[0])
    {
      HoldsOneLess(slots[..], readIndex, n, queue);
    }
  }

  // ---------- whole runs ----------

  // What can be told of the queue without its slots.
  datatype View<T> = View(producer: Producer<T>, consumer: Consumer, read: nat, pushed: seq<T>, given: seq<T>)

  function Start<T>(): View<T> { View(Ready, Waiting, 0, [], []) }

  // The next access of either side; a producer that is ready begins to push the event.
  datatype Step<T> = Produce(event: T) | Consume

  // What the step does if the queue is a list of events, from which the consumer is given that of its ticket.
  function After<T>(v: View<T>, capacity: nat, step: Step<T>): View<T> {
    match step
    case Produce(event) => (
      match v.producer
      case Ready => v.(producer := Loaded(event, |v.pushed|))
      case Loaded(e, w) => v.(producer := if w - v.read < capacity then Room(e, w) else Ready)
      case Room(e, w) => v.(producer := Copied(e, w))
      case Copied(e, _) => v.(producer := Ready, pushed := v.pushed + [e])
    )
    case Consume => (
      match v.consumer
      case Waiting => v.(consumer := Reading(v.read))
      case Reading(r) => v.(consumer := if r < |v.pushed| then Seen(r) else Waiting)
      case Seen(r) => v.(consumer := Handled(r), given := if r < |v.pushed| then v.given + [v.pushed[r]] else v.given)
      case Handled(r) => v.(consumer := Waiting, read := r + 1)
    )
  }

  function AfterAll<T>(v: View<T>, capacity: nat, steps: seq<Step<T>>): View<T> {
    if steps == [] then v else After(AfterAll(v, capacity, steps[..|steps| - 1]), capacity, steps[|steps| - 1])
  }

  method TakeStep<T>(q: Queue<T>, step: Step<T>)
    requires q.Valid()
    modifies q, q.slots
    ensures q.Valid() && q.Now() == After(old(q.Now()), Pow2(q.n), step)
  {
    hide Holds, Slot, Pow2, At;
    match step
    case Produce(event) =>
      match q.producer {
        case Ready => q.PushLoad(event);
        case Loaded(_, _) => var _ := q.PushCheck();
        case Room(_, _) => q.PushCopy();
        case Copied(_, _) => q.PushPublish();
      }
    case Consume =>
      match q.consumer {
        case Waiting => q.PopLoad();
        case Reading(_) => var _ := q.PopCheck();
        case Seen(_) => var _ := q.PopHandle();
        case Handled(_) => q.PopRelease();
      }
  }

  // However the two sides take turns, the queue with its slots does what the list does, and the event
  // given for ticket t is the one that was pushed as the t-th.
  method Run<T>(q: Queue<T>, steps: seq<Step<T>>)
    requires q.Valid()
    modifies q, q.slots
    ensures q.Valid() && q.Now() == AfterAll(old(q.Now()), Pow2(q.n), steps)
    ensures forall t :: 0 <= t < |q.given| ==> t < |q.pushed| && q.given[t] == q.pushed[t]
  {
    hide Holds, Slot, Pow2, At, After;
    ghost var before := q.Now();
    for k := 0 to |steps|
      invariant q.Valid() && q.Now() == AfterAll(before, Pow2(q.n), steps[..k])
    {
      TakeStep(q, steps[k]);
      assert steps[..k + 1][..k] == steps[..k];
    }
    assert steps[..|steps|] == steps;
  }
}
