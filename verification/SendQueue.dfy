/** The outgoing side of a connection: senders that write directly or queue what they cannot write, and
    the event loop that writes what is queued.

    A sender runs send_i under the mutex.  The loop takes the mutex only to swap the two queues; each of
    its other accesses to the active queue is a step of its own, so senders may come in between.  How much
    the socket takes is chosen freely. */
module SendQueue {
  import opened Collections

  // A queued buffer; its first `begin` bytes have been sent.
  datatype Piece = Piece(memory: string, begin: nat)

  predicate PieceOk(p: Piece) { p.begin <= |p.memory| }

  function Data(p: Piece): string
    requires PieceOk(p)
  {
    p.memory[p.begin..]
  }

  predicate QueueOk(q: seq<Piece>) { forall i :: 0 <= i < |q| ==> PieceOk(q[i]) }

  function Bytes(q: seq<Piece>): string
    requires QueueOk(q)
  {
    if q == [] then "" else Data(q[0]) + Bytes(q[1..])
  }

  lemma {:induction false} BytesAppend(q: seq<Piece>, p: Piece)
    requires QueueOk(q) && PieceOk(p)
    ensures QueueOk(q + [p]) && Bytes(q + [p]) == Bytes(q) + Data(p)
  {
    var q1 := q + [p];
    if q == [] {
      assert q1[1..] == [];
    } else {
      BytesAppend(q[1..], p);
      assert q1[1..] == q[1..] + [p] && q1[0] == q[0];
      assert Data(q[0]) + (Bytes(q[1..]) + Data(p)) == Data(q[0]) + Bytes(q[1..]) + Data(p);
    }
  }

  lemma {:induction false} BytesOfFirst(q: seq<Piece>, k: nat)
    requires QueueOk(q) && k <= |q|
    ensures QueueOk(q[..k]) && Bytes(q[..k]) <= Bytes(q)
  {
    if k > 0 {
      BytesOfFirst(q[1..], k - 1);
      assert q[..k][1..] == q[1..][..k - 1] && q[..k][0] == q[0];
    }
  }

  // What the socket says to a send: how much it took, that it would block, or that it failed.
  datatype Answer = Took(n: nat) | WouldBlock | Broken

  datatype SendResult = SUCCESS | PUSH_QUEUE | FAILURE

  datatype WriteResult = NOT_DATA | WRITTEN | PART | WRITE_FAILURE

  // Where the loop is in handle_write: not in it; about to send the first `count` pieces, which have `bytes` bytes;
  // or taking `sent` sent bytes off the first `count` pieces.
  datatype Loop = Idle | Sending(count: nat, bytes: nat) | Taking(sent: nat, count: nat)

  class Handler {
    var active: seq<Piece>
    var standby: seq<Piece>
    var loop: Loop
    // The environment: the bytes on the wire.
    var wire: string
    // All bytes that senders were told have been sent or queued, in the order of the mutex.
    ghost var accepted: string

    // How many bytes of the active queue are on the wire already.
    ghost function Ahead(): nat
      reads `loop
    {
      if loop.Taking? then loop.sent else 0
    }

    ghost predicate Shaped()
      reads `active, `standby, `loop
    {
      && QueueOk(active) && QueueOk(standby)
      && (loop.Sending? || loop.Taking? ==> loop.count <= |active| && Ahead() <= |Bytes(active[..loop.count])|)
      && (loop.Sending? ==> loop.bytes == |Bytes(active[..loop.count])|)
      && (loop.Taking? ==> 0 < loop.sent)
      && Ahead() <= |Bytes(active)|
    }

    ghost function Unsent(): string
      requires Shaped()
      reads `active, `standby, `loop
    {
      Bytes(active)[Ahead()..] + Bytes(standby)
    }

    ghost predicate Inv()
      reads this
    {
      Shaped() && Conserved(Now())
    }

    ghost function Now(): View
      requires Shaped()
      reads this
    {
      View(active + standby == [], loop, wire, Unsent(), accepted)
    }

    lemma NothingQueued()
      requires Shaped()
      ensures active + standby == [] ==> Unsent() == ""
    {
    }

    constructor ()
      ensures Inv() && Now() == Start()
    {
      active, standby, loop, wire, accepted := [], [], Idle, "", "";
    }

    method Push(p: Piece)
      requires Shaped() && PieceOk(p)
      modifies `standby
      ensures Shaped() && standby == old(standby) + [p] && Unsent() == old(Unsent()) + Data(p)
    {
      BytesAppend(standby, p);
      Associate(Bytes(active)[Ahead()..], Bytes(standby), Data(p));
      standby := standby + [p];
    }

    // send_i: `owning` tells the overload that takes a buffer over from the one that copies the rest.
    method Send(data: string, direct: bool, owning: bool, answer: Answer) returns (result: SendResult)
      requires Inv() && (answer.Took? ==> 0 < answer.n <= |data|)
      modifies `standby, `wire, `accepted
      ensures Inv() && Sends(old(Now()), data, direct, answer, result, Now())
      ensures result != PUSH_QUEUE ==> standby == old(standby)
    {
      hide Sends, SentAs, PieceOk, Conserved, Unsent, Bytes, Ahead;
      ghost var v := Now();
      SendCases(v, data, direct, answer);
      hide AfterSend, Direct, QueueOk, Shaped, Data;
      if direct && standby == [] && active == [] {
        if answer.Took? {
          wire := wire + data[..answer.n];
          accepted := accepted + data;
          if answer.n == |data| {
            return SUCCESS;
          }
          PushRest(data, answer.n, owning);
          return PUSH_QUEUE;
        } else if answer == Broken {
          return FAILURE;
        }
      }
      accepted := accepted + data;
      PushRest(data, 0, true);
      result := PUSH_QUEUE;
    }

    // The bytes from `begin` on, in the buffer itself or in a copy.
    method PushRest(data: string, begin: nat, owning: bool)
      requires Shaped() && begin <= |data|
      modifies `standby
      ensures Shaped() && standby == old(standby) + [if owning then Piece(data, begin) else Piece(data[begin..], 0)]
      ensures Unsent() == old(Unsent()) + data[begin..]
    {
      Push(if owning then Piece(data, begin) else Piece(data[begin..], 0));
    }

    // handle_write up to the swap, which is made under the mutex.
    method WriteBegin(limit: nat) returns (more: bool)
      requires Inv() && loop == Idle && 0 < limit
      modifies `active, `standby, `loop
      ensures Inv() && more == (old(active) + old(standby) != [])
      ensures if more then loop.Sending? && loop.count == (if limit > |active| then |active| else limit)
        else loop == Idle
      ensures more ==> active == (if old(active) == [] then old(standby) else old(active)) && active != []
      ensures Now() == old(Now()).(loop := loop)
    {
      if active == [] {
        if standby == [] {
          return false;
        }
        assert ""[0..] + Bytes(standby) == Bytes(standby)[0..] + "";
        standby, active := active, standby;
      }
      var count := if limit > |active| then |active| else limit;
      var bytes := Gather(active, count);
      loop := Sending(count, bytes);
      more := true;
    }

    // The socket takes a prefix of the gathered pieces, or nothing.
    method WriteSend(answer: Answer) returns (result: WriteResult)
      requires Inv() && loop.Sending? && (answer.Took? ==> 0 < answer.n <= |Bytes(active[..loop.count])|)
      modifies `loop, `wire
      ensures Inv() && Told(answer, |Bytes(active[..old(loop.count)])|, result)
      ensures wire == old(wire) + if answer.Took? then Bytes(active[..old(loop.count)])[..answer.n] else ""
      ensures loop == if answer.Took? then Taking(answer.n, old(loop.count)) else Idle
      ensures answer.Took? ==> answer.n <= |old(Unsent())|
      ensures Now() == AfterOffer(old(Now()), answer)
    {
      hide Bytes, Told;
      ghost var v := Now();
      hide QueueOk, Conserved;
      SomeTold(answer, loop.bytes);
      if answer.Took? {
        result := if answer.n == loop.bytes then WRITTEN else PART;
        BytesOfFirst(active, loop.count);
        SendPart(wire, Bytes(active), Bytes(active[..loop.count]), Bytes(standby), answer.n);
        wire := wire + Bytes(active[..loop.count])[..answer.n];
        loop := Taking(answer.n, loop.count);
      } else {
        result := if answer == WouldBlock then PART else WRITE_FAILURE;
        loop := Idle;
      }
      OfferConserved(v, answer);
    }

    // One turn of the loop that takes the sent bytes off the active queue.
    method WriteTake()
      requires Inv() && loop.Taking?
      modifies `active, `loop
      ensures Inv() && !loop.Sending? && Now() == old(Now()).(empty := active + standby == [], loop := loop)
      ensures loop.Taking? ==> loop.count == old(loop.count) - 1
    {
      hide Data, Bytes;
      TakeFirst(active, loop.count, loop.sent);
      var size := |Data(active[0])|;
      if loop.sent >= size {
        active := active[1..];
        loop := if loop.sent - size < 1 then Idle else Taking(loop.sent - size, loop.count - 1);
      } else {
        active := [Piece(active[0].memory, active[0].begin + loop.sent)] + active[1..];
        loop := Idle;
      }
      NothingQueued();
    }
  }

  // What the loop is told when it has offered so many bytes to the socket.
  predicate Told(answer: Answer, bytes: nat, result: WriteResult) {
    && (result == WRITE_FAILURE <==> answer == Broken)
    && (result == WRITTEN <==> answer == Took(bytes))
    && result != NOT_DATA
  }

  lemma SomeTold(answer: Answer, bytes: nat)
    ensures Told(answer, bytes,
      if answer == Took(bytes) then WRITTEN else if answer == Broken then WRITE_FAILURE else PART)
  {
  }

  // The loop that gathers the first pieces of a queue and counts their bytes.
  method Gather(q: seq<Piece>, count: nat) returns (bytes: nat)
    requires QueueOk(q) && count <= |q|
    ensures bytes == |Bytes(q[..count])|
  {
    bytes := 0;
    for i := 0 to count
      invariant bytes == |Bytes(q[..i])|
    {
      BytesAppend(q[..i], q[i]);
      assert q[..i + 1] == q[..i] + [q[i]];
      bytes := bytes + |Data(q[i])|;
    }
  }

  // The first n of the offered bytes go onto the wire.
  lemma SendPart(wire: string, all: string, offered: string, rest: string, n: nat)
    requires offered <= all && n <= |offered|
    ensures wire + (all[0..] + rest) == (wire + offered[..n]) + (all[n..] + rest)
    ensures (all[0..] + rest)[..n] == offered[..n] && (all[0..] + rest)[n..] == all[n..] + rest
  {
  }

  // Taking n sent bytes off the first piece of a queue.
  lemma TakeFirst(q: seq<Piece>, count: nat, n: nat)
    requires QueueOk(q) && count <= |q| && 0 < n <= |Bytes(q[..count])|
    ensures count > 0 && n <= |Bytes(q)| && QueueOk(q[1..])
    ensures var size := |Data(q[0])|;
      if n >= size then
        && n - size <= |Bytes(q[1..][..count - 1])| && n - size <= |Bytes(q[1..])|
        && Bytes(q[1..])[n - size..] == Bytes(q)[n..]
      else
        var q1 := [Piece(q[0].memory, q[0].begin + n)] + q[1..];
        QueueOk(q1) && Bytes(q1) == Bytes(q)[n..] && Bytes(q1)[0..] == Bytes(q1)
  {
    FirstOfQueue(q, count);
    hide Bytes;
    if n >= |Data(q[0])| {
      BytesOfFirst(q[1..], count - 1);
      DropBoth(Data(q[0]), Bytes(q[1..]), n);
    } else {
      TakePart(q, n);
    }
  }

  lemma FirstOfQueue(q: seq<Piece>, count: nat)
    requires QueueOk(q) && count <= |q| && 0 < |Bytes(q[..count])|
    ensures count > 0 && QueueOk(q[1..]) && Bytes(q) == Data(q[0]) + Bytes(q[1..]) && QueueOk(q[1..][..count - 1])
    ensures |Bytes(q[..count])| == |Data(q[0])| + |Bytes(q[1..][..count - 1])| && |Bytes(q[..count])| <= |Bytes(q)|
  {
    BytesOfFirst(q, count);
    assert q[..count][0] == q[0] && q[..count][1..] == q[1..][..count - 1];
  }

  lemma DropBoth(a: string, b: string, n: nat)
    requires |a| <= n <= |a| + |b|
    ensures (a + b)[n..] == b[n - |a|..]
  {
  }

  // A part of the first piece.
  lemma TakePart(q: seq<Piece>, n: nat)
    requires QueueOk(q) && q != [] && n < |Data(q[0])|
    ensures var q1 := [Piece(q[0].memory, q[0].begin + n)] + q[1..];
      QueueOk(q1) && Bytes(q1) == Bytes(q)[n..] && Bytes(q1)[0..] == Bytes(q1)
  {
    var q1 := [Piece(q[0].memory, q[0].begin + n)] + q[1..];
    assert q1[1..] == q[1..] && q1[0].begin <= |q1[0].memory|;
    assert Data(q1[0]) == Data(q[0])[n..];
  }

  // The pieces that handle_write offers to the socket.
  function Offered(active: seq<Piece>, standby: seq<Piece>, limit: nat): seq<Piece> {
    var q := if active == [] then standby else active;
    q[..if limit > |q| then |q| else limit]
  }

  // handle_write from beginning to end, with no sender in between.  `answer` is what the socket says; it
  // cannot take more than it is offered.
  method HandleWrite(h: Handler, limit: nat, answer: Answer) returns (result: WriteResult)
    requires h.Inv() && h.loop == Idle && 0 < limit
    requires var q := Offered(h.active, h.standby, limit); QueueOk(q) && (answer.Took? ==> 0 < answer.n <= |Bytes(q)|)
    modifies h
    ensures h.Inv() && h.loop == Idle && h.accepted == old(h.accepted)
    ensures QueueOk(Offered(old(h.active), old(h.standby), limit))
    ensures var all := Bytes(Offered(old(h.active), old(h.standby), limit));
      && h.wire == old(h.wire) + (if answer.Took? then all[..answer.n] else "")
      // Which of the four results it is.
      && (result == NOT_DATA <==> old(h.active + h.standby) == [])
      && (result == WRITE_FAILURE <==> old(h.active + h.standby) != [] && answer == Broken)
      && (result == WRITTEN <==> old(h.active + h.standby) != [] && answer == Took(|all|))
      && (result == PART <==>
           old(h.active + h.standby) != [] && (answer == WouldBlock || (answer.Took? && answer.n < |all|)))
  {
    assert Bytes([]) == "";
    hide QueueOk, AfterOffer, PieceOk, Data, Bytes, Conserved;
    var more := h.WriteBegin(limit);
    if !more {
      return NOT_DATA;
    }
    var all := Bytes(h.active[..h.loop.count]);
    assert h.active[..h.loop.count] == Offered(old(h.active), old(h.standby), limit);
    result := h.WriteSend(answer);
    if answer.Took? {
      WriteTakeAll(h);
    }
  }

  // The loop that takes the sent bytes off.
  method WriteTakeAll(h: Handler)
    requires h.Inv() && !h.loop.Sending?
    modifies h
    ensures h.Inv() && h.loop == Idle && h.accepted == old(h.accepted) && h.wire == old(h.wire)
  {
    while h.loop.Taking?
      invariant h.Inv() && !h.loop.Sending? && h.accepted == old(h.accepted) && h.wire == old(h.wire)
      decreases if h.loop.Taking? then h.loop.count + 1 else 0
    {
      h.WriteTake();
    }
  }

  // ---------- whole runs ----------

  // What can be told without the pieces: whether any is queued, and the bytes.
  datatype View = View(empty: bool, loop: Loop, wire: string, unsent: string, accepted: string)

  // No byte is lost, duplicated or reordered.
  ghost predicate Conserved(v: View) { v.wire + v.unsent == v.accepted && (v.empty ==> v.unsent == "") }

  function Start(): View { View(true, Idle, "", "", "") }

  // How many bytes of the data a direct send puts on the wire.
  function Direct(v: View, data: string, direct: bool, answer: Answer): (n: nat)
    ensures n <= |data|
  {
    if v.empty && direct && answer.Took? && answer.n <= |data| then answer.n else 0
  }

  function SentAs(v: View, data: string, direct: bool, answer: Answer): SendResult {
    if !v.empty || !direct || answer == WouldBlock then PUSH_QUEUE
    else if answer == Broken then FAILURE
    else if answer.n == |data| then SUCCESS
    else PUSH_QUEUE
  }

  function AfterSend(v: View, data: string, direct: bool, answer: Answer): View {
    var n := Direct(v, data, direct, answer);
    var result := SentAs(v, data, direct, answer);
    if result == FAILURE then v
    else View(v.empty && result == SUCCESS, v.loop, v.wire + data[..n], v.unsent + data[n..], v.accepted + data)
  }

  function AfterOffer(v: View, answer: Answer): View {
    if answer.Took? && answer.n <= |v.unsent| && v.loop.Sending? then
      v.(loop := Taking(answer.n, v.loop.count), wire := v.wire + v.unsent[..answer.n], unsent := v.unsent[answer.n..])
    else
      v.(loop := Idle)
  }

  lemma OfferConserved(v: View, answer: Answer)
    requires Conserved(v)
    ensures Conserved(AfterOffer(v, answer))
  {
    if answer.Took? && answer.n <= |v.unsent| {
      assert v.unsent == v.unsent[..answer.n] + v.unsent[answer.n..];
      Associate(v.wire, v.unsent[..answer.n], v.unsent[answer.n..]);
    }
  }

  // What a send does: the data is refused exactly if the socket failed a direct send; a direct send is tried
  // exactly if nothing is queued, what it takes is on the wire, and the rest of accepted data is queued.
  ghost predicate Sends(v: View, data: string, direct: bool, answer: Answer, result: SendResult, v1: View) {
    && (answer.Took? ==> answer.n <= |data|)
    && (result == FAILURE <==> v.empty && direct && answer == Broken)
    && (result == SUCCESS <==> v.empty && direct && answer == Took(|data|))
    && v1.loop == v.loop && v1.accepted == (if result == FAILURE then v.accepted else v.accepted + data)
    && v1.wire == (if v.empty && direct && answer.Took? then v.wire + data[..answer.n] else v.wire)
    && v1.unsent == v.unsent + (
         if result == FAILURE then "" else if v.empty && direct && answer.Took? then data[answer.n..] else data)
    && v1.empty == (v.empty && result != PUSH_QUEUE)
  }

  // The three ways in which a send can end, each of which conserves the bytes.
  lemma SendCases(v: View, data: string, direct: bool, answer: Answer)
    requires Conserved(v) && (answer.Took? ==> answer.n <= |data|)
    ensures var v1 := AfterSend(v, data, direct, answer);
      && Conserved(v1)
      && if !v.empty || !direct || answer == WouldBlock then
           v1 == View(false, v.loop, v.wire, v.unsent + data, v.accepted + data) && data[0..] == data
         else if answer == Broken then v1 == v
         else
           && v1 == View(answer.n == |data|, v.loop, v.wire + data[..answer.n], data[answer.n..], v.accepted + data)
           && (answer.n == |data| ==> data[answer.n..] == "") && v.unsent + data[answer.n..] == data[answer.n..]
    ensures "" + data == data
    ensures Sends(v, data, direct, answer, SentAs(v, data, direct, answer), AfterSend(v, data, direct, answer))
  {
    var n := Direct(v, data, direct, answer);
    assert v.unsent + "" == v.unsent;
    Associate(v.wire, data[..n], data[n..]);
    Associate(v.wire, v.unsent, data);
    assert data[..n] + data[n..] == data;
    assert v.wire + "" == v.wire && "" + data[n..] == data[n..];
    assert n == 0 ==> data[..n] == "" && data[n..] == data;
  }

  // A send that succeeds leaves nothing to be sent.
  lemma SuccessSendsAll(v: View, data: string, direct: bool, answer: Answer, v1: View)
    requires Conserved(v) && Sends(v, data, direct, answer, SUCCESS, v1)
    ensures v1.unsent == "" && v1.wire == v1.accepted == v.accepted + data
  {
    assert data[..|data|] == data;
    assert v.wire + "" == v.wire;
  }

  datatype Step =
    | SendStep(data: string, direct: bool, owning: bool, answer: Answer)
    | BeginStep(limit: nat)
    | OfferStep(answer: Answer)
    | TakeStep

  // What the caller is told: a sender by send_i, the loop by handle_write, which has not returned yet
  // while it goes on.
  datatype Outcome = Sent(result: SendResult) | Wrote(report: WriteResult) | GoesOn

  predicate Possible(h: Handler, step: Step)
    reads h
  {
    match step
    case SendStep(data, _, _, answer) => answer.Took? ==> 0 < answer.n <= |data|
    case BeginStep(limit) => h.loop == Idle && 0 < limit
    case OfferStep(answer) => h.loop.Sending? && (answer.Took? ==> 0 < answer.n <= h.loop.bytes)
    case TakeStep => h.loop.Taking?
  }

  // What a step does to the bytes, and what is told.  The loop begins to send exactly if anything is queued, and comes
  // to the end of taking sent bytes off after as many turns as pieces were offered.
  ghost predicate Follows(v: View, step: Step, o: Outcome, v1: View) {
    match step
    case SendStep(data, direct, _, answer) =>
      o.Sent? && Sends(v, data, direct, answer, o.result, v1)
    case BeginStep(_) =>
      && v1 == v.(loop := v1.loop)
      && if v.empty then v1.loop == Idle && o == Wrote(NOT_DATA) else v1.loop.Sending? && o == GoesOn
    case OfferStep(answer) =>
      && v.loop.Sending? && (answer.Took? ==> 0 < answer.n <= v.loop.bytes && answer.n <= |v.unsent|)
      && v1 == AfterOffer(v, answer) && o.Wrote? && Told(answer, v.loop.bytes, o.report)
    case TakeStep =>
      && v1 == v.(empty := v1.empty, loop := v1.loop) && !v1.loop.Sending? && o == GoesOn
      && (v1.loop.Taking? ==> v.loop.Taking? && v1.loop.count == v.loop.count - 1)
  }

  ghost predicate IsRun(vs: seq<View>, steps: seq<Step>, os: seq<Outcome>) {
    && |vs| == |steps| + 1 && |os| == |steps| && vs[0] == Start()
    && forall i :: 0 <= i < |steps| ==> Follows(vs[i], steps[i], os[i], vs[i + 1])
  }

  method DoStep(h: Handler, step: Step) returns (o: Outcome)
    requires h.Inv() && Possible(h, step)
    modifies h
    ensures h.Inv() && Follows(old(h.Now()), step, o, h.Now()) && Conserved(h.Now())
  {
    hide Sends, AfterOffer, Bytes, QueueOk, Conserved, Told;
    match step
    case SendStep(data, direct, owning, answer) =>
      var result := h.Send(data, direct, owning, answer);
      o := Sent(result);
    case BeginStep(limit) =>
      var more := h.WriteBegin(limit);
      o := if more then GoesOn else Wrote(NOT_DATA);
    case OfferStep(answer) =>
      var result := h.WriteSend(answer);
      o := Wrote(result);
    case TakeStep =>
      h.WriteTake();
      o := GoesOn;
  }

  lemma NoSteps(steps: seq<Step>)
    ensures IsRun([Start()], steps[..0], []) && Conserved(Start())
  {
  }

  lemma OneMore(vs: seq<View>, steps: seq<Step>, os: seq<Outcome>, n: nat, o: Outcome, v: View)
    requires n < |steps| && IsRun(vs, steps[..n], os) && Follows(vs[n], steps[n], o, v)
    ensures |vs| == n + 1 && IsRun(vs + [v], steps[..n + 1], os + [o]) && (vs + [v])[n + 1] == v
  {
    hide Follows;
    var vs1, steps1, os1 := vs + [v], steps[..n + 1], os + [o];
    forall i | 0 <= i < |steps1|
      ensures Follows(vs1[i], steps1[i], os1[i], vs1[i + 1])
    {
      assert i < n ==> vs1[i] == vs[i] && vs1[i + 1] == vs[i + 1] && steps1[i] == steps[..n][i] && os1[i] == os[i];
    }
  }

  // However senders and the loop take turns: after every step, what is on the wire followed by what is
  // still queued is what has been accepted, and that is the data of the sends that were not refused.
  method Run(steps: seq<Step>) returns (h: Handler, taken: nat, os: seq<Outcome>, ghost vs: seq<View>)
    ensures h.Inv() && taken <= |steps|
    // It stops only at a step that the loop is not at, or at an answer that no socket gives.
    ensures taken < |steps| ==>
      match steps[taken] {
        case SendStep(data, _, _, answer) => answer.Took? && (answer.n == 0 || answer.n > |data|)
        case BeginStep(limit) => h.loop != Idle || limit == 0
        case OfferStep(answer) => !h.loop.Sending? || (answer.Took? && (answer.n == 0 || answer.n > h.loop.bytes))
        case TakeStep => !h.loop.Taking?
      }
    ensures IsRun(vs, steps[..taken], os) && h.Now() == vs[taken]
    ensures forall i :: 0 <= i <= taken ==> Conserved(vs[i])
  {
    hide Follows, IsRun, Conserved;
    h := new Handler();
    taken, os, vs := 0, [], [h.Now()];
    NoSteps(steps);
    while taken < |steps| && Possible(h, steps[taken])
      invariant taken <= |steps| && h.Inv() && fresh(h)
      invariant |vs| == taken + 1 && IsRun(vs, steps[..taken], os) && h.Now() == vs[taken]
      invariant forall i :: 0 <= i <= taken ==> Conserved(vs[i])
    {
      var o := DoStep(h, steps[taken]);
      OneMore(vs, steps, os, taken, o, h.Now());
      vs, os := vs + [h.Now()], os + [o];
      taken := taken + 1;
    }
  }

  // What has been reported in a run can be relied on.  A send is refused exactly if nothing was queued and the socket
  // broke under it, and then adds nothing to what will be sent; after one that succeeds no byte is unsent, and
  // neither is after a loop that has found nothing to do.
  lemma SendReports(vs: seq<View>, steps: seq<Step>, os: seq<Outcome>, i: nat)
    requires IsRun(vs, steps, os) && i < |steps| && Conserved(vs[i]) && Conserved(vs[i + 1])
    ensures os[i].Sent? <==> steps[i].SendStep?
    ensures os[i].Sent? ==>
      && vs[i + 1].accepted == (if os[i].result == FAILURE then vs[i].accepted else vs[i].accepted + steps[i].data)
      && (os[i].result == FAILURE <==> vs[i].empty && steps[i].direct && steps[i].answer == Broken)
    ensures os[i] == Sent(SUCCESS) || os[i] == Wrote(NOT_DATA) ==> vs[i + 1].wire == vs[i + 1].accepted
  {
    assert Follows(vs[i], steps[i], os[i], vs[i + 1]);
    assert vs[i + 1].wire + "" == vs[i + 1].wire;
  }

  // The loop is told of a failure exactly when it finds the socket broken, and that everything has been written exactly
  // when the socket took all it was offered; the wire grows by just what the socket took.
  lemma LoopReports(vs: seq<View>, steps: seq<Step>, os: seq<Outcome>, i: nat)
    requires IsRun(vs, steps, os) && i < |steps|
    ensures os[i] == Wrote(WRITE_FAILURE) <==> steps[i] == OfferStep(Broken)
    ensures os[i] == Wrote(NOT_DATA) <==> steps[i].BeginStep? && vs[i].empty
    ensures os[i] == Wrote(WRITTEN) <==>
      steps[i].OfferStep? && vs[i].loop.Sending? && steps[i].answer == Took(vs[i].loop.bytes)
    ensures steps[i].OfferStep? && steps[i].answer.Took? ==>
      steps[i].answer.n <= |vs[i].unsent| && vs[i + 1].wire == vs[i].wire + vs[i].unsent[..steps[i].answer.n]
    ensures !steps[i].SendStep? && !(steps[i].OfferStep? && steps[i].answer.Took?) ==> vs[i + 1].wire == vs[i].wire
  {
    assert Follows(vs[i], steps[i], os[i], vs[i + 1]);
  }
}
