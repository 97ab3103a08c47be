/** LengthFieldMessageHandler::decode and FixedLengthMessageHandler::decode. */
module LengthFieldDecoder {
  import opened Basics
  import opened Framing

  // Sizes are 32-bit; buffers stay far below this.
  const UINT_LIMIT := 0x1_0000_0000
  const SIZE_LIMIT := 0x8000_0000

  // Subtraction of 32-bit unsigned numbers.
  function Difference(a: nat, b: nat): int { if a >= b then a - b else UINT_LIMIT - (b - a) }

  // It differs from the true difference by a multiple of 2^32, and is itself below that.
  lemma DifferenceWraps(a: nat, b: nat)
    requires a < UINT_LIMIT && b < UINT_LIMIT
    ensures 0 <= Difference(a, b) < UINT_LIMIT && (Difference(a, b) - (a - b)) % UINT_LIMIT == 0
  {
  }

  datatype Turn = Stop | Fail | Again

  lemma SameHead(c: Config, buffer: string, more: string)
    requires |buffer| >= c.head
    ensures Length(c, buffer + more) == Length(c, buffer) && buffer + more + "" == buffer + more
  {
    assert (buffer + more)[..c.head] == buffer[..c.head];
  }

  // The message at the front of buffer and data, and what comes after it.
  lemma TakeMessage(c: Config, v: Verdict, delivered: seq<string>, buffer: string, data: string, from: nat, n: nat)
    requires |buffer| >= c.head && n == Length(c, buffer) && Accepted(c, n)
    requires |buffer| <= n <= |buffer| + |data| - from && from <= |data|
    ensures var need := n - |buffer|; var d := delivered + [buffer + data[from..from + need]];
      Parse(c, v, delivered, buffer + data[from..]) == if v(d) < 0 then Closed(d)
        else Parse(c, v, d, "" + data[from + need..])
  {
    var need := n - |buffer|;
    var all := buffer + data[from..];
    SameHead(c, buffer, data[from..]);
    assert all[..n] == buffer + data[from..from + need];
    assert all[n..] == data[from + need..] == "" + data[from + need..];
  }

  // When decode leaves a whole message in the buffer: it did so before and is stuck with it, or it
  // completes a buffered head that tells a length below that of the head, or equal to it at the very
  // end of the data.
  predicate Delays(c: Config, buffer: string, length: nat, data: string) {
    || 0 < length < |buffer|
    || (0 < |buffer| < c.head <= |buffer| + |data| && Accepted(c, Length(c, buffer + data))
        && (Length(c, buffer + data) < c.head || (Length(c, buffer + data) == c.head == |buffer| + |data|)))
  }

  // Where the loop of decode is: at the start, behind a completed head, or with an empty buffer.
  ghost predicate Underway(c: Config, buffer: string, length: nat, data: string, i: nat, buffer1: string,
      length1: nat) {
    && i <= |data| && (|buffer| < c.head ==> length == 0)
    && ((i == 0 && buffer1 == buffer && length1 == length)
        || (i > 0 && 0 < |buffer| < c.head == |buffer1| && 0 < length1 && buffer1 + data[i..] == buffer + data)
        || (buffer1 == "" && !Delays(c, buffer, length, data)))
  }

  // What the place in the loop says about delays.
  lemma Phases(c: Config, buffer: string, length: nat, data: string, i: nat, buffer1: string, length1: nat)
    requires Underway(c, buffer, length, data, i, buffer1, length1) && (i < |data| || i == 0) && 0 < c.head
    requires if |buffer1| < c.head then length1 == 0 else length1 == Length(c, buffer1) && Accepted(c, length1)
    ensures buffer1 == "" ==> !Delays(c, buffer, length, data)
    ensures length1 > 0 ==> (0 < length1 < |buffer1| <==> Delays(c, buffer, length, data))
    ensures length1 > 0 ==> buffer1 + data[i..] == buffer + data
    ensures buffer1 != "" && length1 == 0 ==>
      i == 0 && buffer1 == buffer && (|buffer| + |data| < c.head ==> !Delays(c, buffer, length, data))
  {
    assert data[0..] == data;
    if i > 0 && buffer1 != "" {
      assert (buffer + data)[..c.head] == (buffer1 + data[i..])[..c.head] == buffer1 == buffer1[..c.head];
      assert |buffer1 + data[i..]| > c.head;
    }
  }

  lemma AtTheEnd(c: Config, buffer: string, length: nat, data: string, buffer1: string, length1: nat)
    requires Underway(c, buffer, length, data, |data|, buffer1, length1) && 0 < c.head
    requires if |buffer1| < c.head then length1 == 0 else length1 == Length(c, buffer1) && Accepted(c, length1)
    requires |data| == 0 ==> buffer1 == ""
    ensures 0 < length1 <= |buffer1| <==> Delays(c, buffer, length, data)
    ensures 0 < length1 ==> buffer1 == buffer + data
  {
    if buffer1 != "" {
      assert buffer1 + data[|data|..] == buffer1;
      assert buffer1[..c.head] == buffer1;
    } else if |data| == 0 && buffer == "" {
      assert !Delays(c, buffer, length, data);
    }
  }

  lemma NothingReady(c: Config, v: Verdict, delivered: seq<string>, buffer: string, length: nat)
    requires if |buffer| < c.head then length == 0 else length == Length(c, buffer) && Accepted(c, length)
    ensures Parse(c, v, delivered, buffer + "") == Open(delivered, buffer) <==> !(0 < length <= |buffer|)
  {
    assert buffer + "" == buffer;
    if 0 < length <= |buffer| {
      var d := delivered + [buffer[..length]];
      ParseConserves(c, v, d, buffer[length..]);
    }
  }

  class Decoder {
    const config: Config
    const verdict: Verdict
    var messageBuffer: string
    // 0, or the length of the message whose head is in the buffer.
    var messageLength: nat
    var delivered: seq<string>

    // The length is known exactly when the head is in the buffer.
    ghost predicate Valid()
      reads this
    {
      && 0 < config.head && config.max < SIZE_LIMIT
      && if |messageBuffer| < config.head then messageLength == 0
         else messageLength == Length(config, messageBuffer) && Accepted(config, messageLength)
    }

    // A whole message is in the buffer but has not been delivered.
    ghost predicate Overdue()
      reads this
    {
      0 < messageLength <= |messageBuffer|
    }

    // It never will be: its length is less than what the buffer holds.
    ghost predicate Stuck()
      reads this
    {
      0 < messageLength < |messageBuffer|
    }

    constructor (config: Config, verdict: Verdict)
      requires 0 < config.head && config.max < SIZE_LIMIT
      ensures Valid() && messageBuffer == "" && delivered == [] && this.config == config && this.verdict == verdict
    {
      this.config, this.verdict := config, verdict;
      messageBuffer, messageLength, delivered := "", 0, [];
    }

    // What is still to come of the stream is parsed as it would have been from the start.
    ghost predicate OnTrack(p: Parsed, rest: string)
      reads this
    {
      Parse(config, verdict, delivered, messageBuffer + rest) == p
    }

    method DoMessage(m: string) returns (ret: int)
      modifies `delivered
      ensures delivered == old(delivered) + [m] && ret == verdict(delivered)
    {
      delivered := delivered + [m];
      ret := verdict(delivered);
    }

    // One turn of the loop while nothing is buffered: the message is taken from the data.
    method FromData(data: string, from: nat, ghost p: Parsed) returns (turn: Turn, i: nat)
      requires Valid() && from <= |data| && messageBuffer == "" && OnTrack(p, data[from..])
      modifies this
      ensures Valid() && from <= i <= |data| && !Overdue()
      ensures turn == Fail ==> p == Closed(delivered)
      ensures turn == Stop ==> i == |data| && OnTrack(p, "") && p == Open(delivered, messageBuffer)
      ensures turn == Again ==> from < i && OnTrack(p, data[i..]) && messageBuffer == ""
    {
      i := from;
      var remain := data[from..];
      assert "" + remain == remain && remain + "" == remain;
      if |remain| < config.head {
        messageBuffer := remain;
        return Stop, |data|;
      }
      var n := Length(config, remain);
      if n > config.max || n == 0 {
        return Fail, from;
      }
      if |remain| >= n {
        var ret := DoMessage(remain[..n]);
        if ret < 0 {
          return Fail, from;
        }
        assert remain[n..] == data[from + n..];
        assert "" + data[from + n..] == data[from + n..];
        return Again, from + n;
      }
      messageLength, messageBuffer := n, remain;
      return Stop, |data|;
    }

    // The head of the buffered message is completed.
    method CompleteHead(data: string, from: nat, ghost p: Parsed) returns (turn: Turn, i: nat)
      requires Valid() && from <= |data| && 0 < |messageBuffer| < config.head && OnTrack(p, data[from..])
      modifies `messageBuffer, `messageLength
      ensures turn != Fail ==> Valid()
      ensures from <= i <= |data|
      ensures turn == Fail ==> p == Closed(delivered)
      ensures turn == Fail ==>
        |old(messageBuffer)| + |data| - from >= config.head
          && !Accepted(config, Length(config, old(messageBuffer) + data[from..]))
      ensures turn == Stop ==>
        i == |data| && !Overdue() && OnTrack(p, "") && messageBuffer == old(messageBuffer) + data[from..]
      ensures turn == Stop ==> |messageBuffer| < config.head
      ensures turn == Again ==> from < i && OnTrack(p, data[i..]) && |messageBuffer| == config.head && messageLength > 0
      ensures turn == Again ==> messageBuffer + data[i..] == old(messageBuffer) + data[from..]
    {
      i := from;
      var need := config.head - |messageBuffer|;
      if |data| - from < need {
        messageBuffer := messageBuffer + data[from..];
        assert messageBuffer + "" == messageBuffer;
        return Stop, |data|;
      }
      ghost var all := messageBuffer + data[from..];
      messageBuffer := messageBuffer + data[from..from + need];
      assert messageBuffer + data[from + need..] == all
        && all[..config.head] == messageBuffer == messageBuffer[..config.head];
      messageLength := Length(config, messageBuffer);
      if messageLength > config.max || messageLength == 0 {
        return Fail, from;
      }
      return Again, from + need;
    }

    // The rest of the buffered message is added.  The difference is that of unsigned numbers.
    method CompleteMessage(data: string, from: nat, ghost p: Parsed) returns (turn: Turn, i: nat)
      requires Valid() && from <= |data| && |messageBuffer| >= config.head && OnTrack(p, data[from..])
      requires |messageBuffer| + |data| - from < SIZE_LIMIT
      modifies this
      ensures from <= i <= |data|
      ensures turn == Fail ==> p == Closed(delivered) && !old(Stuck())
      ensures turn == Stop ==> Valid() && i == |data| && OnTrack(p, "") && delivered == old(delivered)
      ensures turn == Stop ==> messageBuffer == old(messageBuffer) + data[from..] && messageLength == old(messageLength)
      ensures turn == Stop ==> (Overdue() <==> old(Stuck()))
      ensures turn == Again ==> Valid() && !old(Stuck()) && OnTrack(p, data[i..]) && messageBuffer == ""
    {
      i := from;
      hide Parse;
      var need := Difference(messageLength, |messageBuffer|);
      if |data| - from < need {
        SameHead(config, messageBuffer, data[from..]);
        messageBuffer := messageBuffer + data[from..];
        return Stop, |data|;
      }
      TakeMessage(config, verdict, delivered, messageBuffer, data, from, messageLength);
      messageBuffer := messageBuffer + data[from..from + need];
      var ret := DoMessage(messageBuffer);
      if ret < 0 {
        return Fail, from;
      }
      messageLength, messageBuffer := 0, "";
      return Again, from + need;
    }

    ghost predicate At(buffer: string, length: nat, data: string, i: nat)
      reads this
    {
      Underway(config, buffer, length, data, i, messageBuffer, messageLength)
    }

    method OneTurn(data: string, from: nat, ghost p: Parsed, ghost buffer: string, ghost length: nat)
      returns (turn: Turn, i: nat)
      requires Valid() && from <= |data| && OnTrack(p, data[from..]) && At(buffer, length, data, from)
      requires from < |data| || from == 0
      requires |messageBuffer| + |data| - from < SIZE_LIMIT
      modifies this
      ensures i <= |data|
      ensures turn == Fail ==> p == Closed(delivered) && !Delays(config, buffer, length, data)
      ensures turn == Stop ==>
        Valid() && i == |data| && OnTrack(p, "") && (Overdue() <==> Delays(config, buffer, length, data))
      ensures turn == Stop && Overdue() ==>
        messageBuffer == buffer + data && delivered == old(delivered) && old(messageBuffer) != ""
      ensures turn == Again ==> Valid() && OnTrack(p, data[i..]) && At(buffer, length, data, i)
      ensures turn == Again ==> i > from || (i == from && messageBuffer == "" && old(messageBuffer) != "")
      ensures turn == Again ==> |messageBuffer| + |data| - i < SIZE_LIMIT
      ensures turn == Again && messageBuffer != "" ==> delivered == old(delivered) && old(messageBuffer) != ""
    {
      assert data[0..] == data;
      hide Parse;
      Phases(config, buffer, length, data, from, messageBuffer, messageLength);
      if messageBuffer == "" {
        turn, i := FromData(data, from, p);
      } else if messageLength > 0 {
        turn, i := CompleteMessage(data, from, p);
      } else {
        turn, i := CompleteHead(data, from, p);
      }
    }

    // decode: -1 where the stream is refused; else what has been delivered and what is buffered amount
    // to the bytes that came in, and everything that is complete has been delivered unless the call delays it.
    method Decode(data: string) returns (ret: int)
      requires Valid() && |messageBuffer| + |data| < SIZE_LIMIT
      modifies this
      ensures ret == 0 || ret == -1
      ensures var p := Parse(config, verdict, old(delivered), old(messageBuffer) + data);
        var delays := Delays(config, old(messageBuffer), old(messageLength), data);
        && (ret == -1 ==> p == Closed(delivered) && !delays)
        && (ret == 0 ==> Valid() && Parse(config, verdict, delivered, messageBuffer) == p)
        && (ret == 0 ==> (p == Open(delivered, messageBuffer) <==> !delays))
        && (ret == 0 && delays ==>
             Overdue() && delivered == old(delivered) && messageBuffer == old(messageBuffer) + data)
    {
      hide Parse, Delays;
      ghost var p := Parse(config, verdict, delivered, messageBuffer + data);
      ghost var buffer, length := messageBuffer, messageLength;
      var i := 0;
      assert data[0..] == data;
      var turn := Again;
      var first := true;
      while turn == Again && (first || i < |data|)
        invariant Valid() && i <= |data| && turn != Fail
        invariant turn == Again ==> |messageBuffer| + |data| - i < SIZE_LIMIT
        invariant turn == Again ==> OnTrack(p, data[i..]) && At(buffer, length, data, i)
        invariant first ==> i == 0 && turn == Again && messageBuffer == buffer
        invariant !first && i == 0 && turn == Again ==> messageBuffer == ""
        invariant turn == Again && messageBuffer != "" ==> delivered == old(delivered)
        invariant turn == Stop ==> OnTrack(p, "") && (Overdue() <==> Delays(config, buffer, length, data))
        invariant turn == Stop && Overdue() ==> delivered == old(delivered) && messageBuffer == buffer + data
        decreases turn == Again, |data| - i, |messageBuffer|
      {
        turn, i := OneTurn(data, i, p, buffer, length);
        if turn == Fail {
          return -1;
        }
        first := false;
      }
      if turn == Again {
        AtTheEnd(config, buffer, length, data, messageBuffer, messageLength);
        assert data[i..] == "";
      }
      ret := 0;
      NothingReady(config, verdict, delivered, messageBuffer, messageLength);
      assert messageBuffer + "" == messageBuffer;
    }
  }

  // ---------- cutting the stream differently ----------

  lemma StrictIsPrompt(c: Config, buffer: string, length: nat, data: string)
    requires Strict(c, buffer + data) && !(0 < length < |buffer|)
    ensures !Delays(c, buffer, length, data)
  {
  }

  // If every length is above that of the head, chunks do not matter: the same messages are delivered, the
  // same stream is refused, and the same bytes are left over as if all had come at once.
  method DecodeChunks(d: Decoder, chunks: seq<string>) returns (ret: int)
    requires d.Valid() && !d.Overdue() && |d.messageBuffer| + |Flatten(chunks)| < SIZE_LIMIT
    requires Strict(d.config, d.messageBuffer + Flatten(chunks))
    modifies d
    ensures ret == 0 || ret == -1
    ensures Parse(d.config, d.verdict, old(d.delivered), old(d.messageBuffer) + Flatten(chunks)) ==
      if ret == 0 then Open(d.delivered, d.messageBuffer) else Closed(d.delivered)
    ensures ret == 0 ==>
      d.Valid() && !d.Overdue() && (|d.messageBuffer| < d.config.head || |d.messageBuffer| < d.config.max)
  {
    hide Parse, Delays, Strict;
    ghost var p := Parse(d.config, d.verdict, d.delivered, d.messageBuffer + Flatten(chunks));
    var k := 0;
    assert chunks[0..] == chunks;
    while k < |chunks|
      invariant k <= |chunks| && d.Valid() && !d.Overdue() && |d.messageBuffer| + |Flatten(chunks[k..])| < SIZE_LIMIT
      invariant Strict(d.config, d.messageBuffer + Flatten(chunks[k..]))
      invariant Parse(d.config, d.verdict, d.delivered, d.messageBuffer + Flatten(chunks[k..])) == p
    {
      var rest := Flatten(chunks[k + 1..]);
      assert chunks[k..][1..] == chunks[k + 1..];
      ghost var all := d.messageBuffer + chunks[k];
      assert all + rest == d.messageBuffer + Flatten(chunks[k..]);
      StrictPrefix(d.config, all, rest);
      StrictIsPrompt(d.config, d.messageBuffer, d.messageLength, chunks[k]);
      ParseMore(d.config, d.verdict, d.delivered, all, rest);
      ghost var delivered := d.delivered;
      ret := d.Decode(chunks[k]);
      if ret == -1 {
        return;
      }
      StrictRest(d.config, d.verdict, delivered, all, rest);
      ParseConserves(d.config, d.verdict, delivered, all);
      NothingReady(d.config, d.verdict, d.delivered, d.messageBuffer, d.messageLength);
      assert d.messageBuffer + "" == d.messageBuffer;
      k := k + 1;
    }
    NothingReady(d.config, d.verdict, d.delivered, d.messageBuffer, d.messageLength);
    ret := 0;
  }

  // A length that is not above that of the head is told in time exactly if the head is not cut (or the
  // head is but one byte, or more data follows a message that is all head).
  lemma CuttingTheHead(c: Config, s: string)
    requires 0 < c.head <= |s| && Accepted(c, Length(c, s))
    ensures (exists i :: 0 < i < c.head && Delays(c, s[..i], 0, s[i..])) <==>
      c.head > 1 && (Length(c, s) < c.head || Length(c, s) == c.head == |s|)
    ensures !Delays(c, "", 0, s)
  {
    assert forall i :: 0 <= i <= |s| ==> s[..i] + s[i..] == s;
    if c.head > 1 && (Length(c, s) < c.head || Length(c, s) == c.head == |s|) {
      assert Delays(c, s[..1], 0, s[1..]);
    }
  }

  // Where the cut does harm: a head of two bytes that tells a length of one.  Coming at once, "ab" gives the
  // message "a"; coming in two pieces it gives nothing, and nothing will ever be delivered again.
  method NeverDelivered() returns (d: Decoder)
    ensures d.Valid() && d.Stuck() && d.delivered == [] && d.messageBuffer == "ab"
    ensures Parse(d.config, d.verdict, [], "ab") == Open(["a"], "b")
  {
    var c := Config(2, _ => 1, 10);
    d := new Decoder(c, _ => 0);
    assert Length(c, "ab") == 1 && "a" + "b" == "ab" && "" + "a" == "a";
    assert "ab"[..1] == "a" && "ab"[1..] == "b";
    var ret := d.Decode("a");
    assert d.messageBuffer == "a" && d.delivered == [];
    ret := d.Decode("b");
    assert d.delivered == [];
  }

  // A decoder that is stuck delivers nothing any more, whatever comes.
  method DecodeStuck(d: Decoder, chunks: seq<string>)
    requires d.Valid() && d.Stuck() && |d.messageBuffer| + |Flatten(chunks)| < SIZE_LIMIT
    modifies d
    ensures d.Valid() && d.Stuck() && d.delivered == old(d.delivered)
      && d.messageBuffer == old(d.messageBuffer) + Flatten(chunks)
  {
    hide Parse;
    ghost var all := d.messageBuffer + Flatten(chunks);
    var k := 0;
    assert chunks[0..] == chunks;
    while k < |chunks|
      invariant k <= |chunks| && d.Valid() && d.Stuck() && d.delivered == old(d.delivered)
      invariant d.messageBuffer + Flatten(chunks[k..]) == all
      invariant |all| < SIZE_LIMIT
    {
      assert chunks[k..][1..] == chunks[k + 1..];
      SameHead(d.config, d.messageBuffer, chunks[k]);
      assert d.messageBuffer + chunks[k] + Flatten(chunks[k + 1..]) == all;
      var ret := d.Decode(chunks[k]);
      k := k + 1;
    }
    assert d.messageBuffer + "" == d.messageBuffer;
  }

  // ---------- messages of a fixed length ----------

  // Messages of n bytes: a head of no bytes that always tells n.
  function Fixed(n: nat): Config { Config(0, _ => n, n) }

  class FixedDecoder {
    const messageLength: nat
    const verdict: Verdict
    var messageBuffer: string
    var delivered: seq<string>

    ghost predicate Valid()
      reads this
    {
      |messageBuffer| < messageLength
    }

    constructor (messageLength: nat, verdict: Verdict)
      requires messageLength > 0
      ensures Valid() && messageBuffer == "" && delivered == [] && this.messageLength == messageLength
        && this.verdict == verdict
    {
      this.messageLength, this.verdict := messageLength, verdict;
      messageBuffer, delivered := "", [];
    }

    method DoMessage(m: string) returns (ret: int)
      modifies `delivered
      ensures delivered == old(delivered) + [m] && ret == verdict(delivered)
    {
      delivered := delivered + [m];
      ret := verdict(delivered);
    }

    // The loop over whole messages in the data, and what is left of it.
    method FromData(data: string) returns (ret: int)
      requires Valid() && messageBuffer == ""
      modifies this
      ensures ret == 0 || ret == -1
      ensures Parse(Fixed(messageLength), verdict, old(delivered), data) ==
        if ret == 0 then Open(delivered, messageBuffer) else Closed(delivered)
      ensures ret == 0 ==> Valid()
    {
      var remain := data;
      while |remain| >= messageLength
        invariant Valid() && messageBuffer == ""
        invariant Parse(Fixed(messageLength), verdict, delivered, remain) ==
          Parse(Fixed(messageLength), verdict, old(delivered), data)
        decreases |remain|
      {
        ret := DoMessage(remain[..messageLength]);
        if ret < 0 {
          return -1;
        }
        remain := remain[messageLength..];
      }
      if |remain| > 0 {
        messageBuffer := remain;
      }
      ret := 0;
    }

    // decode: whatever is buffered and however the data is cut.
    method Decode(data: string) returns (ret: int)
      requires Valid()
      modifies this
      ensures ret == 0 || ret == -1
      ensures Parse(Fixed(messageLength), verdict, old(delivered), old(messageBuffer) + data) ==
        if ret == 0 then Open(delivered, messageBuffer) else Closed(delivered)
      ensures ret == 0 ==> Valid()
    {
      if messageBuffer == "" {
        assert "" + data == data;
        ret := FromData(data);
        return;
      }
      var need := messageLength - |messageBuffer|;
      if |data| < need {
        messageBuffer := messageBuffer + data;
        return 0;
      }
      TakeMessage(Fixed(messageLength), verdict, delivered, messageBuffer, data, 0, messageLength);
      assert data[0..] == data && data[0..need] == data[..need] && "" + data[need..] == data[need..];
      hide Parse;
      ret := DoMessage(messageBuffer + data[..need]);
      if ret < 0 {
        return -1;
      }
      messageBuffer := "";
      ret := FromData(data[need..]);
    }
  }

  method DecodeFixedChunks(d: FixedDecoder, chunks: seq<string>) returns (ret: int)
    requires d.Valid()
    modifies d
    ensures ret == 0 || ret == -1
    ensures Parse(Fixed(d.messageLength), d.verdict, old(d.delivered), old(d.messageBuffer) + Flatten(chunks)) ==
      if ret == 0 then Open(d.delivered, d.messageBuffer) else Closed(d.delivered)
    ensures ret == 0 ==> d.Valid()
  {
    ghost var c, p := Fixed(d.messageLength),
      Parse(Fixed(d.messageLength), d.verdict, d.delivered, d.messageBuffer + Flatten(chunks));
    var k := 0;
    assert chunks[0..] == chunks;
    while k < |chunks|
      invariant k <= |chunks| && d.Valid()
      invariant Parse(c, d.verdict, d.delivered, d.messageBuffer + Flatten(chunks[k..])) == p
    {
      assert chunks[k..][1..] == chunks[k + 1..];
      ghost var rest := Flatten(chunks[k + 1..]);
      assert d.messageBuffer + chunks[k] + rest == d.messageBuffer + Flatten(chunks[k..]);
      ParseMore(c, d.verdict, d.delivered, d.messageBuffer + chunks[k], rest);
      ret := d.Decode(chunks[k]);
      if ret == -1 {
        return;
      }
      k := k + 1;
    }
    assert d.messageBuffer + "" == d.messageBuffer;
    ret := 0;
  }
}
