/** The incremental HTTP decoders: HttpRequestHandler::decode and HttpResponseHandler::decode.  The two
    differ in the start line only, which `side` selects. */
module HttpDecoder {
  import opened Basics
  import opened Http

  class Decoder {
    const side: Side
    const config: Config
    const verdict: Verdict
    var decodeState: DecodeState
    var lineState: LineState
    var headerLength: nat
    var field1: string
    var field2: string
    // The message under way; its body is what has been buffered of it.
    var message: Message
    // What the handler has been given.
    var delivered: seq<Message>

    ghost function Abs(): Parser
      reads this
    {
      Parser(decodeState, lineState, headerLength, field1, field2, message)
    }

    ghost predicate Valid()
      reads this
    {
      if decodeState.InBody? then |message.body| < message.contentLength else message.body == ""
    }

    constructor (side: Side, config: Config, verdict: Verdict)
      ensures Valid() && Abs() == NewParser(side) && delivered == []
      ensures this.side == side && this.config == config && this.verdict == verdict
    {
      this.side, this.config, this.verdict := side, config, verdict;
      decodeState, lineState, headerLength := if side.Request? then InMethod else InVersion, Normal, 0;
      field1, field2, message, delivered := "", "", NewMessage(), [];
    }

    // The handler gets the message; unless it objects, decoding starts afresh.
    method DecodeReset(m: Message) returns (ret: int)
      modifies this
      ensures delivered == old(delivered) + [m] && ret == verdict(delivered)
      ensures ret >= 0 ==> Abs() == NewParser(side)
    {
      delivered := delivered + [m];
      ret := verdict(delivered);
      if ret >= 0 {
        message := NewMessage();
        headerLength := 0;
        decodeState := if side.Request? then InMethod else InVersion;
        lineState := Normal;
        field1 := "";
        field2 := "";
      }
    }

    // What a byte did agrees with the outcome o that the specification gives it.
    ghost predicate Follows(o: Outcome, before: seq<Message>, ok: bool)
      reads this
    {
      match o
      case Error => !ok && delivered == before
      case More(p) => ok && Abs() == p && delivered == before
      case Complete(p) =>
        && delivered == before + [p.message] && ok == (verdict(delivered) >= 0)
        && (ok ==> Abs() == NewParser(side))
    }

    method MethodByte(ch: char) returns (ok: bool)
      requires decodeState.InMethod?
      modifies this
      ensures Follows(Http.MethodByte(old(Abs()), ch), old(delivered), ok)
    {
      if ch != ' ' {
        field1 := field1 + [ch];
      } else {
        message := message.(method_ := FindMethodId(field1));
        if message.method_ == Unknown {
          return false;
        }
        decodeState := InUri;
        field1 := "";
      }
      return true;
    }

    method UriByte(ch: char) returns (ok: bool)
      requires decodeState.InUri?
      modifies this
      ensures Follows(Http.UriByte(old(Abs()), ch), old(delivered), ok)
    {
      if ch != ' ' {
        message := message.(uri := message.uri + [ch]);
      } else {
        decodeState := InVersion;
      }
      return true;
    }

    method RequestVersionByte(ch: char) returns (ok: bool)
      requires decodeState.InVersion?
      modifies this
      ensures Follows(Http.RequestVersionByte(old(Abs()), ch), old(delivered), ok)
    {
      if lineState != Normal {
        ok := StartLineEnd(ch);
      } else if ch != '\r' {
        field1 := field1 + [ch];
        ok := true;
      } else {
        message := message.(version := FindVersionId(field1));
        if message.version == NoVersion {
          return false;
        }
        lineState := CR;
        field1 := "";
        ok := true;
      }
    }

    method ResponseVersionByte(ch: char) returns (ok: bool)
      requires decodeState.InVersion?
      modifies this
      ensures Follows(Http.ResponseVersionByte(old(Abs()), ch), old(delivered), ok)
    {
      if ch != ' ' {
        field1 := field1 + [ch];
      } else {
        message := message.(version := FindVersionId(field1));
        if message.version == NoVersion {
          return false;
        }
        decodeState := InStatusCode;
        field1 := "";
      }
      return true;
    }

    method StatusCodeByte(ch: char) returns (ok: bool)
      requires decodeState.InStatusCode?
      modifies this
      ensures Follows(Http.StatusCodeByte(old(Abs()), ch), old(delivered), ok)
    {
      if ch != ' ' {
        field1 := field1 + [ch];
      } else {
        message := message.(status := Atoi(field1));
        decodeState := InReasonPhrase;
      }
      return true;
    }

    method ReasonPhraseByte(ch: char) returns (ok: bool)
      requires decodeState.InReasonPhrase?
      modifies this
      ensures Follows(Http.ReasonPhraseByte(old(Abs()), ch), old(delivered), ok)
    {
      if lineState != Normal {
        ok := StartLineEnd(ch);
      } else if ch != '\r' {
        message := message.(reason := message.reason + [ch]);
        ok := true;
      } else {
        lineState := CR;
        ok := true;
      }
    }

    method StartLineEnd(ch: char) returns (ok: bool)
      requires !lineState.Normal?
      modifies this
      ensures Follows(Http.StartLineEnd(old(Abs()), ch), old(delivered), ok)
    {
      ok := true;
      if lineState == CR {
        if ch != '\n' {
          return false;
        }
        lineState := CRLF;
      } else if lineState == CRLF {
        if ch != '\r' {
          field1 := [ch];
          decodeState := InHeaderField;
          lineState := Normal;
        } else {
          lineState := CRLFCR;
        }
      } else {
        if ch != '\n' {
          return false;
        }
        var ret := DecodeReset(message);
        ok := ret >= 0;
      }
    }

    method HeaderFieldByte(ch: char) returns (ok: bool)
      requires decodeState.InHeaderField?
      modifies this
      ensures Follows(Http.HeaderFieldByte(old(Abs()), ch), old(delivered), ok)
    {
      if ch != ':' {
        field1 := field1 + [ch];
      } else {
        decodeState := InHeaderValue;
        field2 := "";
      }
      return true;
    }

    // A field that has been moved into the headers is left empty.
    method HeaderValueByte(ch: char) returns (ok: bool)
      requires decodeState.InHeaderValue?
      modifies this
      ensures Follows(Http.HeaderValueByte(config, old(Abs()), ch), old(delivered), ok)
    {
      ok := true;
      if lineState == Normal {
        if ch != '\r' {
          field2 := field2 + [ch];
        } else {
          message := message.(headers := Emplace(message.headers, field1, field2));
          lineState := CR;
          field1 := "";
          field2 := "";
        }
      } else if lineState == CR {
        if ch != '\n' {
          return false;
        }
        lineState := CRLF;
      } else if lineState == CRLF {
        if ch != '\r' {
          field1 := field1 + [ch];
          decodeState := InHeaderField;
          lineState := Normal;
        } else {
          lineState := CRLFCR;
        }
      } else if ch != '\n' {
        return false;
      } else {
        ok := HeadersEnd();
      }
    }

    // The headers are complete: the message is, too, unless it has a body.
    method HeadersEnd() returns (ok: bool)
      requires decodeState.InHeaderValue?
      modifies this
      ensures Follows(Http.HeadersEnd(config, old(Abs())), old(delivered), ok)
    {
      var updated := Update(message);
      if updated == None {
        return false;
      }
      message := updated.value;
      if message.contentLength > 0 {
        if message.contentLength > config.maxBodyLength {
          return false;
        }
        decodeState := InBody;
        lineState := Normal;
        ok := true;
      } else {
        var ret := DecodeReset(message);
        ok := ret >= 0;
      }
    }

    // The body of the loop over header bytes.
    method HeaderByte(ch: char) returns (ok: bool)
      requires !decodeState.InBody?
      modifies this
      ensures Follows(Http.HeaderByte(side, config, old(Abs()), ch), old(delivered), ok)
    {
      hide Http.MethodByte, Http.UriByte, Http.RequestVersionByte, Http.ResponseVersionByte;
      hide Http.StatusCodeByte, Http.ReasonPhraseByte, Http.HeaderFieldByte, Http.HeaderValueByte;
      headerLength := headerLength + 1;
      if headerLength >= config.maxHeaderLength {
        return false;
      }
      ok := true;
      match decodeState {
        case InMethod => if side.Request? { ok := MethodByte(ch); }
        case InUri => if side.Request? { ok := UriByte(ch); }
        case InVersion =>
          if side.Request? {
            ok := RequestVersionByte(ch);
          } else {
            ok := ResponseVersionByte(ch);
          }
        case InStatusCode => if side.Response? { ok := StatusCodeByte(ch); }
        case InReasonPhrase => if side.Response? { ok := ReasonPhraseByte(ch); }
        case InHeaderField => ok := HeaderFieldByte(ch);
        case InHeaderValue => ok := HeaderValueByte(ch);
      }
    }

    // The specification has come as far as this decoder after i bytes of the data.
    ghost predicate UpTo(r: Stream, data: string, i: nat)
      reads this
    {
      i <= |data| && FeedAll(side, config, verdict, r, data[..i]) == Running(Abs(), delivered, r.seen + i)
    }

    ghost predicate StoppedAt(r: Stream, data: string, at: nat)
      reads this
    {
      FeedAll(side, config, verdict, r, data) == Broken(delivered, r.seen + at)
    }

    // The loop over header bytes: to the end of the data or of the headers.
    method DecodeHeader(ghost r: Stream, data: string, from: nat) returns (ok: bool, i: nat)
      requires Valid() && UpTo(r, data, from)
      modifies this
      ensures if ok then Valid() && from <= i && UpTo(r, data, i) && (i == |data| || decodeState.InBody?)
              else StoppedAt(r, data, i)
    {
      i := from;
      ok := true;
      while i < |data| && !decodeState.InBody?
        invariant Valid() && from <= i && UpTo(r, data, i)
      {
        ok := HeaderStep(r, data, i);
        if !ok {
          return;
        }
        i := i + 1;
      }
    }

    method HeaderStep(ghost r: Stream, data: string, i: nat) returns (ok: bool)
      requires Valid() && !decodeState.InBody? && UpTo(r, data, i) && i < |data|
      modifies this
      ensures if ok then Valid() && UpTo(r, data, i + 1) else StoppedAt(r, data, i)
    {
      FeedPrefix(side, config, verdict, r, data, i);
      EnteringBody(side, config, Abs(), data[i]);
      ghost var p := Abs();
      hide Http.HeaderByte, FeedAll;
      assert Step(side, config, p, data[i]) == Http.HeaderByte(side, config, p, data[i]);
      ok := HeaderByte(data[i]);
      if !ok {
        FeedStops(side, config, verdict, r, data, i + 1);
      }
    }

    // The body: all of it from the data if it is there, else what there is of it into the buffer.
    method DecodeBody(ghost r: Stream, data: string, from: nat) returns (ok: bool, i: nat)
      requires Valid() && decodeState.InBody? && UpTo(r, data, from) && from < |data|
      modifies this
      ensures if ok then Valid() && from < i && UpTo(r, data, i) else StoppedAt(r, data, i)
    {
      var remain := |data| - from;
      if message.body == "" && remain >= message.contentLength {
        i := from + message.contentLength;
        ok := BodyEnds(r, data, from, i, data[from..i]);
      } else {
        var need := if remain < message.contentLength - |message.body| then remain
          else message.contentLength - |message.body|;
        i := from + need;
        if |message.body| + need == message.contentLength {
          ok := BodyEnds(r, data, from, i, message.body + data[from..i]);
        } else {
          ok := true;
          FeedRange(side, config, verdict, r, data, from, i);
          FeedBody(side, config, verdict, Running(Abs(), delivered, r.seen + from), data[from..i]);
          hide FeedAll;
          message := message.(body := message.body + data[from..i]);
        }
      }
      if !ok {
        i := i - 1;
      }
    }

    // The message is handed over with the whole body, wherever its bytes are.
    method BodyEnds(ghost r: Stream, data: string, ghost from: nat, ghost i: nat, body: string) returns (ok: bool)
      requires Valid() && decodeState.InBody? && UpTo(r, data, from) && from < i <= |data|
      requires |message.body| + (i - from) == message.contentLength && body == message.body + data[from..i]
      modifies this
      ensures if ok then Valid() && UpTo(r, data, i) else StoppedAt(r, data, i - 1)
    {
      FeedRange(side, config, verdict, r, data, from, i);
      FeedBodyEnd(side, config, verdict, Running(Abs(), delivered, r.seen + from), data[from..i]);
      hide FeedAll;
      var ret := DecodeReset(message.(body := body));
      ok := ret >= 0;
      if !ok {
        FeedStops(side, config, verdict, r, data, i);
      }
    }

    // decode: the data is consumed as the specification says, byte by byte, whatever came before it;
    // -1 at the byte where the specification breaks off.
    method Decode(data: string, ghost base: nat) returns (ret: int, at: nat)
      requires Valid()
      modifies this
      ensures ret == 1 || ret == -1
      ensures var r := FeedAll(side, config, verdict, Running(old(Abs()), old(delivered), base), data);
        if ret == 1 then Valid() && r == Running(Abs(), delivered, base + |data|) else r == Broken(delivered, base + at)
    {
      ghost var r := Running(Abs(), delivered, base);
      at := 0;
      var again := true;
      assert data[..0] == "" && data[..|data|] == data;
      hide Feed;
      while again
        invariant Valid() && UpTo(r, data, at) && (!again ==> at == |data|)
        decreases |data| - at, again
      {
        var ok;
        if decodeState != InBody {
          ok, at := DecodeHeader(r, data, at);
          if !ok {
            return -1, at;
          }
        }
        if decodeState == InBody && at < |data| {
          ok, at := DecodeBody(r, data, at);
          if !ok {
            return -1, at;
          }
        }
        again := at < |data|;
      }
      ret := 1;
    }
  }

  // A header byte leads into the body only of a message that has one, and none of it yet.
  lemma EnteringBody(side: Side, c: Config, p: Parser, ch: char)
    ensures var o := Http.HeaderByte(side, c, p, ch);
      o.More? && !p.state.InBody? ==>
        o.p.message.body == p.message.body && (o.p.state.InBody? ==> o.p.message.contentLength > 0)
    ensures NewParser(side).state != InBody && NewParser(side).message.body == ""
  {
  }

  // Cutting the data differently makes no difference: the same messages are delivered, the same error
  // is met at the same byte, and the same state is left.
  method DecodeChunks(d: Decoder, chunks: seq<string>) returns (ret: int, at: nat)
    requires d.Valid()
    modifies d
    ensures ret == 1 || ret == -1
    ensures var r := FeedAll(d.side, d.config, d.verdict, Running(old(d.Abs()), old(d.delivered), 0), Flatten(chunks));
      if ret == 1 then d.Valid() && r == Running(d.Abs(), d.delivered, |Flatten(chunks)|)
        else r == Broken(d.delivered, at)
  {
    hide Feed, FeedAll;
    ghost var r := Running(d.Abs(), d.delivered, 0);
    ChunksDoNotMatter(d.side, d.config, d.verdict, r, chunks);
    at := 0;
    var k := 0;
    while k < |chunks|
      invariant k <= |chunks| && d.Valid()
      invariant FeedChunks(d.side, d.config, d.verdict, r, chunks)
        == FeedChunks(d.side, d.config, d.verdict, Running(d.Abs(), d.delivered, at), chunks[k..])
      invariant at + |Flatten(chunks[k..])| == |Flatten(chunks)|
    {
      assert chunks[k..][1..] == chunks[k + 1..];
      var i;
      ret, i := d.Decode(chunks[k], at);
      if ret < 0 {
        at := at + i;
        ChunksDoNotMatter(d.side, d.config, d.verdict, Broken(d.delivered, at), chunks[k + 1..]);
        FeedBroken(d.side, d.config, d.verdict, Broken(d.delivered, at), Flatten(chunks[k + 1..]));
        return;
      }
      at := at + |chunks[k]|;
      k := k + 1;
    }
    ret := 1;
  }
}
