/** HTTP messages, and what the request and the response decoder make of a byte stream, byte by byte. */
module Http {
  import opened Basics
  import opened DecimalDigits

  datatype Side = Request | Response

  datatype MethodId = Unknown | OPTIONS | GET | HEAD | POST | PUT | DELETE | TRACE | CONNECT

  datatype VersionId = NoVersion | HTTP09 | HTTP10 | HTTP11

  datatype DecodeState =
    | InMethod | InUri | InVersion | InStatusCode | InReasonPhrase | InHeaderField | InHeaderValue | InBody

  datatype LineState = Normal | CR | CRLF | CRLFCR

  datatype Config = Config(maxHeaderLength: nat, maxBodyLength: nat)

  // A request uses method and uri, a response status and reason.
  datatype Message = Message(
    method_: MethodId,
    uri: string,
    version: VersionId,
    status: int,
    reason: string,
    headers: map<string, string>,
    contentLength: nat,
    body: string)

  function NewMessage(): Message { Message(GET, "", HTTP11, 200, "", map[], 0, "") }

  function FindMethodId(name: string): MethodId {
    if name == "OPTIONS" then OPTIONS
    else if name == "GET" then GET
    else if name == "HEAD" then HEAD
    else if name == "POST" then POST
    else if name == "PUT" then PUT
    else if name == "DELETE" then DELETE
    else if name == "TRACE" then TRACE
    else if name == "CONNECT" then CONNECT
    else Unknown
  }

  function FindMethodName(id: MethodId): string {
    match id
    case Unknown => ""
    case OPTIONS => "OPTIONS"
    case GET => "GET"
    case HEAD => "HEAD"
    case POST => "POST"
    case PUT => "PUT"
    case DELETE => "DELETE"
    case TRACE => "TRACE"
    case CONNECT => "CONNECT"
  }

  function FindVersionId(name: string): VersionId {
    if name == "HTTP/0.9" then HTTP09
    else if name == "HTTP/1.0" then HTTP10
    else if name == "HTTP/1.1" then HTTP11
    else NoVersion
  }

  function FindVersionName(id: VersionId): string {
    match id
    case NoVersion => ""
    case HTTP09 => "HTTP/0.9"
    case HTTP10 => "HTTP/1.0"
    case HTTP11 => "HTTP/1.1"
  }

  // ---------- atoi ----------

  predicate IsSpace(c: char) { c == ' ' || '\t' <= c <= '\r' }

  function Signed(s: string): int {
    if s != "" && s[0] == '-' then (var n: int := Digits(s[1..], 0); -n)
    else if s != "" && s[0] == '+' then Digits(s[1..], 0)
    else Digits(s, 0)
  }

  function Atoi(s: string): int {
    if s != "" && IsSpace(s[0]) then Atoi(s[1..]) else Signed(s)
  }

  // ---------- one byte ----------

  datatype Parser = Parser(
    state: DecodeState,
    line: LineState,
    headerLength: nat,
    field1: string,
    field2: string,
    message: Message)

  function NewParser(side: Side): Parser {
    Parser(if side.Request? then InMethod else InVersion, Normal, 0, "", "", NewMessage())
  }

  datatype Outcome = Error | More(p: Parser) | Complete(p: Parser)

  function MethodByte(p: Parser, ch: char): Outcome {
    if ch != ' ' then More(p.(field1 := p.field1 + [ch]))
    else
      var id := FindMethodId(p.field1);
      if id == Unknown then Error else More(p.(state := InUri, field1 := "", message := p.message.(method_ := id)))
  }

  function UriByte(p: Parser, ch: char): Outcome {
    if ch != ' ' then More(p.(message := p.message.(uri := p.message.uri + [ch])))
    else More(p.(state := InVersion))
  }

  // The version of a request ends its line, that of a response ends at a blank.
  function VersionEnd(p: Parser): Option<Parser> {
    var id := FindVersionId(p.field1);
    if id == NoVersion then None else Some(p.(field1 := "", message := p.message.(version := id)))
  }

  function RequestVersionByte(p: Parser, ch: char): Outcome {
    if p.line.Normal? then
      if ch != '\r' then More(p.(field1 := p.field1 + [ch]))
      else match VersionEnd(p)
           case None => Error
           case Some(q) => More(q.(line := CR))
    else StartLineEnd(p, ch)
  }

  function ResponseVersionByte(p: Parser, ch: char): Outcome {
    if ch != ' ' then More(p.(field1 := p.field1 + [ch]))
    else match VersionEnd(p)
         case None => Error
         case Some(q) => More(q.(state := InStatusCode))
  }

  function StatusCodeByte(p: Parser, ch: char): Outcome {
    if ch != ' ' then More(p.(field1 := p.field1 + [ch]))
    else More(p.(state := InReasonPhrase, message := p.message.(status := Atoi(p.field1))))
  }

  function ReasonPhraseByte(p: Parser, ch: char): Outcome {
    if p.line.Normal? then
      if ch != '\r' then More(p.(message := p.message.(reason := p.message.reason + [ch])))
      else More(p.(line := CR))
    else StartLineEnd(p, ch)
  }

  // After the start line: a header, or the end of a message that has none.
  function StartLineEnd(p: Parser, ch: char): Outcome
    requires !p.line.Normal?
  {
    match p.line
    case CR => if ch == '\n' then More(p.(line := CRLF)) else Error
    case CRLF =>
      if ch != '\r' then More(p.(field1 := [ch], state := InHeaderField, line := Normal))
      else More(p.(line := CRLFCR))
    case CRLFCR => if ch == '\n' then Complete(p) else Error
  }

  function HeaderFieldByte(p: Parser, ch: char): Outcome {
    if ch != ':' then More(p.(field1 := p.field1 + [ch])) else More(p.(state := InHeaderValue, field2 := ""))
  }

  function Emplace(headers: map<string, string>, name: string, value: string): map<string, string> {
    if name in headers then headers else headers[name := value]
  }

  function HeaderValueByte(c: Config, p: Parser, ch: char): Outcome {
    match p.line
    case Normal =>
      if ch != '\r' then More(p.(field2 := p.field2 + [ch]))
      else
        var headers := Emplace(p.message.headers, p.field1, p.field2);
        More(p.(line := CR, field1 := "", field2 := "", message := p.message.(headers := headers)))
    case CR => if ch == '\n' then More(p.(line := CRLF)) else Error
    case CRLF =>
      if ch != '\r' then More(p.(field1 := p.field1 + [ch], state := InHeaderField, line := Normal))
      else More(p.(line := CRLFCR))
    case CRLFCR => if ch == '\n' then HeadersEnd(c, p) else Error
  }

  // HttpMessage::update: a negative Content-Length is refused.
  function Update(m: Message): Option<Message> {
    if "Content-Length" !in m.headers then Some(m)
    else
      var n := Atoi(m.headers["Content-Length"]);
      if n < 0 then None else Some(m.(contentLength := n))
  }

  function HeadersEnd(c: Config, p: Parser): Outcome {
    match Update(p.message)
    case None => Error
    case Some(m) =>
      var q := p.(message := m);
      if m.contentLength > c.maxBodyLength then Error
      else if m.contentLength > 0 then More(q.(state := InBody, line := Normal))
      else Complete(q)
  }

  function HeaderByte(side: Side, c: Config, p0: Parser, ch: char): Outcome {
    var p := p0.(headerLength := p0.headerLength + 1);
    if p.headerLength >= c.maxHeaderLength then Error
    else
      match p.state
      case InMethod => if side.Request? then MethodByte(p, ch) else More(p)
      case InUri => if side.Request? then UriByte(p, ch) else More(p)
      case InVersion => if side.Request? then RequestVersionByte(p, ch) else ResponseVersionByte(p, ch)
      case InStatusCode => if side.Request? then More(p) else StatusCodeByte(p, ch)
      case InReasonPhrase => if side.Request? then More(p) else ReasonPhraseByte(p, ch)
      case InHeaderField => HeaderFieldByte(p, ch)
      case InHeaderValue => HeaderValueByte(c, p, ch)
      case InBody => More(p)
  }

  function BodyByte(p: Parser, ch: char): Outcome {
    var q := p.(message := p.message.(body := p.message.body + [ch]));
    if |q.message.body| == q.message.contentLength then Complete(q) else More(q)
  }

  function Step(side: Side, c: Config, p: Parser, ch: char): Outcome {
    if p.state.InBody? then BodyByte(p, ch) else HeaderByte(side, c, p, ch)
  }

  // ---------- the stream ----------

  // The handler's answer to the last of the messages it has been given; a negative one breaks the connection.
  type Verdict = seq<Message> -> int

  // `seen` bytes have been taken; a broken stream is stuck before the byte at that position.
  datatype Stream = Running(p: Parser, delivered: seq<Message>, seen: nat) | Broken(delivered: seq<Message>, seen: nat)

  function Feed(side: Side, c: Config, v: Verdict, r: Stream, ch: char): Stream {
    if r.Broken? then r
    else
      match Step(side, c, r.p, ch)
      case Error => Broken(r.delivered, r.seen)
      case More(p) => Running(p, r.delivered, r.seen + 1)
      case Complete(p) => Deliver(side, v, r.delivered + [p.message], r.seen)
  }

  function Deliver(side: Side, v: Verdict, delivered: seq<Message>, seen: nat): Stream {
    if v(delivered) < 0 then Broken(delivered, seen) else Running(NewParser(side), delivered, seen + 1)
  }

  function FeedAll(side: Side, c: Config, v: Verdict, r: Stream, s: string): Stream
    decreases |s|
  {
    if s == "" then r else FeedAll(side, c, v, Feed(side, c, v, r, s[0]), s[1..])
  }

  lemma {:induction false} FeedConcat(side: Side, c: Config, v: Verdict, r: Stream, s: string, t: string)
    ensures FeedAll(side, c, v, r, s + t) == FeedAll(side, c, v, FeedAll(side, c, v, r, s), t)
    decreases s
  {
    hide Feed;
    if s == "" {
      assert s + t == t;
    } else {
      assert (s + t)[0] == s[0] && (s + t)[1..] == s[1..] + t;
      FeedConcat(side, c, v, Feed(side, c, v, r, s[0]), s[1..], t);
    }
  }

  lemma {:induction false} FeedBroken(side: Side, c: Config, v: Verdict, r: Stream, s: string)
    requires r.Broken?
    ensures FeedAll(side, c, v, r, s) == r
    decreases s
  {
    if s != "" {
      FeedBroken(side, c, v, r, s[1..]);
    }
  }

  // A run of bytes that stays inside the body.
  lemma {:induction false} FeedBody(side: Side, c: Config, v: Verdict, r: Stream, s: string)
    requires r.Running? && r.p.state.InBody? && |r.p.message.body| + |s| < r.p.message.contentLength
    ensures FeedAll(side, c, v, r, s) ==
      Running(r.p.(message := r.p.message.(body := r.p.message.body + s)), r.delivered, r.seen + |s|)
    decreases s
  {
    var m := r.p.message;
    if s == "" {
      assert m.body + s == m.body;
    } else {
      var r1 := Feed(side, c, v, r, s[0]);
      assert r1 == Running(r.p.(message := m.(body := m.body + [s[0]])), r.delivered, r.seen + 1);
      FeedBody(side, c, v, r1, s[1..]);
      assert m.body + [s[0]] + s[1..] == m.body + s;
    }
  }

  // The bytes that complete the body.
  lemma FeedBodyEnd(side: Side, c: Config, v: Verdict, r: Stream, s: string)
    requires r.Running? && r.p.state.InBody? && s != "" && |r.p.message.body| + |s| == r.p.message.contentLength
    ensures FeedAll(side, c, v, r, s) ==
      Deliver(side, v, r.delivered + [r.p.message.(body := r.p.message.body + s)], r.seen + |s| - 1)
  {
    var k := |s| - 1;
    var m := r.p.message;
    assert s == s[..k] + [s[k]];
    FeedConcat(side, c, v, r, s[..k], [s[k]]);
    FeedBody(side, c, v, r, s[..k]);
    assert m.body + s[..k] + [s[k]] == m.body + s;
    var r1 := FeedAll(side, c, v, r, s[..k]);
    FeedOne(side, c, v, r1, s[k]);
  }

  lemma FeedOne(side: Side, c: Config, v: Verdict, r: Stream, ch: char)
    ensures FeedAll(side, c, v, r, [ch]) == Feed(side, c, v, r, ch)
  {
    assert [ch][1..] == "";
    assert FeedAll(side, c, v, r, [ch]) == FeedAll(side, c, v, Feed(side, c, v, r, [ch][0]), [ch][1..]);
  }

  lemma FeedPrefix(side: Side, c: Config, v: Verdict, r: Stream, s: string, i: nat)
    requires i < |s|
    ensures FeedAll(side, c, v, r, s[..i + 1]) == Feed(side, c, v, FeedAll(side, c, v, r, s[..i]), s[i])
  {
    assert s[..i + 1] == s[..i] + [s[i]];
    FeedConcat(side, c, v, r, s[..i], [s[i]]);
    FeedOne(side, c, v, FeedAll(side, c, v, r, s[..i]), s[i]);
  }

  lemma FeedRange(side: Side, c: Config, v: Verdict, r: Stream, s: string, i: nat, j: nat)
    requires i <= j <= |s|
    ensures FeedAll(side, c, v, r, s[..j]) == FeedAll(side, c, v, FeedAll(side, c, v, r, s[..i]), s[i..j])
  {
    assert s[..j] == s[..i] + s[i..j];
    FeedConcat(side, c, v, r, s[..i], s[i..j]);
  }

  lemma FeedStops(side: Side, c: Config, v: Verdict, r: Stream, s: string, i: nat)
    requires i <= |s| && FeedAll(side, c, v, r, s[..i]).Broken?
    ensures FeedAll(side, c, v, r, s) == FeedAll(side, c, v, r, s[..i])
  {
    assert s == s[..i] + s[i..];
    FeedConcat(side, c, v, r, s[..i], s[i..]);
    FeedBroken(side, c, v, FeedAll(side, c, v, r, s[..i]), s[i..]);
  }

  // However a byte stream is cut into chunks.
  function FeedChunks(side: Side, c: Config, v: Verdict, r: Stream, chunks: seq<string>): Stream
    decreases |chunks|
  {
    if chunks == [] then r else FeedChunks(side, c, v, FeedAll(side, c, v, r, chunks[0]), chunks[1..])
  }

  lemma {:induction false} ChunksDoNotMatter(side: Side, c: Config, v: Verdict, r: Stream, chunks: seq<string>)
    ensures FeedChunks(side, c, v, r, chunks) == FeedAll(side, c, v, r, Flatten(chunks))
    decreases |chunks|
  {
    hide Feed;
    if chunks != [] {
      FeedConcat(side, c, v, r, chunks[0], Flatten(chunks[1..]));
      ChunksDoNotMatter(side, c, v, FeedAll(side, c, v, r, chunks[0]), chunks[1..]);
    }
  }
}
