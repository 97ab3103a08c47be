/** Decoding what HttpRequest::encode writes. */
module HttpRoundTrip {
  import opened DecimalDigits
  import opened Http

  // The entries of the header map in its order.
  type Lines = seq<(string, string)>

  function HeaderLine(name: string, value: string): string { name + ": " + value + "\r\n" }

  function HeaderLines(hs: Lines): string {
    if hs == [] then "" else HeaderLine(hs[0].0, hs[0].1) + HeaderLines(hs[1..])
  }

  function UriOf(m: Message): string { if m.uri == "" then "/" else m.uri }

  // What "%s" prints of a string: it stops at a NUL.
  function Printed(s: string): (r: string)
    ensures r <= s
  {
    if s == "" || s[0] == 0 as char then "" else [s[0]] + Printed(s[1..])
  }

  function UriSent(m: Message): string { Printed(UriOf(m)) }

  function StartLine(m: Message): string {
    FindMethodName(m.method_) + " " + UriSent(m) + " " + FindVersionName(m.version) + "\r\n"
  }

  function Max(a: nat, b: nat): nat { if a < b then b else a }

  // The length that the headers announce, if they do.
  function Announced(m: Message): nat { if m.method_ == HEAD then 0 else Max(|m.body|, m.contentLength) }

  function LengthLine(n: nat): string { if n == 0 then "" else HeaderLine("Content-Length", Decimal(n)) }

  function EncodedHeaders(m: Message, hs: Lines): string {
    StartLine(m) + HeaderLines(hs) + LengthLine(Announced(m)) + "\r\n"
  }

  function Encoded(m: Message, hs: Lines): string { EncodedHeaders(m, hs) + m.body }

  // A length line is printed exactly if there is a length to tell, and never by a HEAD request.
  lemma AnnouncedIs(m: Message, hs: Lines)
    ensures var n := if |m.body| < m.contentLength then m.contentLength else |m.body|;
      EncodedHeaders(m, hs) == StartLine(m) + HeaderLines(hs) + (
        if m.method_ == HEAD || n == 0 then "\r\n" else "Content-Length: " + Decimal(n) + "\r\n\r\n")
  {
    hide StartLine, HeaderLines, Decimal;
    var n := Announced(m);
    if n > 0 {
      assert LengthLine(n) + "\r\n" == "Content-Length: " + Decimal(n) + "\r\n\r\n";
    }
    assert StartLine(m) + HeaderLines(hs) + LengthLine(n) + "\r\n" ==
      StartLine(m) + HeaderLines(hs) + (LengthLine(n) + "\r\n");
  }

  // Nothing in the fields of the message looks like what separates them.
  ghost predicate NameOk(name: string) { name != "" && name[0] != '\r' && ':' !in name }

  ghost predicate LinesOk(hs: Lines) {
    && (forall i :: 0 <= i < |hs| ==> NameOk(hs[i].0) && hs[i].0 != "Content-Length" && '\r' !in hs[i].1)
    && (forall i, j :: 0 <= i < j < |hs| ==> hs[i].0 != hs[j].0)
  }

  ghost predicate Encodable(m: Message, hs: Lines) {
    && m.method_ != Unknown && m.version != NoVersion && ' ' !in m.uri
    && LinesOk(hs)
    && m.contentLength <= |m.body| && (m.method_ == HEAD ==> m.body == "")
  }

  // Every value comes back with the blank that was put before it.
  function ReceivedHeaders(hs: Lines, before: map<string, string>): map<string, string> {
    if hs == [] then before else ReceivedHeaders(hs[1..], Emplace(before, hs[0].0, " " + hs[0].1))
  }

  function Received(m: Message, hs: Lines): Message {
    var headers := ReceivedHeaders(hs, map[]);
    Message(m.method_, UriSent(m), m.version, 200, "",
      if m.body == "" then headers else Emplace(headers, "Content-Length", " " + Decimal(|m.body|)), |m.body|, m.body)
  }

  // ---------- tools ----------

  // Bytes that end nothing and are just collected.
  predicate Plain(side: Side, p: Parser, ch: char) {
    match p.state
    case InMethod => side.Request? && ch != ' '
    case InUri => side.Request? && ch != ' '
    case InVersion => if side.Request? then p.line.Normal? && ch != '\r' else ch != ' '
    case InStatusCode => side.Response? && ch != ' '
    case InReasonPhrase => side.Response? && p.line.Normal? && ch != '\r'
    case InHeaderField => ch != ':'
    case InHeaderValue => p.line.Normal? && ch != '\r'
    case _ => false
  }

  function Collect(p: Parser, s: string): Parser {
    match p.state
    case InMethod => p.(field1 := p.field1 + s)
    case InUri => p.(message := p.message.(uri := p.message.uri + s))
    case InVersion => p.(field1 := p.field1 + s)
    case InStatusCode => p.(field1 := p.field1 + s)
    case InReasonPhrase => p.(message := p.message.(reason := p.message.reason + s))
    case InHeaderField => p.(field1 := p.field1 + s)
    case InHeaderValue => p.(field2 := p.field2 + s)
    case _ => p
  }

  lemma PlainStep(side: Side, c: Config, p: Parser, ch: char)
    requires Plain(side, p, ch) && p.headerLength + 1 < c.maxHeaderLength
    ensures Step(side, c, p, ch) == More(Collect(p, [ch]).(headerLength := p.headerLength + 1))
  {
  }

  lemma CollectTwice(side: Side, p: Parser, s: string, t: string, n: nat)
    ensures Collect(Collect(p, s).(headerLength := n), t) == Collect(p, s + t).(headerLength := n)
    ensures Collect(p, "") == p
    ensures forall ch :: Plain(side, p, ch) ==> Plain(side, Collect(p, s).(headerLength := n), ch)
  {
    assert p.field1 + s + t == p.field1 + (s + t);
    assert p.field2 + s + t == p.field2 + (s + t);
    assert p.message.uri + s + t == p.message.uri + (s + t);
    assert p.message.reason + s + t == p.message.reason + (s + t);
  }

  lemma {:induction false} FeedPlain(side: Side, c: Config, v: Verdict, r: Stream, s: string)
    requires r.Running? && (forall ch :: ch in s ==> Plain(side, r.p, ch)) && r.p.headerLength + |s| < c.maxHeaderLength
    ensures FeedAll(side, c, v, r, s) ==
      Running(Collect(r.p, s).(headerLength := r.p.headerLength + |s|), r.delivered, r.seen + |s|)
    decreases |s|
  {
    if s == "" {
      CollectTwice(side, r.p, "", "", 0);
    } else {
      PlainStep(side, c, r.p, s[0]);
      CollectTwice(side, r.p, [s[0]], s[1..], r.p.headerLength + 1);
      assert [s[0]] + s[1..] == s;
      var r1 := Feed(side, c, v, r, s[0]);
      hide Step, Plain, Collect;
      assert r1 == Running(Collect(r.p, [s[0]]).(headerLength := r.p.headerLength + 1), r.delivered, r.seen + 1);
      FeedPlain(side, c, v, r1, s[1..]);
    }
  }

  // s leads from r to r1, and from there on.
  lemma Then(side: Side, c: Config, v: Verdict, r: Stream, s: string, t: string)
    ensures FeedAll(side, c, v, r, s + t) == FeedAll(side, c, v, FeedAll(side, c, v, r, s), t)
  {
    FeedConcat(side, c, v, r, s, t);
  }

  lemma One(side: Side, c: Config, v: Verdict, r: Stream, ch: char)
    ensures FeedAll(side, c, v, r, [ch]) == Feed(side, c, v, r, ch)
  {
    FeedOne(side, c, v, r, ch);
  }

  // ---------- the start line ----------

  lemma MethodNames(id: MethodId)
    requires id != Unknown
    ensures FindMethodId(FindMethodName(id)) == id && forall ch :: ch in FindMethodName(id) ==> ch != ' '
  {
  }

  lemma VersionNames(id: VersionId)
    requires id != NoVersion
    ensures FindVersionId(FindVersionName(id)) == id && forall ch :: ch in FindVersionName(id) ==> ch != '\r'
  {
  }

  // The stream after n more header bytes, with the parser as given.
  function On(r: Stream, p: Parser, n: nat): Stream
    requires r.Running?
  {
    Running(p.(headerLength := r.p.headerLength + n), r.delivered, r.seen + n)
  }

  // Collected bytes and the one that ends them.
  lemma FeedField(side: Side, c: Config, v: Verdict, r: Stream, s: string, ch: char, q: Parser)
    requires r.Running? && (forall x :: x in s ==> Plain(side, r.p, x))
      && r.p.headerLength + |s| + 1 < c.maxHeaderLength
    requires Step(side, c, Collect(r.p, s).(headerLength := r.p.headerLength + |s|), ch)
      == More(q.(headerLength := r.p.headerLength + |s| + 1))
    ensures FeedAll(side, c, v, r, s + [ch]) == On(r, q, |s| + 1)
  {
    hide Plain, Collect, Step, FeedAll;
    Then(side, c, v, r, s, [ch]);
    FeedPlain(side, c, v, r, s);
    One(side, c, v, FeedAll(side, c, v, r, s), ch);
  }

  lemma MethodFed(c: Config, v: Verdict, r: Stream, id: MethodId)
    requires r.Running? && r.p.state.InMethod? && r.p.field1 == "" && id != Unknown
    requires r.p.headerLength + |FindMethodName(id)| + 1 < c.maxHeaderLength
    ensures FeedAll(Request, c, v, r, FindMethodName(id) + " ") ==
      On(r, r.p.(state := InUri, message := r.p.message.(method_ := id)), |FindMethodName(id)| + 1)
  {
    MethodNames(id);
    hide FindMethodId, FindMethodName, FeedAll;
    var name := FindMethodName(id);
    assert "" + name == name;
    FeedField(Request, c, v, r, name, ' ', r.p.(state := InUri, message := r.p.message.(method_ := id)));
  }

  lemma UriFed(c: Config, v: Verdict, r: Stream, uri: string)
    requires r.Running? && r.p.state.InUri? && ' ' !in uri && r.p.message.uri == ""
    requires r.p.headerLength + |uri| + 1 < c.maxHeaderLength
    ensures FeedAll(Request, c, v, r, uri + " ") ==
      On(r, r.p.(state := InVersion, message := r.p.message.(uri := uri)), |uri| + 1)
  {
    hide FeedAll;
    assert "" + uri == uri;
    FeedField(Request, c, v, r, uri, ' ', r.p.(state := InVersion, message := r.p.message.(uri := uri)));
  }

  lemma VersionFed(c: Config, v: Verdict, r: Stream, id: VersionId)
    requires r.Running? && r.p.state.InVersion? && r.p.line.Normal? && r.p.field1 == "" && id != NoVersion
    requires r.p.headerLength + |FindVersionName(id)| + 2 < c.maxHeaderLength
    ensures FeedAll(Request, c, v, r, FindVersionName(id) + "\r\n") ==
      On(r, r.p.(line := CRLF, message := r.p.message.(version := id)), |FindVersionName(id)| + 2)
  {
    hide FindVersionName, FeedAll, FindVersionId, Deliver, MethodByte;
    VersionNames(id);
    var name := FindVersionName(id);
    assert "" + name == name;
    var q := r.p.(line := CR, message := r.p.message.(version := id));
    FeedField(Request, c, v, r, name, '\r', q);
    var r1 := On(r, q, |name| + 1);
    assert name + "\r\n" == (name + ['\r']) + "\n";
    Then(Request, c, v, r, name + ['\r'], "\n");
    One(Request, c, v, r1, '\n');
  }

  lemma PrintedUri(m: Message)
    requires ' ' !in m.uri
    ensures ' ' !in UriSent(m)
  {
    var s, uri := UriSent(m), UriOf(m);
    assert forall i :: 0 <= i < |s| ==> s[i] == uri[i] && uri[i] in uri;
  }

  // A uri arrives whole exactly if there is no NUL in it.
  lemma UriSurvives(m: Message, hs: Lines)
    ensures Received(m, hs).uri == UriOf(m) <==> 0 as char !in m.uri
  {
    PrintedWhole(UriOf(m));
  }

  lemma {:induction false} PrintedWhole(s: string)
    ensures Printed(s) == s <==> 0 as char !in s
  {
    if s != "" && s[0] != 0 as char {
      PrintedWhole(s[1..]);
      assert s == [s[0]] + s[1..];
    }
  }

  lemma StartLineFed(c: Config, v: Verdict, r: Stream, m: Message)
    requires r.Running? && r.p == NewParser(Request)
    requires m.method_ != Unknown && m.version != NoVersion && ' ' !in m.uri && |StartLine(m)| < c.maxHeaderLength
    ensures FeedAll(Request, c, v, r, StartLine(m)) ==
      On(r, NewParser(Request).(state := InVersion, line := CRLF,
        message := NewMessage().(method_ := m.method_, uri := UriSent(m), version := m.version)), |StartLine(m)|)
  {
    hide FeedAll, FindMethodName, FindVersionName, UriSent;
    PrintedUri(m);
    var s1, s2, s3 := FindMethodName(m.method_) + " ", UriSent(m) + " ", FindVersionName(m.version) + "\r\n";
    assert StartLine(m) == (s1 + s2) + s3;
    Then(Request, c, v, r, s1 + s2, s3);
    Then(Request, c, v, r, s1, s2);
    MethodFed(c, v, r, m.method_);
    var p1 := r.p.(state := InUri, message := r.p.message.(method_ := m.method_));
    var r1 := On(r, p1, |s1|);
    UriFed(c, v, r1, UriSent(m));
    var p2 := p1.(state := InVersion, message := p1.message.(uri := UriSent(m)));
    var r2 := On(r, p2, |s1| + |s2|);
    VersionFed(c, v, r2, m.version);
  }

  // ---------- header lines ----------

  // Behind the end of the start line or of a header line.
  predicate AtLineStart(side: Side, p: Parser) {
    && p.line.CRLF? && p.field2 == ""
    && ((if side.Request? then p.state.InVersion? else p.state.InReasonPhrase?)
         || (p.state.InHeaderValue? && p.field1 == ""))
  }

  function WithHeader(p: Parser, name: string, value: string): Parser {
    p.(state := InHeaderValue, field1 := "",
      message := p.message.(headers := Emplace(p.message.headers, name, " " + value)))
  }

  // The first byte of a header line, and its name up to the colon.
  lemma FirstFed(side: Side, c: Config, v: Verdict, r: Stream, ch: char)
    requires r.Running? && AtLineStart(side, r.p) && ch != '\r' && r.p.headerLength + 1 < c.maxHeaderLength
    ensures Feed(side, c, v, r, ch) == On(r, r.p.(state := InHeaderField, line := Normal, field1 := [ch]), 1)
  {
    assert "" + [ch] == [ch];
  }

  lemma RestFed(side: Side, c: Config, v: Verdict, r: Stream, rest: string)
    requires r.Running? && r.p.state.InHeaderField? && r.p.field2 == "" && ':' !in rest
    requires r.p.headerLength + |rest| + 1 < c.maxHeaderLength
    ensures FeedAll(side, c, v, r, rest + [':']) ==
      On(r, r.p.(state := InHeaderValue, field1 := r.p.field1 + rest), |rest| + 1)
  {
    hide FeedAll;
    FeedField(side, c, v, r, rest, ':', r.p.(state := InHeaderValue, field1 := r.p.field1 + rest));
  }

  lemma NameFed(side: Side, c: Config, v: Verdict, r: Stream, name: string)
    requires r.Running? && AtLineStart(side, r.p) && NameOk(name) && r.p.headerLength + |name| + 1 < c.maxHeaderLength
    ensures FeedAll(side, c, v, r, name + ":") ==
      On(r, r.p.(state := InHeaderValue, line := Normal, field1 := name), |name| + 1)
  {
    var first, rest := [name[0]], name[1..];
    assert first + rest == name && name + ":" == first + (rest + [':']) && ':' !in rest;
    FirstFed(side, c, v, r, name[0]);
    hide Feed, FeedAll, NameOk;
    One(side, c, v, r, name[0]);
    Then(side, c, v, r, first, rest + [':']);
    var p1 := r.p.(state := InHeaderField, line := Normal, field1 := first);
    RestFed(side, c, v, On(r, p1, 1), rest);
  }

  lemma ValueFed(side: Side, c: Config, v: Verdict, r: Stream, value: string)
    requires r.Running? && r.p.state.InHeaderValue? && r.p.line.Normal? && r.p.field2 == ""
    requires '\r' !in value && r.p.headerLength + |value| + 2 < c.maxHeaderLength
    ensures FeedAll(side, c, v, r, value + "\r\n") ==
      On(r, r.p.(line := CRLF, field1 := "",
        message := r.p.message.(headers := Emplace(r.p.message.headers, r.p.field1, value))), |value| + 2)
  {
    hide FeedAll, Emplace;
    assert "" + value == value;
    var q := r.p.(line := CR, field1 := "",
      message := r.p.message.(headers := Emplace(r.p.message.headers, r.p.field1, value)));
    FeedField(side, c, v, r, value, '\r', q);
    assert value + "\r\n" == (value + ['\r']) + "\n";
    Then(side, c, v, r, value + ['\r'], "\n");
    One(side, c, v, On(r, q, |value| + 1), '\n');
  }

  lemma HeaderFed(side: Side, c: Config, v: Verdict, r: Stream, name: string, value: string)
    requires r.Running? && AtLineStart(side, r.p) && NameOk(name) && '\r' !in value
    requires r.p.headerLength + |HeaderLine(name, value)| < c.maxHeaderLength
    ensures FeedAll(side, c, v, r, HeaderLine(name, value)) ==
      On(r, WithHeader(r.p, name, value), |HeaderLine(name, value)|)
    ensures AtLineStart(side, WithHeader(r.p, name, value))
  {
    hide FeedAll, NameOk, Emplace;
    assert HeaderLine(name, value) == (name + ":") + ((" " + value) + "\r\n");
    Then(side, c, v, r, name + ":", (" " + value) + "\r\n");
    NameFed(side, c, v, r, name);
    var p1 := r.p.(state := InHeaderValue, line := Normal, field1 := name);
    ValueFed(side, c, v, On(r, p1, |name| + 1), " " + value);
  }

  function WithHeaders(p: Parser, hs: Lines): Parser {
    if hs == [] then p
    else p.(state := InHeaderValue, field1 := "",
      message := p.message.(headers := ReceivedHeaders(hs, p.message.headers)))
  }

  lemma WithHeadersStep(p: Parser, hs: Lines)
    requires hs != []
    ensures WithHeaders(WithHeader(p, hs[0].0, hs[0].1), hs[1..]) == WithHeaders(p, hs)
  {
  }

  lemma OnWithHeaders(side: Side, r: Stream, p: Parser, n: nat, hs: Lines, k: nat)
    requires r.Running?
    ensures On(r, p, n).Running? && On(r, p, n).p.headerLength == r.p.headerLength + n
    ensures AtLineStart(side, p) <==> AtLineStart(side, On(r, p, n).p)
    ensures On(On(r, p, n), WithHeaders(On(r, p, n).p, hs), k) == On(r, WithHeaders(p, hs), n + k)
    ensures AtLineStart(side, WithHeaders(On(r, p, n).p, hs)) <==> AtLineStart(side, WithHeaders(p, hs))
  {
  }

  lemma {:induction false} LinesFed(side: Side, c: Config, v: Verdict, r: Stream, hs: Lines)
    requires r.Running? && AtLineStart(side, r.p) && (forall i :: 0 <= i < |hs| ==> NameOk(hs[i].0) && '\r' !in hs[i].1)
    requires r.p.headerLength + |HeaderLines(hs)| < c.maxHeaderLength
    ensures FeedAll(side, c, v, r, HeaderLines(hs)) == On(r, WithHeaders(r.p, hs), |HeaderLines(hs)|)
    ensures AtLineStart(side, WithHeaders(r.p, hs))
    decreases |hs|
  {
    hide AtLineStart, Feed, WithHeader, HeaderLine, Emplace, ReceivedHeaders;
    if hs != [] {
      hide NameOk, FeedAll, WithHeaders, On;
      var line, rest := HeaderLine(hs[0].0, hs[0].1), hs[1..];
      Then(side, c, v, r, line, HeaderLines(rest));
      HeaderFed(side, c, v, r, hs[0].0, hs[0].1);
      var p1 := WithHeader(r.p, hs[0].0, hs[0].1);
      OnWithHeaders(side, r, p1, |line|, rest, 0);
      LinesFed(side, c, v, On(r, p1, |line|), rest);
      WithHeadersStep(r.p, hs);
      OnWithHeaders(side, r, p1, |line|, rest, |HeaderLines(rest)|);
    }
  }

  // The names received are those sent; with distinct names every value is the one sent under its name.
  lemma {:induction false} ReceivedNames(hs: Lines, before: map<string, string>, name: string)
    ensures name in ReceivedHeaders(hs, before) <==> name in before || exists i :: 0 <= i < |hs| && hs[i].0 == name
    decreases |hs|
  {
    if hs != [] {
      ReceivedNames(hs[1..], Emplace(before, hs[0].0, " " + hs[0].1), name);
      assert forall i :: 0 <= i < |hs| - 1 ==> hs[1..][i] == hs[i + 1];
      assert (exists i :: 0 <= i < |hs| && hs[i].0 == name)
        <==> hs[0].0 == name || exists i :: 0 <= i < |hs[1..]| && hs[1..][i].0 == name by {
        if i :| 0 <= i < |hs| && hs[i].0 == name {
          assert i > 0 ==> hs[1..][i - 1].0 == name;
        }
      }
    }
  }

  lemma {:induction false} ReceivedValues(hs: Lines, before: map<string, string>, name: string)
    ensures name in before ==> name in ReceivedHeaders(hs, before) && ReceivedHeaders(hs, before)[name] == before[name]
    decreases |hs|
  {
    if hs != [] {
      ReceivedValues(hs[1..], Emplace(before, hs[0].0, " " + hs[0].1), name);
    }
  }

  lemma {:induction false} ReceivedIsSent(hs: Lines, before: map<string, string>, i: nat)
    requires i < |hs| && hs[i].0 !in before && forall j :: 0 <= j < i ==> hs[j].0 != hs[i].0
    ensures hs[i].0 in ReceivedHeaders(hs, before) && ReceivedHeaders(hs, before)[hs[i].0] == " " + hs[i].1
    decreases i
  {
    var after := Emplace(before, hs[0].0, " " + hs[0].1);
    if i == 0 {
      ReceivedValues(hs[1..], after, hs[0].0);
    } else {
      ReceivedIsSent(hs[1..], after, i - 1);
    }
  }

  // ---------- the end of the headers and the body ----------

  lemma LengthReadsBack(n: nat)
    ensures Atoi(" " + Decimal(n)) == n
  {
    var s := Decimal(n);
    assert (" " + s)[1..] == s && IsSpace((" " + s)[0]);
    assert IsDigit(s[0]);
    assert Atoi(s) == Signed(s) == Digits(s, 0);
    DecimalReadsBack(n, "");
    assert s + "" == s;
  }

  // The blank line: the message is complete if no length was announced.
  lemma EndFed(side: Side, c: Config, v: Verdict, r: Stream)
    requires r.Running? && AtLineStart(side, r.p) && r.p.headerLength + 2 < c.maxHeaderLength
    requires "Content-Length" !in r.p.message.headers && r.p.message.contentLength == 0
    ensures FeedAll(side, c, v, r, "\r\n") == Deliver(side, v, r.delivered + [r.p.message], r.seen + 1)
  {
    hide FeedAll, Deliver;
    assert "\r\n" == "\r" + "\n";
    Then(side, c, v, r, "\r", "\n");
    One(side, c, v, r, '\r');
    var r1 := On(r, r.p.(line := CRLFCR), 1);
    assert Feed(side, c, v, r, '\r') == r1;
    One(side, c, v, r1, '\n');
  }

  lemma BodyAnnounced(side: Side, c: Config, v: Verdict, r: Stream, n: nat)
    requires r.Running? && AtLineStart(side, r.p) && r.p.state.InHeaderValue?
      && r.p.headerLength + 2 < c.maxHeaderLength
    requires "Content-Length" in r.p.message.headers && r.p.message.headers["Content-Length"] == " " + Decimal(n)
    requires 0 < n <= c.maxBodyLength
    ensures FeedAll(side, c, v, r, "\r\n") ==
      On(r, r.p.(state := InBody, line := Normal, message := r.p.message.(contentLength := n)), 2)
  {
    LengthReadsBack(n);
    hide Atoi, Decimal;
    assert "\r\n" == "\r" + "\n";
    Then(side, c, v, r, "\r", "\n");
    One(side, c, v, r, '\r');
    var r1 := On(r, r.p.(line := CRLFCR), 1);
    assert Feed(side, c, v, r, '\r') == r1;
    One(side, c, v, r1, '\n');
  }

  // ---------- the round trip ----------

  lemma NoLengthReceived(hs: Lines)
    requires LinesOk(hs)
    ensures "Content-Length" !in ReceivedHeaders(hs, map[])
  {
    ReceivedNames(hs, map[], "Content-Length");
  }

  // After the start line and the header lines.
  function HeadParser(m: Message, hs: Lines): Parser {
    var start := NewMessage().(method_ := m.method_, uri := UriSent(m), version := m.version);
    WithHeaders(NewParser(Request).(state := InVersion, line := CRLF, message := start), hs)
  }

  lemma HeadParserIs(m: Message, hs: Lines)
    ensures AtLineStart(Request, HeadParser(m, hs))
    ensures HeadParser(m, hs).message ==
      NewMessage().(method_ := m.method_, uri := UriSent(m), version := m.version,
        headers := ReceivedHeaders(hs, map[]))
  {
  }

  lemma HeadFed(c: Config, v: Verdict, r: Stream, m: Message, hs: Lines)
    requires r.Running? && r.p == NewParser(Request) && Encodable(m, hs)
    requires |StartLine(m)| + |HeaderLines(hs)| < c.maxHeaderLength
    ensures FeedAll(Request, c, v, r, StartLine(m) + HeaderLines(hs)) ==
      On(r, HeadParser(m, hs), |StartLine(m)| + |HeaderLines(hs)|)
  {
    var start := NewMessage().(method_ := m.method_, uri := UriSent(m), version := m.version);
    var p := NewParser(Request).(state := InVersion, line := CRLF, message := start);
    hide FeedAll, StartLine, HeaderLines, NameOk;
    Then(Request, c, v, r, StartLine(m), HeaderLines(hs));
    StartLineFed(c, v, r, m);
    LinesFed(Request, c, v, On(r, p, |StartLine(m)|), hs);
    OnWithHeaders(Request, r, p, |StartLine(m)|, hs, |HeaderLines(hs)|);
  }

  lemma RoundTripWithoutBody(c: Config, v: Verdict, r: Stream, m: Message, hs: Lines)
    requires r.Running? && r.p == NewParser(Request) && Encodable(m, hs) && m.body == ""
    requires |EncodedHeaders(m, hs)| < c.maxHeaderLength
    ensures FeedAll(Request, c, v, r, Encoded(m, hs)) ==
      Deliver(Request, v, r.delivered + [Received(m, hs)], r.seen + |Encoded(m, hs)| - 1)
  {
    hide FeedAll, StartLine, HeaderLines, NameOk, Deliver, AtLineStart, HeadParser, LinesOk;
    var head := StartLine(m) + HeaderLines(hs);
    assert Encoded(m, hs) == head + "\r\n";
    Then(Request, c, v, r, head, "\r\n");
    HeadFed(c, v, r, m, hs);
    HeadParserIs(m, hs);
    NoLengthReceived(hs);
    var r1 := On(r, HeadParser(m, hs), |head|);
    OnWithHeaders(Request, r, HeadParser(m, hs), |head|, [], 0);
    EndFed(Request, c, v, r1);
  }

  lemma LengthFed(c: Config, v: Verdict, r: Stream, m: Message, hs: Lines)
    requires r.Running? && r.p == NewParser(Request) && Encodable(m, hs) && m.body != ""
    requires |EncodedHeaders(m, hs)| < c.maxHeaderLength
    ensures var head := StartLine(m) + HeaderLines(hs) + LengthLine(|m.body|);
      FeedAll(Request, c, v, r, head) == On(r, WithHeader(HeadParser(m, hs), "Content-Length", Decimal(|m.body|)),
        |head|)
  {
    hide FeedAll, StartLine, HeaderLines, AtLineStart, HeadParser, LinesOk, Decimal, HeaderLine;
    var head, line := StartLine(m) + HeaderLines(hs), HeaderLine("Content-Length", Decimal(|m.body|));
    Then(Request, c, v, r, head, line);
    HeadFed(c, v, r, m, hs);
    HeadParserIs(m, hs);
    var p := HeadParser(m, hs);
    OnWithHeaders(Request, r, p, |head|, [], 0);
    DecimalPlain(|m.body|);
    HeaderFed(Request, c, v, On(r, p, |head|), "Content-Length", Decimal(|m.body|));
  }

  lemma DecimalPlain(n: nat)
    ensures '\r' !in Decimal(n) && NameOk("Content-Length")
  {
  }

  lemma RoundTripWithBody(c: Config, v: Verdict, r: Stream, m: Message, hs: Lines)
    requires r.Running? && r.p == NewParser(Request) && Encodable(m, hs) && 0 < |m.body| <= c.maxBodyLength
    requires |EncodedHeaders(m, hs)| < c.maxHeaderLength
    ensures FeedAll(Request, c, v, r, Encoded(m, hs)) ==
      Deliver(Request, v, r.delivered + [Received(m, hs)], r.seen + |Encoded(m, hs)| - 1)
  {
    hide FeedAll, StartLine, HeaderLines, NameOk, Deliver, HeadParser, LinesOk, Decimal, LengthLine;
    var head := StartLine(m) + HeaderLines(hs) + LengthLine(|m.body|);
    assert Encoded(m, hs) == head + ("\r\n" + m.body);
    Then(Request, c, v, r, head, "\r\n" + m.body);
    LengthFed(c, v, r, m, hs);
    HeadParserIs(m, hs);
    NoLengthReceived(hs);
    var p := WithHeader(HeadParser(m, hs), "Content-Length", Decimal(|m.body|));
    var r1 := On(r, p, |head|);
    Then(Request, c, v, r1, "\r\n", m.body);
    BodyAnnounced(Request, c, v, r1, |m.body|);
    var r2 := On(r1, p.(state := InBody, line := Normal, message := p.message.(contentLength := |m.body|)), 2);
    assert "" + m.body == m.body;
    FeedBodyEnd(Request, c, v, r2, m.body);
  }

  // The message that arrives is the one that was encoded, with a blank before each value and the length of
  // the body added; its uri is whole exactly if there is no NUL in it.
  ghost predicate Arrived(m: Message, hs: Lines, got: Message) {
    && got.method_ == m.method_ && got.version == m.version && got.body == m.body
    && (got.uri == UriOf(m) <==> 0 as char !in m.uri)
    && (forall i :: 0 <= i < |hs| ==> hs[i].0 in got.headers && got.headers[hs[i].0] == " " + hs[i].1)
    && (forall name :: name in got.headers ==>
      (exists i :: 0 <= i < |hs| && hs[i].0 == name) || (name == "Content-Length" && m.body != ""))
  }

  lemma ReceivedArrived(m: Message, hs: Lines)
    requires LinesOk(hs)
    ensures Arrived(m, hs, Received(m, hs))
  {
    UriSurvives(m, hs);
    hide Decimal, ReceivedHeaders, NameOk, UriSent, UriOf;
    forall i | 0 <= i < |hs|
      ensures hs[i].0 in Received(m, hs).headers && Received(m, hs).headers[hs[i].0] == " " + hs[i].1
    {
      ReceivedIsSent(hs, map[], i);
    }
    forall name | name in Received(m, hs).headers && !(name == "Content-Length" && m.body != "")
      ensures exists i :: 0 <= i < |hs| && hs[i].0 == name
    {
      ReceivedNames(hs, map[], name);
    }
  }

  // An encoded request is decoded as one message, with no byte left over.
  lemma RoundTrip(c: Config, v: Verdict, delivered: seq<Message>, m: Message, hs: Lines)
    requires Encodable(m, hs) && |EncodedHeaders(m, hs)| < c.maxHeaderLength && |m.body| <= c.maxBodyLength
    ensures FeedAll(Request, c, v, Running(NewParser(Request), delivered, 0), Encoded(m, hs)) ==
      Deliver(Request, v, delivered + [Received(m, hs)], |Encoded(m, hs)| - 1)
    ensures Arrived(m, hs, Received(m, hs))
  {
    var r := Running(NewParser(Request), delivered, 0);
    ReceivedArrived(m, hs);
    hide FeedAll, Deliver, Encoded, EncodedHeaders, Received, Arrived;
    if m.body == "" {
      RoundTripWithoutBody(c, v, r, m, hs);
    } else {
      RoundTripWithBody(c, v, r, m, hs);
    }
  }
}
