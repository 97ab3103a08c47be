/** Decoding what HttpResponse::encode writes. */
module HttpResponseRoundTrip {
  import opened DecimalDigits
  import opened Http
  import opened HttpRoundTrip

  // `reason` is what the table of status descriptions has for the status.
  function StatusLine(m: Message, reason: string): string
    requires m.status >= 0
  {
    FindVersionName(m.version) + " " + Decimal(m.status) + " " + reason + "\r\n"
  }

  // A response always announces its length.
  function ResponseLength(m: Message): nat { Max(|m.body|, m.contentLength) }

  function EncodedResponseHeaders(m: Message, reason: string, hs: Lines): string
    requires m.status >= 0
  {
    StatusLine(m, reason) + HeaderLines(hs) + HeaderLine("Content-Length", Decimal(ResponseLength(m))) + "\r\n"
  }

  function EncodedResponse(m: Message, reason: string, hs: Lines): string
    requires m.status >= 0
  {
    EncodedResponseHeaders(m, reason, hs) + m.body
  }

  ghost predicate EncodableResponse(m: Message, reason: string, hs: Lines) {
    m.status >= 0 && m.version != NoVersion && '\r' !in reason && LinesOk(hs) && m.contentLength <= |m.body|
  }

  function ReceivedResponse(m: Message, reason: string, hs: Lines): Message {
    Message(GET, "", m.version, m.status, reason,
      Emplace(ReceivedHeaders(hs, map[]), "Content-Length", " " + Decimal(|m.body|)), |m.body|, m.body)
  }

  // ---------- the status line ----------

  lemma VersionWord(id: VersionId)
    requires id != NoVersion
    ensures FindVersionId(FindVersionName(id)) == id && forall ch :: ch in FindVersionName(id) ==> ch != ' '
  {
  }

  lemma StatusWord(n: nat)
    ensures Atoi(Decimal(n)) == n && ' ' !in Decimal(n)
  {
    var s := Decimal(n);
    assert IsDigit(s[0]);
    assert Atoi(s) == Signed(s) == Digits(s, 0);
    DecimalReadsBack(n, "");
    assert s + "" == s;
  }

  lemma ResponseVersionFed(c: Config, v: Verdict, r: Stream, id: VersionId)
    requires r.Running? && r.p.state.InVersion? && r.p.field1 == "" && id != NoVersion
    requires r.p.headerLength + |FindVersionName(id)| + 1 < c.maxHeaderLength
    ensures FeedAll(Response, c, v, r, FindVersionName(id) + " ") ==
      On(r, r.p.(state := InStatusCode, message := r.p.message.(version := id)), |FindVersionName(id)| + 1)
  {
    VersionWord(id);
    hide FindVersionId, FindVersionName, FeedAll;
    var name := FindVersionName(id);
    assert "" + name == name;
    FeedField(Response, c, v, r, name, ' ', r.p.(state := InStatusCode, message := r.p.message.(version := id)));
  }

  lemma StatusFed(c: Config, v: Verdict, r: Stream, n: nat)
    requires r.Running? && r.p.state.InStatusCode? && r.p.field1 == ""
      && r.p.headerLength + |Decimal(n)| + 1 < c.maxHeaderLength
    ensures FeedAll(Response, c, v, r, Decimal(n) + " ") ==
      On(r, r.p.(state := InReasonPhrase, field1 := Decimal(n), message := r.p.message.(status := n)), |Decimal(n)| + 1)
  {
    StatusWord(n);
    hide Decimal, Atoi, FeedAll;
    assert "" + Decimal(n) == Decimal(n);
    FeedField(Response, c, v, r, Decimal(n), ' ',
      r.p.(state := InReasonPhrase, field1 := Decimal(n), message := r.p.message.(status := n)));
  }

  lemma ReasonFed(c: Config, v: Verdict, r: Stream, reason: string)
    requires r.Running? && r.p.state.InReasonPhrase? && r.p.line.Normal? && r.p.message.reason == "" && '\r' !in reason
    requires r.p.headerLength + |reason| + 2 < c.maxHeaderLength
    ensures FeedAll(Response, c, v, r, reason + "\r\n") ==
      On(r, r.p.(line := CRLF, message := r.p.message.(reason := reason)), |reason| + 2)
  {
    hide FeedAll;
    assert "" + reason == reason;
    var q := r.p.(line := CR, message := r.p.message.(reason := reason));
    FeedField(Response, c, v, r, reason, '\r', q);
    assert reason + "\r\n" == (reason + ['\r']) + "\n";
    Then(Response, c, v, r, reason + ['\r'], "\n");
    One(Response, c, v, On(r, q, |reason| + 1), '\n');
  }

  function StatusParser(m: Message, reason: string): Parser
    requires m.status >= 0
  {
    NewParser(Response).(state := InReasonPhrase, line := CRLF, field1 := Decimal(m.status),
      message := NewMessage().(version := m.version, status := m.status, reason := reason))
  }

  lemma StatusLineFed(c: Config, v: Verdict, r: Stream, m: Message, reason: string)
    requires r.Running? && r.p == NewParser(Response) && m.status >= 0 && m.version != NoVersion && '\r' !in reason
    requires |StatusLine(m, reason)| < c.maxHeaderLength
    ensures FeedAll(Response, c, v, r, StatusLine(m, reason)) == On(r, StatusParser(m, reason), |StatusLine(m, reason)|)
    ensures AtLineStart(Response, StatusParser(m, reason))
  {
    hide FeedAll, Decimal, FindVersionName;
    var s1, s2, s3 := FindVersionName(m.version) + " ", Decimal(m.status) + " ", reason + "\r\n";
    assert StatusLine(m, reason) == (s1 + s2) + s3;
    Then(Response, c, v, r, s1 + s2, s3);
    Then(Response, c, v, r, s1, s2);
    ResponseVersionFed(c, v, r, m.version);
    var p1 := r.p.(state := InStatusCode, message := r.p.message.(version := m.version));
    StatusFed(c, v, On(r, p1, |s1|), m.status);
    var p2 := p1.(state := InReasonPhrase, field1 := Decimal(m.status), message := p1.message.(status := m.status));
    ReasonFed(c, v, On(r, p2, |s1| + |s2|), reason);
  }

  // ---------- the whole response ----------

  function ResponseParser(m: Message, reason: string, hs: Lines): Parser
    requires m.status >= 0
  {
    WithHeader(WithHeaders(StatusParser(m, reason), hs), "Content-Length", Decimal(|m.body|))
  }

  lemma ResponseParserIs(m: Message, reason: string, hs: Lines)
    requires m.status >= 0 && LinesOk(hs)
    ensures var p := ResponseParser(m, reason, hs);
      && AtLineStart(Response, p) && p.state.InHeaderValue?
      && p.message == ReceivedResponse(m, reason, hs).(contentLength := 0, body := "")
      && "Content-Length" in p.message.headers && p.message.headers["Content-Length"] == " " + Decimal(|m.body|)
  {
    NoLengthReceived(hs);
    hide Decimal, LinesOk;
  }

  lemma ResponseHeadFed(c: Config, v: Verdict, r: Stream, m: Message, reason: string, hs: Lines)
    requires r.Running? && r.p == NewParser(Response) && EncodableResponse(m, reason, hs)
    requires |EncodedResponseHeaders(m, reason, hs)| < c.maxHeaderLength
    ensures var head := StatusLine(m, reason) + HeaderLines(hs) + HeaderLine("Content-Length", Decimal(|m.body|));
      FeedAll(Response, c, v, r, head) == On(r, ResponseParser(m, reason, hs), |head|)
  {
    hide FeedAll, StatusLine, HeaderLines, Decimal, HeaderLine, StatusParser, AtLineStart, WithHeaders, WithHeader;
    var s1, s2, s3 := StatusLine(m, reason), HeaderLines(hs), HeaderLine("Content-Length", Decimal(|m.body|));
    Then(Response, c, v, r, s1 + s2, s3);
    Then(Response, c, v, r, s1, s2);
    StatusLineFed(c, v, r, m, reason);
    var p := StatusParser(m, reason);
    OnWithHeaders(Response, r, p, |s1|, hs, |s2|);
    LinesFed(Response, c, v, On(r, p, |s1|), hs);
    var p1 := WithHeaders(p, hs);
    OnWithHeaders(Response, r, p1, |s1| + |s2|, [], 0);
    DecimalPlain(|m.body|);
    HeaderFed(Response, c, v, On(r, p1, |s1| + |s2|), "Content-Length", Decimal(|m.body|));
    OnWithHeader(r, p1, |s1| + |s2|, "Content-Length", Decimal(|m.body|), |s3|);
  }

  lemma OnWithHeader(r: Stream, p: Parser, n: nat, name: string, value: string, k: nat)
    requires r.Running?
    ensures On(On(r, p, n), WithHeader(On(r, p, n).p, name, value), k) == On(r, WithHeader(p, name, value), n + k)
  {
  }

  // A length of 0 was announced: the blank line completes the message.
  lemma EndOfEmpty(c: Config, v: Verdict, r: Stream)
    requires r.Running? && AtLineStart(Response, r.p) && r.p.state.InHeaderValue?
      && r.p.headerLength + 2 < c.maxHeaderLength
    requires r.p.message.contentLength == 0 && "Content-Length" in r.p.message.headers
    requires r.p.message.headers["Content-Length"] == " " + Decimal(0)
    ensures FeedAll(Response, c, v, r, "\r\n") == Deliver(Response, v, r.delivered + [r.p.message], r.seen + 1)
  {
    LengthReadsBack(0);
    hide Atoi, Decimal;
    assert "\r\n" == "\r" + "\n";
    Then(Response, c, v, r, "\r", "\n");
    One(Response, c, v, r, '\r');
    var r1 := On(r, r.p.(line := CRLFCR), 1);
    assert Feed(Response, c, v, r, '\r') == r1;
    One(Response, c, v, r1, '\n');
  }

  // An encoded response is decoded, as one message and with no byte left over, to what was encoded, with a
  // blank before each value and the length of the body added.
  lemma ResponseRoundTrip(c: Config, v: Verdict, delivered: seq<Message>, m: Message, reason: string, hs: Lines)
    requires EncodableResponse(m, reason, hs)
    requires |EncodedResponseHeaders(m, reason, hs)| < c.maxHeaderLength && |m.body| <= c.maxBodyLength
    ensures FeedAll(Response, c, v, Running(NewParser(Response), delivered, 0), EncodedResponse(m, reason, hs)) ==
      Deliver(Response, v, delivered + [ReceivedResponse(m, reason, hs)], |EncodedResponse(m, reason, hs)| - 1)
  {
    hide FeedAll, StatusLine, HeaderLines, HeaderLine, Deliver, Decimal, ResponseParser, LinesOk;
    var r := Running(NewParser(Response), delivered, 0);
    var head := StatusLine(m, reason) + HeaderLines(hs) + HeaderLine("Content-Length", Decimal(|m.body|));
    assert EncodedResponse(m, reason, hs) == head + ("\r\n" + m.body);
    Then(Response, c, v, r, head, "\r\n" + m.body);
    ResponseHeadFed(c, v, r, m, reason, hs);
    ResponseParserIs(m, reason, hs);
    var p := ResponseParser(m, reason, hs);
    OnWithHeaders(Response, r, p, |head|, [], 0);
    BlankAndBody(c, v, On(r, p, |head|), m, reason, hs);
  }

  lemma BlankAndBody(c: Config, v: Verdict, r: Stream, m: Message, reason: string, hs: Lines)
    requires r.Running? && AtLineStart(Response, r.p) && r.p.state.InHeaderValue?
      && r.p.headerLength + 2 < c.maxHeaderLength
    requires r.p.message == ReceivedResponse(m, reason, hs).(contentLength := 0, body := "")
      && |m.body| <= c.maxBodyLength
    requires "Content-Length" in r.p.message.headers && r.p.message.headers["Content-Length"] == " " + Decimal(|m.body|)
    ensures FeedAll(Response, c, v, r, "\r\n" + m.body) ==
      Deliver(Response, v, r.delivered + [ReceivedResponse(m, reason, hs)], r.seen + |m.body| + 1)
  {
    hide FeedAll, Deliver, Decimal;
    assert "" + m.body == m.body;
    if m.body == "" {
      assert "\r\n" + m.body == "\r\n";
      EndOfEmpty(c, v, r);
    } else {
      Then(Response, c, v, r, "\r\n", m.body);
      BodyAnnounced(Response, c, v, r, |m.body|);
      var r1 := On(r, r.p.(state := InBody, line := Normal, message := r.p.message.(contentLength := |m.body|)), 2);
      FeedBodyEnd(Response, c, v, r1, m.body);
    }
  }
}
