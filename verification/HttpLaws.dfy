/** What holds of the stream of either decoder for all bytes: which bytes make up a delivered message, within
    the limits, and exactly which bytes break the stream. */
module HttpLaws {
  import opened Basics
  import opened DecimalDigits
  import opened Http
  import opened HttpRoundTrip
  import opened HttpResponseRoundTrip

  // The length that the headers announce.
  function Said(headers: map<string, string>): int {
    if "Content-Length" in headers then Atoi(headers["Content-Length"]) else 0
  }

  predicate InHeaders(p: Parser) { p.state.InHeaderField? || p.state.InHeaderValue? }

  // ---------- the bytes of a message ----------

  // The parser has taken the bytes s of a message: its header has fewer bytes than the limit, and behind it come
  // those of the body, of which some are missing and which are not more than the limit.
  ghost predicate Taken(c: Config, s: string, p: Parser) {
    var m := p.message;
    if p.state.InBody? then
      && 0 < p.headerLength <= |s| && p.headerLength < c.maxHeaderLength && m.body == s[p.headerLength..]
      && |m.body| < m.contentLength <= c.maxBodyLength && m.contentLength == Said(m.headers)
    else
      && p.headerLength == |s| && (s != "" ==> |s| < c.maxHeaderLength) && m.contentLength == 0 && m.body == ""
      && (!InHeaders(p) ==> m.headers == map[])
  }

  // The bytes s are the header and the body of the message.
  ghost predicate Whole(c: Config, s: string, m: Message) {
    exists h :: 0 < h <= |s| && h < c.maxHeaderLength && m.body == s[h..]
      && |m.body| == m.contentLength == Said(m.headers) <= c.maxBodyLength
  }

  lemma StepTaken(side: Side, c: Config, s: string, p: Parser, ch: char)
    requires Taken(c, s, p)
    ensures match Step(side, c, p, ch)
      case Error => true
      case More(q) => Taken(c, s + [ch], q)
      case Complete(q) => Whole(c, s + [ch], q.message)
  {
    hide Atoi, FindMethodId, FindVersionId;
    var s1 := s + [ch];
    if p.state.InBody? {
      assert s1[p.headerLength..] == s[p.headerLength..] + [ch];
    } else {
      assert s1[|s1|..] == "";
    }
  }

  // The bytes s are those of the messages ds, one after the other.
  ghost predicate Messages(c: Config, s: string, ds: seq<Message>)
    decreases |ds|
  {
    if ds == [] then s == ""
    else exists k :: 0 <= k <= |s| && Messages(c, s[..k], ds[..|ds| - 1]) && Whole(c, s[k..], ds[|ds| - 1])
  }

  lemma OneMessageMore(c: Config, s: string, k: nat, ds: seq<Message>, m: Message)
    requires k <= |s| && Messages(c, s[..k], ds) && Whole(c, s[k..], m)
    ensures Messages(c, s, ds + [m])
  {
    hide Whole;
    assert (ds + [m])[..|ds + [m]| - 1] == ds;
  }

  // What a stream has made of its bytes: whole messages from the first byte on and, while it runs, the beginning of
  // another one.
  ghost predicate Account(c: Config, s: string, r: Stream, k: nat) {
    && k <= |s| && Messages(c, s[..k], r.delivered)
    && if r.Running? then r.seen == |s| && Taken(c, s[k..], r.p) else r.seen < |s| && k <= r.seen + 1
  }

  lemma AccountStep(side: Side, c: Config, v: Verdict, s: string, r: Stream, k: nat, ch: char)
    requires Account(c, s, r, k)
    ensures exists k1: nat :: Account(c, s + [ch], Feed(side, c, v, r, ch), k1)
  {
    var s1, r1 := s + [ch], Feed(side, c, v, r, ch);
    hide Messages, Taken, Whole, Step;
    assert s1[..k] == s[..k] && s1[k..] == s[k..] + [ch] && s1[..|s1|] == s1 && s1[|s1|..] == "";
    if r.Broken? {
      assert Account(c, s1, r1, k);
    } else {
      StepTaken(side, c, s[k..], r.p, ch);
      match Step(side, c, r.p, ch)
      case Error => assert Account(c, s1, r1, k);
      case More(_) => assert Account(c, s1, r1, k);
      case Complete(q) =>
        OneMessageMore(c, s1, k, r.delivered, q.message);
        NewTaken(side, c);
        assert Account(c, s1, r1, |s1|);
    }
  }

  lemma NewTaken(side: Side, c: Config)
    ensures Taken(c, "", NewParser(side))
  {
  }

  // From a new parser on, whatever the bytes are.
  lemma {:induction false} Accounted(side: Side, c: Config, v: Verdict, s: string)
    ensures exists k: nat :: Account(c, s, FeedAll(side, c, v, Running(NewParser(side), [], 0), s), k)
    decreases |s|
  {
    var r := Running(NewParser(side), [], 0);
    hide Taken, Feed;
    if s == "" {
      NewTaken(side, c);
      assert s[..0] == "" && s[0..] == "" && FeedAll(side, c, v, r, s) == r;
      assert Account(c, s, r, 0);
    } else {
      var t, ch := s[..|s| - 1], s[|s| - 1];
      assert t + [ch] == s && s[..|t|] == t && s[..|t| + 1] == s;
      Accounted(side, c, v, t);
      FeedPrefix(side, c, v, r, s, |t|);
      hide Account, FeedAll;
      var k: nat :| Account(c, t, FeedAll(side, c, v, r, t), k);
      AccountStep(side, c, v, t, FeedAll(side, c, v, r, t), k, ch);
    }
  }

  // Every message that is delivered has a body of the announced length, which is not more than the limit.
  lemma {:induction false} MessagesFit(c: Config, s: string, ds: seq<Message>, i: nat)
    requires Messages(c, s, ds) && i < |ds|
    ensures |ds[i].body| == ds[i].contentLength == Said(ds[i].headers) <= c.maxBodyLength
    decreases |ds|
  {
    hide Said;
    var k :| 0 <= k <= |s| && Messages(c, s[..k], ds[..|ds| - 1]) && Whole(c, s[k..], ds[|ds| - 1]);
    if i < |ds| - 1 {
      MessagesFit(c, s[..k], ds[..|ds| - 1], i);
    }
  }

  lemma DeliveredFit(side: Side, c: Config, v: Verdict, s: string, m: Message)
    requires m in FeedAll(side, c, v, Running(NewParser(side), [], 0), s).delivered
    ensures |m.body| == m.contentLength == Said(m.headers) <= c.maxBodyLength
  {
    var r := FeedAll(side, c, v, Running(NewParser(side), [], 0), s);
    Accounted(side, c, v, s);
    hide FeedAll, Messages, Said;
    var k: nat :| Account(c, s, r, k);
    var i :| 0 <= i < |r.delivered| && r.delivered[i] == m;
    MessagesFit(c, s[..k], r.delivered, i);
  }

  // ---------- the blank line behind the headers ----------

  // At the LF of the blank line: headers that announce more than the limit, or a negative length, break the stream and
  // nothing is delivered; those that announce nothing complete the message; otherwise the body follows.
  ghost predicate Decided(side: Side, c: Config, v: Verdict, r: Stream, r1: Stream)
    requires r.Running?
  {
    var n, ds := Said(r.p.message.headers), r.delivered + [r.p.message];
    if n < 0 || n > c.maxBodyLength then r1 == Broken(r.delivered, r.seen)
    else if n > 0 then
      r1 == Running(r.p.(state := InBody, line := Normal, headerLength := r.p.headerLength + 1,
        message := r.p.message.(contentLength := n)), r.delivered, r.seen + 1)
    else if v(ds) < 0 then r1 == Broken(ds, r.seen)
    else r1 == Running(NewParser(side), ds, r.seen + 1)
  }

  lemma BlankLine(side: Side, c: Config, v: Verdict, r: Stream)
    requires r.Running? && r.p.state.InHeaderValue? && r.p.line.CRLFCR? && r.p.message.contentLength == 0
    requires r.p.headerLength + 1 < c.maxHeaderLength
    ensures Decided(side, c, v, r, Feed(side, c, v, r, '\n'))
  {
    hide Atoi;
  }

  // Whatever lines the headers have, of each name the first.
  lemma HeadersDecide(side: Side, c: Config, v: Verdict, r: Stream, hs: Lines)
    requires r.Running? && AtLineStart(side, r.p) && r.p.message.headers == map[] && r.p.message.contentLength == 0
    requires hs != [] && forall i :: 0 <= i < |hs| ==> NameOk(hs[i].0) && '\r' !in hs[i].1
    requires r.p.headerLength + |HeaderLines(hs)| + 2 < c.maxHeaderLength
    ensures Decided(side, c, v, On(r, WithHeaders(r.p, hs).(line := CRLFCR), |HeaderLines(hs)| + 1),
      FeedAll(side, c, v, r, HeaderLines(hs) + "\r\n"))
  {
    hide FeedAll, Decided, NameOk, ReceivedHeaders, HeaderLines;
    var r1 := On(r, WithHeaders(r.p, hs), |HeaderLines(hs)|);
    var r2 := On(r, WithHeaders(r.p, hs).(line := CRLFCR), |HeaderLines(hs)| + 1);
    LinesFed(side, c, v, r, hs);
    Then(side, c, v, r, HeaderLines(hs), "\r\n");
    assert "\r\n" == "\r" + "\n";
    Then(side, c, v, r1, "\r", "\n");
    One(side, c, v, r1, '\r');
    assert Feed(side, c, v, r1, '\r') == r2;
    One(side, c, v, r2, '\n');
    BlankLine(side, c, v, r2);
  }

  // From a new parser, on either side: once the headers have announced too much, or a negative length, nothing is
  // delivered, whatever bytes follow.
  lemma RefusedRequest(c: Config, v: Verdict, m: Message, hs: Lines, more: string)
    requires m.method_ != Unknown && m.version != NoVersion && ' ' !in m.uri
    requires hs != [] && forall i :: 0 <= i < |hs| ==> NameOk(hs[i].0) && '\r' !in hs[i].1
    requires |StartLine(m) + HeaderLines(hs)| + 2 < c.maxHeaderLength
    requires var n := Said(ReceivedHeaders(hs, map[])); n < 0 || n > c.maxBodyLength
    ensures FeedAll(Request, c, v, Running(NewParser(Request), [], 0), StartLine(m) + (HeaderLines(hs) + "\r\n") + more)
      == Broken([], |StartLine(m) + HeaderLines(hs)| + 1)
  {
    hide FeedAll, StartLine, HeaderLines, NameOk, UriSent, ReceivedHeaders, Said;
    var r := Running(NewParser(Request), [], 0);
    Then(Request, c, v, r, StartLine(m) + (HeaderLines(hs) + "\r\n"), more);
    Then(Request, c, v, r, StartLine(m), HeaderLines(hs) + "\r\n");
    StartLineFed(c, v, r, m);
    var r1 := FeedAll(Request, c, v, r, StartLine(m));
    HeadersDecide(Request, c, v, r1, hs);
    FeedBroken(Request, c, v, Broken([], |StartLine(m) + HeaderLines(hs)| + 1), more);
  }

  lemma RefusedResponse(c: Config, v: Verdict, m: Message, reason: string, hs: Lines, more: string)
    requires m.status >= 0 && m.version != NoVersion && '\r' !in reason
    requires hs != [] && forall i :: 0 <= i < |hs| ==> NameOk(hs[i].0) && '\r' !in hs[i].1
    requires |StatusLine(m, reason) + HeaderLines(hs)| + 2 < c.maxHeaderLength
    requires var n := Said(ReceivedHeaders(hs, map[])); n < 0 || n > c.maxBodyLength
    ensures FeedAll(Response, c, v, Running(NewParser(Response), [], 0),
        StatusLine(m, reason) + (HeaderLines(hs) + "\r\n") + more)
      == Broken([], |StatusLine(m, reason) + HeaderLines(hs)| + 1)
  {
    hide FeedAll, StatusLine, HeaderLines, NameOk, ReceivedHeaders, Said, Decimal, AtLineStart;
    var r := Running(NewParser(Response), [], 0);
    Then(Response, c, v, r, StatusLine(m, reason) + (HeaderLines(hs) + "\r\n"), more);
    Then(Response, c, v, r, StatusLine(m, reason), HeaderLines(hs) + "\r\n");
    StatusLineFed(c, v, r, m, reason);
    var r1 := FeedAll(Response, c, v, r, StatusLine(m, reason));
    OnWithHeaders(Response, r, StatusParser(m, reason), |StatusLine(m, reason)|, [], 0);
    HeadersDecide(Response, c, v, r1, hs);
    FeedBroken(Response, c, v, Broken([], |StatusLine(m, reason) + HeaderLines(hs)| + 1), more);
  }

  // The first line that gives a length counts.
  lemma AnnouncedLength(hs: Lines, i: nat, n: nat)
    requires i < |hs| && hs[i].0 == "Content-Length" && forall j :: 0 <= j < i ==> hs[j].0 != "Content-Length"
    ensures hs[i].1 == Decimal(n) ==> Said(ReceivedHeaders(hs, map[])) == n
    ensures hs[i].1 == "-" + Decimal(n) ==> Said(ReceivedHeaders(hs, map[])) + n == 0
  {
    ReceivedIsSent(hs, map[], i);
    AtoiReads(" ", "", n, "");
    AtoiReads(" ", "-", n, "");
    assert "" + (Decimal(n) + "") == Decimal(n) == Decimal(n) + "";
    hide Decimal, Atoi, ReceivedHeaders;
  }

  // ---------- atoi ----------

  // Blanks of any of the six kinds, a sign perhaps, and the digits of a number, whatever follows them.
  lemma {:induction false} AtoiReads(blanks: string, sign: string, n: nat, rest: string)
    requires forall i :: 0 <= i < |blanks| ==> blanks[i] == ' ' || 9 <= blanks[i] as int <= 13
    requires sign in {"", "+", "-"} && (rest == "" || !IsDigit(rest[0]))
    ensures Atoi(blanks + (sign + (Decimal(n) + rest))) == if sign == "-" then 0 - n else n
    decreases |blanks|
  {
    var digits := Decimal(n) + rest;
    var s := sign + digits;
    if blanks == "" {
      assert blanks + s == s && !IsSpace(s[0]) && digits[0] == Decimal(n)[0] && IsDigit(digits[0]);
      assert sign == "" ==> s == digits;
      assert sign != "" ==> s[0] == sign[0] && s[1..] == digits;
      DecimalReadsBack(n, rest);
      hide Decimal, Digits;
    } else {
      AtoiReads(blanks[1..], sign, n, rest);
      assert (blanks + s)[0] == blanks[0] && (blanks + s)[1..] == blanks[1..] + s;
    }
  }

  // Without digits it is 0.
  lemma {:induction false} AtoiNothing(blanks: string, rest: string)
    requires forall i :: 0 <= i < |blanks| ==> blanks[i] == ' ' || 9 <= blanks[i] as int <= 13
    requires rest == "" || (!IsDigit(rest[0]) && rest[0] !in "+- \t\n\r" && !(11 <= rest[0] as int <= 12))
    ensures Atoi(blanks + rest) == 0
    decreases |blanks|
  {
    if blanks == "" {
      assert blanks + rest == rest;
      assert rest != "" ==> !IsSpace(rest[0]) && rest[0] != '+' && rest[0] != '-';
      assert Digits(rest, 0) == 0;
    } else {
      AtoiNothing(blanks[1..], rest);
      assert (blanks + rest)[0] == blanks[0] && (blanks + rest)[1..] == blanks[1..] + rest;
    }
  }

  // ---------- texts ----------

  lemma Regroup(a: string, b: string, c: string, d: string, e: string, f: string)
    ensures a + b + c + d + e + f == a + (b + (c + (d + (e + f))))
  {
  }

  // The lines that an encoder writes.
  lemma TextOfLines(m: Message, reason: string, name: string, value: string)
    ensures StartLine(m) ==
      FindMethodName(m.method_) + (" " + (UriSent(m) + (" " + (FindVersionName(m.version) + "\r\n"))))
    ensures m.status >= 0 ==>
      StatusLine(m, reason) == FindVersionName(m.version) + (" " + (Decimal(m.status) + (" " + (reason + "\r\n"))))
    ensures HeaderLine(name, value) == name + (": " + (value + "\r\n"))
  {
    hide FindMethodName, FindVersionName, Decimal, UriSent;
    Regroup(FindMethodName(m.method_), " ", UriSent(m), " ", FindVersionName(m.version), "\r\n");
    if m.status >= 0 {
      Regroup(FindVersionName(m.version), " ", Decimal(m.status), " ", reason, "\r\n");
    }
    assert name + ": " + value + "\r\n" == name + (": " + (value + "\r\n"));
  }

  // An empty uri is sent as a slash.
  lemma EmptyUri(m: Message)
    requires m.uri == ""
    ensures UriSent(m) == "/"
  {
    assert "/"[1..] == "" && Printed("") == "";
  }

  // ---------- which bytes break a header ----------

  const METHODS := {"OPTIONS", "GET", "HEAD", "POST", "PUT", "DELETE", "TRACE", "CONNECT"}
  const VERSIONS := {"HTTP/0.9", "HTTP/1.0", "HTTP/1.1"}

  lemma MethodKnown(w: string)
    ensures FindMethodId(w) == Unknown <==> w !in METHODS
    ensures w in METHODS ==> FindMethodName(FindMethodId(w)) == w
  {
  }

  lemma VersionKnown(w: string)
    ensures FindVersionId(w) == NoVersion <==> w !in VERSIONS
    ensures w in VERSIONS ==> FindVersionName(FindVersionId(w)) == w
  {
  }

  // A request begins with one of the eight methods or breaks at the blank behind its first word.
  lemma MethodWord(c: Config, v: Verdict, r: Stream, w: string)
    requires r.Running? && r.p == NewParser(Request) && ' ' !in w && |w| + 1 < c.maxHeaderLength
    ensures var r1 := FeedAll(Request, c, v, r, w + " ");
      if w in METHODS then
        r1.Running? && r1.p.state.InUri? && FindMethodName(r1.p.message.method_) == w && r1.delivered == r.delivered
      else r1 == Broken(r.delivered, r.seen + |w|)
  {
    MethodKnown(w);
    hide FeedAll, FindMethodId, FindMethodName;
    assert "" + w == w;
    Then(Request, c, v, r, w, " ");
    FeedPlain(Request, c, v, r, w);
    One(Request, c, v, FeedAll(Request, c, v, r, w), ' ');
  }

  // Its version ends the line; that of a response ends at a blank.
  lemma VersionWord(side: Side, c: Config, v: Verdict, r: Stream, w: string, end: char)
    requires r.Running? && r.p.state.InVersion? && r.p.line.Normal? && r.p.field1 == ""
    requires end == (if side.Request? then '\r' else ' ') && end !in w && r.p.headerLength + |w| + 1 < c.maxHeaderLength
    ensures var r1 := FeedAll(side, c, v, r, w + [end]);
      if w in VERSIONS then
        && r1.Running? && FindVersionName(r1.p.message.version) == w && r1.delivered == r.delivered
        && if side.Request? then r1.p.line.CR? else r1.p.state.InStatusCode?
      else r1 == Broken(r.delivered, r.seen + |w|)
  {
    VersionKnown(w);
    hide FeedAll, FindVersionId, FindVersionName;
    assert "" + w == w;
    Then(side, c, v, r, w, [end]);
    FeedPlain(side, c, v, r, w);
    var r1 := FeedAll(side, c, v, r, w);
    One(side, c, v, r1, end);
    hide Plain;
    if side.Request? {
      assert Step(side, c, r1.p, end) == RequestVersionByte(r1.p.(headerLength := r1.p.headerLength + 1), end);
    } else {
      assert Step(side, c, r1.p, end) == ResponseVersionByte(r1.p.(headerLength := r1.p.headerLength + 1), end);
    }
  }

  predicate EndsLine(side: Side, p: Parser) {
    p.state.InHeaderValue? || if side.Request? then p.state.InVersion? else p.state.InReasonPhrase?
  }

  // Nothing but an LF may follow a CR that ends a line.
  lemma AfterCr(side: Side, c: Config, v: Verdict, r: Stream, ch: char)
    requires r.Running? && EndsLine(side, r.p) && (r.p.line.CR? || r.p.line.CRLFCR?) && ch != '\n'
    requires r.p.state.InVersion? ==> side.Request?
    ensures Feed(side, c, v, r, ch) == Broken(r.delivered, r.seen)
  {
  }

  // A header that has not ended before it breaks at the byte that would reach the limit.
  lemma TooLong(side: Side, c: Config, v: Verdict, s: string, ch: char)
    requires var r := FeedAll(side, c, v, Running(NewParser(side), [], 0), s);
      r.Running? && r.delivered == [] && !r.p.state.InBody? && |s| + 1 >= c.maxHeaderLength
    ensures FeedAll(side, c, v, Running(NewParser(side), [], 0), s + [ch]) == Broken([], |s|)
  {
    var r0 := Running(NewParser(side), [], 0);
    var r := FeedAll(side, c, v, r0, s);
    Accounted(side, c, v, s);
    Then(side, c, v, r0, s, [ch]);
    One(side, c, v, r, ch);
    hide FeedAll, Said;
    var k: nat :| Account(c, s, r, k);
    assert k == 0 && s[0..] == s;
  }

  // Nothing else breaks it, as long as no message is completed.
  lemma NothingElseBreaks(side: Side, c: Config, v: Verdict, r: Stream, ch: char)
    requires r.Running? && !r.p.state.InBody? && r.p.headerLength + 1 < c.maxHeaderLength
    requires !(side.Request? && r.p.state.InMethod? && ch == ' ' && r.p.field1 !in METHODS)
    requires !(r.p.state.InVersion? && (side.Request? ==> r.p.line.Normal?) && r.p.field1 !in VERSIONS
      && ch == if side.Request? then '\r' else ' ')
    requires r.p.line.CR? || r.p.line.CRLFCR? ==> ch == '\n'
    requires r.p.line.CRLFCR? ==> !EndsLine(side, r.p)
    ensures Feed(side, c, v, r, ch).Running? && Feed(side, c, v, r, ch).delivered == r.delivered
  {
    MethodKnown(r.p.field1);
    VersionKnown(r.p.field1);
    hide Atoi, FindMethodId, FindMethodName, FindVersionId, FindVersionName;
  }
}
