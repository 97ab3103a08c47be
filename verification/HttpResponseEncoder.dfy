/** HttpResponse::encode, writing into a byte buffer. */
module HttpResponseEncoder {
  import opened DecimalDigits
  import opened Http
  import opened HttpRoundTrip
  import opened HttpResponseRoundTrip
  import opened ByteBuffer
  import opened HttpEncoder

  const RESERVED := 1024

  // The memory behind the header lines, of a buffer of the given size, that the length line finds.
  function ResponseSpare(size: nat, owner: bool, m: Message, reason: string, hs: Lines): int
    requires m.status >= 0 && |StatusLine(m, reason)| < RESERVED
  {
    var size1 := if owner && size >= RESERVED then size else RESERVED;
    SizeAfterLines(size1, |StatusLine(m, reason)|, hs) - |StatusLine(m, reason)| - |HeaderLines(hs)|
  }

  // The status line, written over whatever the buffer held.  With a reason of the table it has at most 100 bytes.
  method EncodeStatusLine(m: Message, reason: string, out: Buffer)
    requires out.Valid() && out.dataBegin == 0 && out.dataEnd == 0
    requires m.status >= 0 && |StatusLine(m, reason)| < RESERVED - 1
    modifies out
    ensures out.Valid() && out.owner && out.dataBegin == 0 && out.Data() == StatusLine(m, reason)
    ensures |out.memory| == if old(out.owner) && old(|out.memory|) >= RESERVED then old(|out.memory|) else RESERVED
  {
    hide StatusLine;
    var _ := out.Reserve(RESERVED);
    var ret := out.Print(0, out.FreeSize() - 1, StatusLine(m, reason));
    out.SetDataEnd(ret);
  }

  lemma ZeroLength()
    ensures LengthText(0) == "Content-Length: 0\r\n\r\n"
  {
    assert Decimal(0) == "0";
  }

  lemma ResponseParts(m: Message, reason: string, hs: Lines)
    requires m.status >= 0
    ensures (StatusLine(m, reason) + HeaderLines(hs)) + LengthText(ResponseLength(m)) ==
      EncodedResponseHeaders(m, reason, hs)
  {
    hide StatusLine, HeaderLines, Decimal;
  }

  method EncodeResponseHeaders(m: Message, reason: string, hs: Lines, out: Buffer)
    requires out.Valid() && out.dataBegin == 0 && out.dataEnd == 0 && |m.body| < UINT_LIMIT
      && m.contentLength < UINT_LIMIT
    requires m.status >= 0 && |StatusLine(m, reason)| < RESERVED - 1
    modifies out
    ensures out.Valid() && out.owner
    ensures out.Data() ==
      if ResponseLength(m) == 0 || ResponseSpare(old(|out.memory|), old(out.owner), m, reason, hs) >= 32 then
        EncodedResponseHeaders(m, reason, hs)
      else LengthText(ResponseLength(m))
  {
    hide StatusLine, HeaderLines, HeaderLine, Grown, Decimal, LengthText, EncodedResponseHeaders;
    EncodeStatusLine(m, reason, out);
    EncodeLines(hs, out);
    ResponseParts(m, reason, hs);
    var n := Max(|m.body|, m.contentLength);
    if n > 0 {
      EncodeLength(n, out);
    } else {
      ZeroLength();
      var _ := out.Write("Content-Length: 0\r\n\r\n");
    }
  }

  // encode: right exactly if the announced length is 0 or 32 bytes are left for it.
  method EncodeResponse(m: Message, reason: string, hs: Lines, out: Buffer)
    requires out.Valid() && out.dataBegin == 0 && out.dataEnd == 0 && |m.body| < UINT_LIMIT
      && m.contentLength < UINT_LIMIT
    requires m.status >= 0 && |StatusLine(m, reason)| < RESERVED - 1
    modifies out
    ensures out.Valid()
    ensures out.Data() == EncodedResponse(m, reason, hs) <==>
      ResponseLength(m) == 0 || ResponseSpare(old(|out.memory|), old(out.owner), m, reason, hs) >= 32
    // Otherwise the status line and the header lines are missing.
    ensures out.Data() == EncodedResponse(m, reason, hs) || out.Data() == LengthText(ResponseLength(m)) + m.body
  {
    hide EncodedResponseHeaders, Grown, Decimal, ResponseSpare, LengthText, StatusLine;
    EncodeResponseHeaders(m, reason, hs, out);
    if m.body != "" {
      var _ := out.Write(m.body);
    }
    NotOnlyTheLength(m, reason, hs);
  }

  // The length line with the body is never the whole response.
  lemma NotOnlyTheLength(m: Message, reason: string, hs: Lines)
    requires m.status >= 0
    ensures |LengthText(ResponseLength(m))| < |EncodedResponseHeaders(m, reason, hs)|
    ensures EncodedResponseHeaders(m, reason, hs) + "" == EncodedResponseHeaders(m, reason, hs)
    ensures LengthText(ResponseLength(m)) + "" == LengthText(ResponseLength(m))
  {
    hide Decimal, HeaderLines, FindVersionName;
  }

  // A response for which it goes wrong: a header of 1000 bytes leaves 7 of the 1024 that are reserved.
  lemma ResponseLengthLost() returns (m: Message, reason: string, hs: Lines)
    ensures EncodableResponse(m, reason, hs) && m.body != "" && |StatusLine(m, reason)| < RESERVED - 1
    ensures ResponseSpare(0, true, m, reason, hs) == 7
  {
    var value := seq(995, _ => 'x');
    m, reason := NewMessage().(status := 200, body := "b"), "OK";
    hs := [("A", value)];
    assert Decimal(200) == "200";
    assert StatusLine(m, reason) == "HTTP/1.1 200 OK\r\n";
    assert HeaderLines(hs) == HeaderLine("A", value) + HeaderLines(hs[1..]);
    assert |HeaderLine("A", value)| == 1000 && hs[1..] == [];
    assert SizeAfterLines(1024, 17, hs) == SizeAfterLines(1024, 1017, []);
  }
}
