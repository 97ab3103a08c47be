/** HttpRequest::encode, writing into a byte buffer. */
module HttpEncoder {
  import opened DecimalDigits
  import opened Http
  import opened HttpRoundTrip
  import opened ByteBuffer
  import HttpDecoder

  const UINT_LIMIT := 0x1_0000_0000

  // The size that the memory has grown to when the header lines from `end` on have been written.
  function SizeAfterLine(size: nat, end: nat, name: string, value: string): nat
    requires end <= size
  {
    var size1 := Grown(size, end, |name|);
    var size2 := Grown(size1, end + |name|, 2);
    var size3 := Grown(size2, end + |name| + 2, |value|);
    Grown(size3, end + |name| + 2 + |value|, 2)
  }

  function SizeAfterLines(size: nat, end: nat, hs: Lines): (r: nat)
    requires end <= size
    ensures r >= size && r >= end + |HeaderLines(hs)|
    decreases |hs|
  {
    if hs == [] then size
    else
      SizeAfterLines(SizeAfterLine(size, end, hs[0].0, hs[0].1), end + |HeaderLine(hs[0].0, hs[0].1)|, hs[1..])
  }

  // The memory behind the header lines, of a buffer of the given size, that the length line finds.
  function Spare(size: nat, owner: bool, m: Message, hs: Lines): int {
    var need := |UriOf(m)| + 1024;
    var size1 := if owner && size >= need then size else need;
    StartLineFits(m);
    SizeAfterLines(size1, |StartLine(m)|, hs) - |StartLine(m)| - |HeaderLines(hs)|
  }

  lemma StartLineFits(m: Message)
    ensures |StartLine(m)| <= |UriOf(m)| + 19
  {
  }

  lemma DecimalOfUint(n: nat)
    requires n < UINT_LIMIT
    ensures 1 <= |Decimal(n)| <= 10
  {
    if |Decimal(n)| > 10 {
      DecimalLength(n, |Decimal(n)|);
      Pow10Grows(10, |Decimal(n)| - 1);
      PowersOfTen();
    }
  }

  lemma PowersOfTen()
    ensures Pow10(10) == 10_000_000_000
  {
    assert Pow10(5) == 100_000;
  }

  function LengthText(n: nat): string { HeaderLine("Content-Length", Decimal(n)) + "\r\n" }

  lemma LengthTextFits(n: nat)
    requires n < UINT_LIMIT
    ensures |LengthText(n)| <= 30
  {
    DecimalOfUint(n);
  }

  // The start line, written over whatever the buffer held.
  method EncodeStartLine(m: Message, out: Buffer)
    requires out.Valid() && out.dataBegin == 0 && out.dataEnd == 0
    modifies out
    ensures out.Valid() && out.owner && out.dataBegin == 0 && out.Data() == StartLine(m)
    ensures var need := |UriOf(m)| + 1024;
      |out.memory| == if old(out.owner) && old(|out.memory|) >= need then old(|out.memory|) else need
  {
    StartLineFits(m);
    hide StartLine;
    var _ := out.Reserve(|UriOf(m)| + 1024);
    var ret := out.Print(0, out.FreeSize() - 1, StartLine(m));
    out.SetDataEnd(ret);
  }

  method EncodeLine(name: string, value: string, out: Buffer)
    requires out.Valid() && out.owner
    modifies out
    ensures out.Valid() && out.owner && out.dataBegin == old(out.dataBegin)
    ensures out.Data() == old(out.Data()) + HeaderLine(name, value)
    ensures |out.memory| == SizeAfterLine(old(|out.memory|), old(out.dataEnd), name, value)
  {
    hide Grown;
    ghost var before := out.Data();
    var _ := out.Write(name);
    var _ := out.Write(": ");
    var _ := out.Write(value);
    var _ := out.Write("\r\n");
    assert before + name + ": " + value + "\r\n" == before + HeaderLine(name, value);
  }

  method EncodeLines(hs: Lines, out: Buffer)
    requires out.Valid() && out.owner
    modifies out
    ensures out.Valid() && out.owner && out.dataBegin == old(out.dataBegin)
    ensures out.Data() == old(out.Data()) + HeaderLines(hs)
    ensures |out.memory| == SizeAfterLines(old(|out.memory|), old(out.dataEnd), hs)
  {
    hide Grown, SizeAfterLine, HeaderLine;
    ghost var before, size, end := out.Data(), |out.memory|, out.dataEnd;
    for i := 0 to |hs|
      invariant out.Valid() && out.owner && out.dataBegin == old(out.dataBegin)
      invariant out.Data() + HeaderLines(hs[i..]) == before + HeaderLines(hs)
      invariant SizeAfterLines(|out.memory|, out.dataEnd, hs[i..]) == SizeAfterLines(size, end, hs)
    {
      ghost var data := out.Data();
      assert hs[i..][1..] == hs[i + 1..];
      EncodeLine(hs[i].0, hs[i].1, out);
      assert data + (HeaderLine(hs[i].0, hs[i].1) + HeaderLines(hs[i + 1..])) == out.Data() + HeaderLines(hs[i + 1..]);
    }
    assert out.Data() + "" == out.Data();
  }

  // The length line goes through reserve: the data is lost if that has to enlarge the memory.
  method EncodeLength(n: nat, out: Buffer)
    requires out.Valid() && out.owner && out.dataBegin == 0 && n < UINT_LIMIT
    modifies out
    ensures out.Valid() && out.owner
    ensures out.Data() == if old(out.FreeSize()) >= 32 then old(out.Data()) + LengthText(n) else LengthText(n)
  {
    LengthTextFits(n);
    hide LengthText;
    var _ := out.Reserve(out.DataSize() + 32);
    ghost var data := out.Data();
    var at := out.DataSize();
    var ret := out.Print(at, out.FreeSize() - 1, LengthText(n));
    assert out.memory[..at] == data;
    out.SetDataEnd(at + ret);
    assert out.memory[..at + ret] == out.memory[..at] + out.memory[at..at + ret];
  }

  method EncodeHeaders(m: Message, hs: Lines, out: Buffer)
    requires out.Valid() && out.dataBegin == 0 && out.dataEnd == 0 && |m.body| < UINT_LIMIT
      && m.contentLength < UINT_LIMIT
    modifies out
    ensures out.Valid() && out.owner
    ensures out.Data() ==
      if Announced(m) == 0 || Spare(old(|out.memory|), old(out.owner), m, hs) >= 32 then EncodedHeaders(m, hs)
      else LengthText(Announced(m))
  {
    hide StartLine, HeaderLines, HeaderLine, Grown, Decimal;
    EncodeStartLine(m, out);
    EncodeLines(hs, out);
    assert out.Data() == StartLine(m) + HeaderLines(hs);
    if m.method_ != HEAD {
      var n := Max(|m.body|, m.contentLength);
      if n > 0 {
        EncodeLength(n, out);
        assert StartLine(m) + HeaderLines(hs) + (HeaderLine("Content-Length", Decimal(n)) + "\r\n") ==
          EncodedHeaders(m, hs);
        return;
      }
    }
    var _ := out.Write("\r\n");
    assert StartLine(m) + HeaderLines(hs) + "" == StartLine(m) + HeaderLines(hs);
  }

  // encode: right exactly if no length is announced or 32 bytes are left for it.
  method Encode(m: Message, hs: Lines, out: Buffer)
    requires out.Valid() && out.dataBegin == 0 && out.dataEnd == 0 && |m.body| < UINT_LIMIT
      && m.contentLength < UINT_LIMIT
    modifies out
    ensures out.Valid()
    ensures out.Data() == Encoded(m, hs) <==> Announced(m) == 0 || Spare(old(|out.memory|), old(out.owner), m, hs) >= 32
    // Otherwise the start line and the header lines are missing.
    ensures out.Data() == Encoded(m, hs) || out.Data() == LengthText(Announced(m)) + m.body
  {
    hide EncodedHeaders, Grown, Decimal, Spare;
    EncodeHeaders(m, hs, out);
    if m.body != "" {
      var _ := out.Write(m.body);
    }
    OnlyTheLength(m, hs);
  }

  // The length line with the body is never the whole request.
  lemma OnlyTheLength(m: Message, hs: Lines)
    ensures |LengthText(Announced(m))| < |EncodedHeaders(m, hs)| || Announced(m) == 0
    ensures EncodedHeaders(m, hs) + "" == EncodedHeaders(m, hs)
    ensures LengthText(Announced(m)) + "" == LengthText(Announced(m))
  {
    hide Decimal;
  }

  // A request whose uri is cut.
  lemma UriCut() returns (m: Message)
    ensures Encodable(m, []) && UriOf(m) == "/" + [0 as char] + "x" && StartLine(m) == "GET / HTTP/1.1\r\n"
  {
    m := NewMessage().(uri := "/" + [0 as char] + "x");
    assert Printed(m.uri[1..]) == "";
  }

  // A request for which it goes wrong: a header of 1005 bytes leaves 4 of the 1025 that are reserved.
  lemma LengthLost() returns (m: Message, hs: Lines)
    ensures Encodable(m, hs) && m.body != "" && Spare(0, true, m, hs) == 4
  {
    var value := seq(1000, _ => 'x');
    m := NewMessage().(uri := "/", body := "b");
    hs := [("A", value)];
    assert StartLine(m) == "GET / HTTP/1.1\r\n";
    assert HeaderLines(hs) == HeaderLine("A", value) + HeaderLines(hs[1..]);
    assert |HeaderLine("A", value)| == 1005 && hs[1..] == [];
    assert SizeAfterLines(1025, 16, hs) == SizeAfterLines(1025, 1021, []);
  }

  // From one end to the other: what a handler is given is the request that was encoded.
  method SendAndReceive(m: Message, hs: Lines, out: Buffer, d: HttpDecoder.Decoder) returns (ret: int)
    requires out.Valid() && |m.body| < UINT_LIMIT
    requires Encodable(m, hs) && (m.body == "" || Spare(|out.memory|, out.owner, m, hs) >= 32)
    requires d.Valid() && d.side == Request && d.Abs() == NewParser(Request)
    requires |HttpRoundTrip.EncodedHeaders(m, hs)| < d.config.maxHeaderLength && |m.body| <= d.config.maxBodyLength
    modifies out, d
    ensures d.delivered == old(d.delivered) + [Received(m, hs)] && ret == (if d.verdict(d.delivered) < 0 then -1 else 1)
    ensures ret == 1 ==> d.Valid() && d.Abs() == NewParser(Request)
  {
    hide Encoded, EncodedHeaders, Encodable, Spare, FeedAll, Received;
    EncodableLength(m, hs);
    out.Reset();
    Encode(m, hs, out);
    RoundTrip(d.config, d.verdict, d.delivered, m, hs);
    var at;
    ret, at := d.Decode(out.Data(), 0);
  }

  lemma EncodableLength(m: Message, hs: Lines)
    requires Encodable(m, hs)
    ensures Announced(m) == |m.body| && m.contentLength <= |m.body|
  {
  }
}
