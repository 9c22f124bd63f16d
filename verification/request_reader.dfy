/**
 * `http::request_reader` (src/http/request_reader.cpp): the header block of
 * an outgoing request and a resumable cursor over that block and then the
 * body, and how the request parser of the server reads that block back.
 */
module RequestReader {
  import opened Common
  import opened Message
  import HttpString
  import Request
  import Parser
  import ParserProps

  /** `request_method`. */
  datatype RequestMethod = Post | Get | Options | Undefined

  /** `http::request`; the headers are listed in the order the map is
      walked. */
  datatype OutgoingRequest = OutgoingRequest(
    remotePort: nat, remoteHost: string, uri: string, requestMethod: RequestMethod,
    headers: seq<(string, string)>, body: Body)

  /** `request_method_to_str`. */
  function RequestMethodToStr(m: RequestMethod): (r: string)
    ensures m == Get ==> r == "GET"
    ensures m == Post ==> r == "POST"
    ensures m == Options ==> r == "OPTIONS"
    ensures r == [] <==> m == Undefined
  {
    match m
    case Get => "GET"
    case Post => "POST"
    case Options => "OPTIONS"
    case Undefined => ""
  }

  /** The request line. */
  function RequestLine(m: RequestMethod, uri: string): string {
    RequestMethodToStr(m) + " " + uri + " HTTP/1.1\r\n"
  }

  /** The header block the constructor builds: the request line, the
      headers, the Host line, the length of a non-empty body, and the empty
      line. */
  function Head(req: OutgoingRequest, bodySize: nat): (r: string)
    ensures var line := RequestLine(req.requestMethod, req.uri);
      |r| > |line| && r[..|line|] == line
  {
    var line := RequestLine(req.requestMethod, req.uri);
    var rest := HeaderLines(req.headers) + "Host: " + req.remoteHost + ":" + NatToString(req.remotePort) + "\r\n" +
      ContentLengthLine(bodySize) + "\r\n";
    assert (line + rest)[..|line|] == line;
    line + rest
  }

  /** The method names the server's parser accepts are read back as the
      method written; OPTIONS and the undefined method are not accepted. */
  lemma MethodRoundTrip(m: RequestMethod)
    ensures var read := Request.StrToRequestMethod(HttpString.Whole(RequestMethodToStr(m)));
      && (m == Get ==> read == Request.Get)
      && (m == Post ==> read == Request.Post)
      && (m == Options || m == Undefined ==> read == Request.NoMethod)
  {
    var s := RequestMethodToStr(m);
    if m == Options {
      assert HttpString.Size(HttpString.Whole(s)) == 7;
    }
  }

  /** The Content-Length line this reader writes, without its CR LF, is read
      by the server's parser as the declared body size. */
  lemma ContentLengthRoundTrip(f: Request.Fields, n: nat)
    requires n > 0 && n + '0' as int <= Parser.IntMax
    ensures var line := ContentLengthLine(n);
      Parser.HeaderLine(f, line[..|line| - 2]) == f.(bodySize := n)
  {
    var line := ContentLengthLine(n);
    assert line[..|line| - 2] == Parser.ContentLength + ": " + NatToString(n);
    ParserProps.ContentLengthRead(f, Parser.ContentLength, ": ", n);
  }

  function ReadMethod(m: RequestMethod): Request.LineMethod {
    match m
    case Get => Request.Get
    case Post => Request.Post
    case _ => Request.NoMethod
  }

  /** The record the server's parser holds after the method token. */
  function MethodRead(m: RequestMethod): Request.Fields {
    Request.Initial.(lineMethod := ReadMethod(m), lineState := Request.ReadUri, waitState := Request.WaitSp)
  }

  /** The record the server's parser holds after the target token. */
  function UriRead(m: RequestMethod, uri: string): Request.Fields {
    MethodRead(m).(uri := uri, lineState := Request.ReadVersion, waitState := Request.WaitCrlf)
  }

  /** The record the server's parser holds once it has read the whole
      request line. */
  function LineRead(m: RequestMethod, uri: string): Request.Fields {
    UriRead(m, uri).(version := "HTTP/1.1", state := Request.ReadHeaders)
  }

  /** The middle part of a concatenation, as a view. */
  lemma MiddleView(x: string, y: string, rest: string)
    ensures |x| + |y| <= |x + y + rest|
    ensures HttpString.Bytes(HttpString.View(x + y + rest, |x|, |y|)) == y
    ensures forall k :: |x| <= k < |x| + |y| ==> (x + y + rest)[k] == y[k - |x|]
  {
    var s := x + y + rest;
    assert s[|x|..|x| + |y|] == y;
  }

  lemma MethodTokenParsed(m: RequestMethod, uri: string, rest: string)
    requires m == Get || m == Post
    ensures var input := RequestLine(m, uri) + rest;
      var a := |RequestMethodToStr(m)|;
      Parser.Scan(Request.Initial, Request.Clear, input, 0, 0, 0)
        == Parser.Scan(MethodRead(m), Request.Clear, input, a + 1, a + 1, 1)
  {
    var input := RequestLine(m, uri) + rest;
    var name := RequestMethodToStr(m);
    var a := |name|;
    assert input[a] == ' ';
    assert forall k :: 0 <= k < a ==> input[k] == name[k] != ' ';
    ParserProps.ScanSpaceToken(Request.Initial, Request.Clear, input, 0, 0, a, 0);
    assert HttpString.Bytes(HttpString.View(input, 0, a)) == name;
    MethodRoundTrip(m);
  }

  lemma UriTokenParsed(m: RequestMethod, uri: string, rest: string)
    requires m == Get || m == Post
    requires ' ' !in uri
    ensures var input := RequestLine(m, uri) + rest;
      var a := |RequestMethodToStr(m)|;
      var b := a + 1 + |uri|;
      Parser.Scan(MethodRead(m), Request.Clear, input, a + 1, a + 1, 1)
        == Parser.Scan(UriRead(m, uri), Request.Clear, input, b + 1, b + 1, 1)
  {
    var head := RequestMethodToStr(m) + " ";
    var tail := " HTTP/1.1\r\n" + rest;
    var input := RequestLine(m, uri) + rest;
    assert input == head + uri + tail;
    var a := |head| - 1;
    var b := a + 1 + |uri|;
    MiddleView(head, uri, tail);
    assert input[b] == ' ';
    ParserProps.ScanSpaceToken(MethodRead(m), Request.Clear, input, a + 1, a + 1, b, 1);
  }

  lemma VersionTokenParsed(m: RequestMethod, uri: string, rest: string)
    requires m == Get || m == Post
    ensures var input := RequestLine(m, uri) + rest;
      var b := |RequestMethodToStr(m)| + 1 + |uri|;
      var n := |RequestLine(m, uri)|;
      Parser.Scan(UriRead(m, uri), Request.Clear, input, b + 1, b + 1, 1)
        == Parser.Scan(LineRead(m, uri), Request.Clear, input, n, n, 2)
  {
    var head := RequestMethodToStr(m) + " " + uri + " ";
    var input := RequestLine(m, uri) + rest;
    RequestLineSplit(m, uri, rest);
    VersionAfter(UriRead(m, uri), input, head, rest);
  }

  /** The version token and its CR LF, read right after `head`. */
  lemma VersionAfter(f: Request.Fields, input: string, head: string, rest: string)
    requires f.waitState == Request.WaitCrlf && !f.faulted && f.buff.None?
    requires f.state == Request.ReadLine && f.lineState == Request.ReadVersion
    requires input == head + "HTTP/1.1\r\n" + rest
    ensures Parser.Scan(f, Request.Clear, input, |head|, |head|, 1)
      == Parser.Scan(f.(version := "HTTP/1.1", state := Request.ReadHeaders), Request.Clear, input, |head| + 10, |head| + 10, 2)
  {
    MiddleView(head, "HTTP/1.1\r\n", rest);
    VersionAt(f, input, |head|);
  }

  /** The request line cut before its version. */
  lemma RequestLineSplit(m: RequestMethod, uri: string, rest: string)
    ensures var head := RequestMethodToStr(m) + " " + uri + " ";
      && RequestLine(m, uri) + rest == head + "HTTP/1.1\r\n" + rest
      && |RequestLine(m, uri)| == |head| + 10
  {
  }

  /** The version token and its CR LF, read from position `p`. */
  lemma VersionAt(f: Request.Fields, input: string, p: nat)
    requires f.waitState == Request.WaitCrlf && !f.faulted && f.buff.None?
    requires f.state == Request.ReadLine && f.lineState == Request.ReadVersion
    requires p + 10 <= |input|
    requires forall k :: p <= k < p + 10 ==> input[k] == "HTTP/1.1\r\n"[k - p]
    ensures Parser.Scan(f, Request.Clear, input, p, p, 1)
      == Parser.Scan(f.(version := "HTTP/1.1", state := Request.ReadHeaders), Request.Clear, input, p + 10, p + 10, 2)
  {
    assert forall k :: p <= k < p + 8 ==> input[k] != '\r';
    ParserProps.ScanCrlfToken(f, Request.Clear, input, p, p, p + 8, 1);
    assert HttpString.Bytes(HttpString.View(input, p, 8)) == "HTTP/1.1";
  }

  /** A fresh parser given, in one read, the request line this reader
      writes for a GET or POST whose target holds no space reads the method,
      the target and the version, and goes on to the headers right after
      the line's CR LF. */
  lemma RequestLineParsed(m: RequestMethod, uri: string, rest: string)
    requires m == Get || m == Post
    requires ' ' !in uri
    ensures var input := RequestLine(m, uri) + rest;
      var n := |RequestLine(m, uri)|;
      && Parser.Scan(Request.Initial, Request.Clear, input, 0, 0, 0)
           == Parser.Scan(LineRead(m, uri), Request.Clear, input, n, n, 2)
      && LineRead(m, uri).uri == uri && LineRead(m, uri).version == "HTTP/1.1"
      && LineRead(m, uri).lineMethod == ReadMethod(m) != Request.NoMethod
  {
    MethodTokenParsed(m, uri, rest);
    UriTokenParsed(m, uri, rest);
    VersionTokenParsed(m, uri, rest);
  }

  /** A header the server's parser can split back: a non-empty key
      without separators, and a value that does not start with one. */
  predicate Splittable(h: (string, string)) {
    && h.0 != []
    && (forall j :: 0 <= j < |h.0| ==> !Parser.IsSeparator(h.0[j]))
    && (h.1 == [] || !Parser.IsSeparator(h.1[0]))
  }

  /** The `key: value` text of a splittable header is split by the server's
      parser into that key and that value. */
  lemma HeaderTextSplits(h: (string, string))
    requires Splittable(h)
    ensures Parser.SplitHeader(HeaderText(h)) == Some(h)
  {
    var t := HeaderText(h);
    var k := |h.0|;
    assert forall j :: 0 <= j < k ==> t[j] == h.0[j];
    assert t[k] == ':' && t[k + 1] == ' ';
    assert Parser.KeyEnd(t) == k;
    assert k + 2 < |t| ==> t[k + 2] == h.1[0];
    assert Parser.SkipSeparators(t, k + 1) == k + 2;
    assert t[..k] == h.0 && t[k + 2..] == h.1;
  }

  /** Every header line this reader writes is read back as a line and split
      by the server's parser into the header's key and value, in order. */
  lemma HeaderLinesSplitBack(hs: seq<(string, string)>, rest: string)
    requires HeadersWithoutCr(hs)
    requires forall i :: 0 <= i < |hs| ==> Splittable(hs[i])
    ensures var lines := Lines(HeaderLines(hs) + rest);
      && |hs| <= |lines|
      && forall i :: 0 <= i < |hs| ==> Parser.SplitHeader(lines[i]) == Some(hs[i])
  {
    HeaderLinesRead(hs, rest);
    forall i | 0 <= i < |hs|
      ensures Parser.SplitHeader(HeaderTexts(hs)[i]) == Some(hs[i])
    {
      HeaderTextSplits(hs[i]);
    }
  }

  /** The text of the request line. */
  function RequestText(m: RequestMethod, uri: string): string {
    RequestMethodToStr(m) + " " + uri + " HTTP/1.1"
  }

  /** Read back line by line, the block is: the request line; one
      `key: value` line per header, in order; the Host line with host and
      port; the Content-Length of a non-empty body; and the empty line that
      ends the block. */
  lemma HeadReadsBack(req: OutgoingRequest, n: nat)
    requires NoCr(req.uri) && NoCr(req.remoteHost) && HeadersWithoutCr(req.headers)
    ensures Lines(Head(req, n)) ==
      [RequestText(req.requestMethod, req.uri)] + HeaderTexts(req.headers)
      + [HeaderText(("Host", req.remoteHost + ":" + NatToString(req.remotePort)))]
      + (if n == 0 then [] else ["Content-Length: " + NatToString(n)]) + [""]
  {
    var l := RequestText(req.requestMethod, req.uri);
    var host := HeaderText(("Host", req.remoteHost + ":" + NatToString(req.remotePort)));
    var after := ContentLengthLine(n) + "\r\n";
    var hs := req.headers;
    HeadSplit(req, n);
    RequestTextNoCr(req.requestMethod, req.uri);
    HostNoCr(req.remoteHost, req.remotePort);
    LinesCons(l, HeaderLines(hs) + (host + "\r\n" + after));
    HeaderLinesRead(hs, host + "\r\n" + after);
    LinesCons(host, after);
    LengthRead(n);
    ReadBackAssoc(l, HeaderTexts(hs), host, Lines(after));
  }

  /** The block cut at its request line and at its Host line. */
  lemma HeadSplit(req: OutgoingRequest, n: nat)
    ensures Head(req, n) == RequestText(req.requestMethod, req.uri) + "\r\n"
      + (HeaderLines(req.headers)
         + (HeaderText(("Host", req.remoteHost + ":" + NatToString(req.remotePort))) + "\r\n"
            + (ContentLengthLine(n) + "\r\n")))
  {
    var h := HeaderLines(req.headers);
    var host := req.remoteHost + ":" + NatToString(req.remotePort);
    assert HeaderText(("Host", host)) == "Host: " + host;
    assert RequestLine(req.requestMethod, req.uri) == RequestText(req.requestMethod, req.uri) + "\r\n";
    Regroup(h, "Host: ", req.remoteHost, ":", NatToString(req.remotePort), "\r\n", ContentLengthLine(n), "\r\n");
  }

  lemma Regroup(h: string, a: string, b: string, c: string, d: string, crlf: string, len: string, e: string)
    ensures h + a + b + c + d + crlf + len + e == h + (a + (b + c + d) + crlf + (len + e))
  {
  }

  lemma ReadBackAssoc(l: string, hs: seq<string>, host: string, b: seq<string>)
    ensures [l] + (hs + ([host] + b)) == [l] + hs + [host] + b
  {
  }

  lemma RequestTextNoCr(m: RequestMethod, uri: string)
    requires NoCr(uri)
    ensures NoCr(RequestText(m, uri))
  {
  }

  lemma HostNoCr(host: string, port: nat)
    requires NoCr(host)
    ensures NoCr(HeaderText(("Host", host + ":" + NatToString(port))))
  {
    DigitsNoCr(NatToString(port));
  }

  /** The length line, if any, and the empty line read back. */
  lemma LengthRead(n: nat)
    ensures Lines(ContentLengthLine(n) + "\r\n") == (if n == 0 then [] else ["Content-Length: " + NatToString(n)]) + [""]
  {
    EmptyLineRead();
    if n > 0 {
      DigitsNoCr(NatToString(n));
      var cl := "Content-Length: " + NatToString(n);
      assert NoCr(cl);
      LinesCons(cl, "\r\n");
    }
  }

  class Reader {
    const req: OutgoingRequest
    const line: string
    const bodySize: nat
    var lineWritten: nat
    var bodyWritten: nat
    var state: Phase

    function Shape(): Layout
      reads this
    {
      Layout(|line|, BodyPhase(req.body), bodySize)
    }

    function At(): Cursor
      reads this
    {
      Cursor(state, lineWritten, bodyWritten)
    }

    /** The block is not empty, the body size is what the body holds, and
        the cursor is consistent. */
    ghost predicate Valid()
      reads this
    {
      && LayoutValid(Shape())
      && CursorValid(At(), Shape())
      && BodySize(req.body, Opened(bodySize)) == Some(bodySize)
    }

    /** The bytes the reader sends, as far as they live in memory: the block,
        then an in-memory body. */
    ghost function Stream(): string
      reads this
    {
      var p := BodyPhase(req.body);
      if p == ReadBodyStr || p == ReadBodyBuff then line + MemoryBody(req.body) else line
    }

    /** How many bytes have been sent so far. */
    ghost function Sent(): nat
      reads this
      requires Valid()
    {
      |line| + bodySize - Remaining(At(), Shape())
    }

    /** The rest of `request_reader(request)` once the body size is known. */
    constructor Built(req: OutgoingRequest, bodySize: nat)
      requires BodySize(req.body, Opened(bodySize)) == Some(bodySize)
      ensures this.req == req && this.bodySize == bodySize && line == Head(req, bodySize)
      ensures At() == Start && Valid()
    {
      this.req := req;
      this.bodySize := bodySize;
      line := Head(req, bodySize);
      lineWritten := 0;
      bodyWritten := 0;
      state := ReadLine;
    }

    /** `request_reader(request)`, with the outcome of opening and sizing
        the body file given: no reader when either fails. */
    static method Open(req: OutgoingRequest, file: FileStat) returns (r: Option<Reader>)
      ensures r.None? <==> BodySize(req.body, file).None?
      ensures r.Some? ==>
        && fresh(r.value) && r.value.req == req
        && r.value.bodySize == BodySize(req.body, file).value
        && r.value.line == Head(req, r.value.bodySize)
        && r.value.At() == Start && r.value.Valid()
    {
      var size := 0;
      if req.body.filePath != [] {
        match file
        case Opened(n) =>
          size := n;
        case _ =>
          return None;
      } else if req.body.str != [] {
        size := |req.body.str|;
      } else if req.body.buff.Some? {
        size := |req.body.buff.value|;
      }
      var reader := new Reader.Built(req, size);
      return Some(reader);
    }

    /** `has_chunks()`: false exactly in `read_none`, where nothing is left. */
    function HasChunks(): (b: bool)
      reads this
      requires Valid()
      ensures !b <==> state == ReadNone
      ensures !b ==> Remaining(At(), Shape()) == 0
    {
      state != ReadNone
    }

    /** `get_chunk()`: the next unsent bytes, as many as the cursor says are
        left in the current phase; a file body is described by its offset. */
    function GetChunk(): (c: Chunk)
      reads this
      requires Valid()
      ensures ChunkLength(c) == ChunkSize(At(), Shape())
      ensures c.InMemory? ==> Sent() + |c.data| <= |Stream()| && c.data == Stream()[Sent()..Sent() + |c.data|]
      ensures c.FileRange? <==> state == ReadBodyFile
      ensures c.FileRange? ==> |line| + c.offset == Sent()
    {
      match state
      case ReadLine =>
        // in `read_line` the block is never fully sent, so the source's
        // test `_line.size() > _line_written_size` always holds
        HeadSlice(line, Stream(), lineWritten);
        InMemory(line[lineWritten..])
      case ReadBodyFile => FileRange(bodyWritten, bodySize - bodyWritten)
      case ReadBodyStr =>
        BodySlice(line, req.body.str, bodyWritten);
        InMemory(req.body.str[bodyWritten..])
      case ReadBodyBuff =>
        BodySlice(line, req.body.buff.value, bodyWritten);
        InMemory(req.body.buff.value[bodyWritten..])
      case ReadNone => NoChunk
    }

    /** `next(size)`. */
    method Next(k: nat)
      requires Valid()
      modifies this
      ensures At() == Advance(old(At()), Shape(), k)
      ensures Valid()
    {
      match state
      case ReadLine =>
        lineWritten := lineWritten + k;
        if lineWritten >= |line| {
          if req.body.filePath != [] {
            state := ReadBodyFile;
          } else if req.body.str != [] {
            state := ReadBodyStr;
          } else if req.body.buff.Some? {
            state := ReadBodyBuff;
          } else {
            state := ReadNone;
          }
        }
      case ReadNone =>
      case _ =>
        bodyWritten := bodyWritten + k;
        if bodyWritten >= bodySize {
          state := ReadNone;
        }
    }
  }
}
