/**
 * `http::response_reader` (src/http/response_reader.cpp): the header block of
 * a response and a resumable cursor over that block and then the body.
 */
module ResponseReader {
  import opened Common
  import opened Message

  /** `content_types`. */
  datatype ContentType = NoContentType | Text | Json | HlsChunk | HlsPlaylist

  /** `http::response`; the headers are listed in the order the map is walked. */
  datatype Response = Response(code: int, headers: seq<(string, string)>, contentType: ContentType, body: Body)

  /** `status_code_to_str`: the reason phrase of the six codes the server
      sends, and "Unknow" for any other. */
  function StatusCodeToStr(code: int): (r: string)
    ensures r == "Unknow" <==> code !in {200, 400, 404, 411, 413, 500}
    ensures code == 200 ==> r == "OK"
    ensures code == 400 ==> r == "Bad Request"
    ensures code == 404 ==> r == "Not found"
    ensures code == 411 ==> r == "Length Required"
    ensures code == 413 ==> r == "Payload Too Large"
    ensures code == 500 ==> r == "Internal Error"
  {
    match code
    case 200 => "OK"
    case 400 => "Bad Request"
    case 404 => "Not found"
    case 411 => "Length Required"
    case 413 => "Payload Too Large"
    case 500 => "Internal Error"
    case _ => "Unknow"
  }

  /** The media type `content_types` names. */
  function ContentTypeName(t: ContentType): string {
    match t
    case NoContentType => []
    case Text => "text/plain"
    case Json => "application/json"
    case HlsChunk => "video/MP2T"
    case HlsPlaylist => "application/vnd.apple.mpegurl"
  }

  /** The `Content-Type` line, written only for a typed body. */
  function ContentTypeLine(t: ContentType): string {
    if t == NoContentType then [] else "Content-Type: " + ContentTypeName(t) + "\r\n"
  }

  function StatusLine(code: int): (r: string)
    ensures |r| > 9 && r[..9] == "HTTP/1.1 "
  {
    "HTTP/1.1 " + (IntToString(code) + " " + StatusCodeToStr(code) + "\r\n")
  }

  const AllowOrigin := "Access-Control-Allow-Origin: *\r\n"

  /** The lines a non-empty body adds. */
  function BodyLines(bodySize: nat, t: ContentType): (r: string)
    ensures bodySize > 0 ==> |r| >= 2 && r[|r| - 2..] == "\r\n"
    ensures bodySize == 0 ==> r == []
  {
    if bodySize > 0 then
      var len := ContentLengthLine(bodySize);
      assert len == "Content-Length: " + NatToString(bodySize) + "\r\n";
      if t == NoContentType then len else len + ContentTypeLine(t)
    else []
  }

  /** The header block the constructor builds: the status line, the
      headers, the CORS line, the length and type of a non-empty body, and
      the empty line. */
  function Head(resp: Response, bodySize: nat): (r: string)
    ensures |r| > 13 && r[..9] == "HTTP/1.1 " && r[|r| - 4..] == "\r\n\r\n"
  {
    var status := StatusLine(resp.code);
    var opt := BodyLines(bodySize, resp.contentType);
    AllowOriginEnds();
    Framed(status, HeaderLines(resp.headers), AllowOrigin, opt);
    status + (HeaderLines(resp.headers) + AllowOrigin + opt) + "\r\n"
  }

  /** The texts of the lines a body adds, as a receiver reads them: none
      for an empty body; otherwise its length, then its type unless it has
      none. */
  function BodyTexts(n: nat, t: ContentType): seq<string> {
    if n == 0 then []
    else ["Content-Length: " + NatToString(n)] + (if t == NoContentType then [] else ["Content-Type: " + ContentTypeName(t)])
  }

  /** Read back line by line, the block is: the status line, whose code and
      phrase read back (`StatusTextReadsBack`); one `key: value` line per
      header, in order; the CORS line; the Content-Length of a non-empty
      body and then the Content-Type of a typed one; and the empty line that
      ends the block. */
  lemma HeadReadsBack(resp: Response, n: nat)
    requires resp.code >= 0 && HeadersWithoutCr(resp.headers)
    ensures Lines(Head(resp, n)) ==
      [StatusText(resp.code, StatusCodeToStr(resp.code))] + HeaderTexts(resp.headers)
      + ["Access-Control-Allow-Origin: *"] + BodyTexts(n, resp.contentType) + [""]
  {
    var s := StatusText(resp.code, StatusCodeToStr(resp.code));
    var hs := resp.headers;
    var after := BodyLines(n, resp.contentType) + "\r\n";
    HeadSplit(resp, n);
    StatusTextNoCr(resp.code);
    LinesCons(s, HeaderLines(hs) + (AllowOrigin + after));
    HeaderLinesRead(hs, AllowOrigin + after);
    CorsLineRead(after);
    BodyLinesRead(n, resp.contentType);
    ReadBackAssoc(s, HeaderTexts(hs), "Access-Control-Allow-Origin: *", BodyTexts(n, resp.contentType) + [""]);
  }

  /** The block cut at its status line and at its CORS line. */
  lemma HeadSplit(resp: Response, n: nat)
    requires resp.code >= 0
    ensures Head(resp, n) == StatusText(resp.code, StatusCodeToStr(resp.code)) + "\r\n"
      + (HeaderLines(resp.headers) + (AllowOrigin + (BodyLines(n, resp.contentType) + "\r\n")))
  {
    var s := StatusText(resp.code, StatusCodeToStr(resp.code));
    StatusLineText(resp.code);
    var opt := BodyLines(n, resp.contentType);
    Regroup(s + "\r\n", HeaderLines(resp.headers), AllowOrigin, opt, "\r\n");
  }

  lemma StatusLineText(code: nat)
    ensures StatusLine(code) == StatusText(code, StatusCodeToStr(code)) + "\r\n"
  {
    var d, ph := IntToString(code), StatusCodeToStr(code);
    StatusTextJoin(code, d, ph);
    Regroup4("HTTP/1.1 ", d, " " + ph, "\r\n");
  }

  lemma Regroup4(a: string, b: string, c: string, d: string)
    ensures a + (b + c + d) == a + (b + c) + d
  {
  }

  lemma Regroup(p: string, h: string, a: string, o: string, e: string)
    ensures p + (h + a + o) + e == p + (h + (a + (o + e)))
  {
  }

  lemma CorsLineRead(after: string)
    ensures Lines(AllowOrigin + after) == ["Access-Control-Allow-Origin: *"] + Lines(after)
  {
    var c := "Access-Control-Allow-Origin: *";
    assert NoCr(c);
    assert AllowOrigin + after == c + "\r\n" + after;
    LinesCons(c, after);
  }

  lemma ReadBackAssoc(s: string, hs: seq<string>, c: string, b: seq<string>)
    ensures [s] + (hs + ([c] + b)) == [s] + hs + [c] + b
  {
  }

  lemma StatusTextNoCr(code: nat)
    ensures NoCr(StatusText(code, StatusCodeToStr(code)))
  {
    PhraseNoCr(code);
    Message.StatusTextNoCr(code, StatusCodeToStr(code));
  }

  lemma PhraseNoCr(code: int)
    ensures NoCr(StatusCodeToStr(code))
  {
    match code
    case 200 => assert NoCr("OK");
    case 400 => assert NoCr("Bad Request");
    case 404 => assert NoCr("Not found");
    case 411 => assert NoCr("Length Required");
    case 413 => assert NoCr("Payload Too Large");
    case 500 => assert NoCr("Internal Error");
    case _ => assert NoCr("Unknow");
  }

  /** The body lines and the empty line after them read back as the body
      texts and an empty line. */
  lemma BodyLinesRead(n: nat, t: ContentType)
    ensures Lines(BodyLines(n, t) + "\r\n") == BodyTexts(n, t) + [""]
  {
    EmptyLineRead();
    if n > 0 && t == NoContentType {
      UntypedBodyRead(n);
    } else if n > 0 {
      TypedBodyRead(n, t);
    }
  }

  lemma UntypedBodyRead(n: nat)
    requires n > 0
    ensures Lines(BodyLines(n, NoContentType) + "\r\n") == ["Content-Length: " + NatToString(n), ""]
  {
    var cl := "Content-Length: " + NatToString(n);
    LengthNoCr(n);
    EmptyLineRead();
    LinesCons(cl, "\r\n");
  }

  lemma TypedBodyRead(n: nat, t: ContentType)
    requires n > 0 && t != NoContentType
    ensures Lines(BodyLines(n, t) + "\r\n") == ["Content-Length: " + NatToString(n), "Content-Type: " + ContentTypeName(t), ""]
  {
    var cl := "Content-Length: " + NatToString(n);
    var ct := "Content-Type: " + ContentTypeName(t);
    LengthNoCr(n);
    TypedBodySplit(n, t);
    TypeLineRead(t);
    LinesCons(cl, ct + "\r\n" + "\r\n");
  }

  lemma TypedBodySplit(n: nat, t: ContentType)
    requires n > 0 && t != NoContentType
    ensures BodyLines(n, t) + "\r\n" ==
      "Content-Length: " + NatToString(n) + "\r\n" + ("Content-Type: " + ContentTypeName(t) + "\r\n" + "\r\n")
  {
  }

  lemma TypeLineRead(t: ContentType)
    requires t != NoContentType
    ensures Lines("Content-Type: " + ContentTypeName(t) + "\r\n" + "\r\n") == ["Content-Type: " + ContentTypeName(t), ""]
  {
    TypeNoCr(t);
    EmptyLineRead();
    LinesCons("Content-Type: " + ContentTypeName(t), "\r\n");
  }

  lemma LengthNoCr(n: nat)
    ensures NoCr("Content-Length: " + NatToString(n))
  {
    DigitsNoCr(NatToString(n));
  }

  lemma TypeNoCr(t: ContentType)
    ensures NoCr("Content-Type: " + ContentTypeName(t))
  {
  }

  lemma AllowOriginEnds()
    ensures |AllowOrigin| >= 2 && AllowOrigin[|AllowOrigin| - 2..] == "\r\n"
  {
  }

  /** A status line, then lines that end in CRLF, then the empty line. */
  lemma Framed(status: string, headers: string, last: string, opt: string)
    requires |status| > 9 && status[..9] == "HTTP/1.1 "
    requires |last| >= 2 && last[|last| - 2..] == "\r\n"
    requires opt == [] || (|opt| >= 2 && opt[|opt| - 2..] == "\r\n")
    ensures var r := status + (headers + last + opt) + "\r\n";
      |r| > 13 && r[..9] == "HTTP/1.1 " && r[|r| - 4..] == "\r\n\r\n"
  {
    var mid := headers + last + opt;
    var r := status + mid + "\r\n";
    if opt == [] {
      assert mid[|mid| - 2..] == last[|last| - 2..];
    } else {
      assert mid[|mid| - 2..] == opt[|opt| - 2..];
    }
    assert r[..9] == status[..9];
    assert r[|r| - 4..] == mid[|mid| - 2..] + "\r\n";
  }

  /** The block of a response with a body is the block of the same response
      without one, with the Content-Length line and the Content-Type line of
      its type inserted before the final empty line. */
  lemma HeadWithBody(resp: Response, n: nat)
    requires n > 0
    ensures var bare := Head(resp, 0);
      Head(resp, n) == bare[..|bare| - 2] + ContentLengthLine(n) + ContentTypeLine(resp.contentType) + "\r\n"
  {
    var status, mid := StatusLine(resp.code), HeaderLines(resp.headers) + AllowOrigin;
    var extra := ContentLengthLine(n) + ContentTypeLine(resp.contentType);
    BodyLinesSplit(n, resp.contentType);
    assert Head(resp, 0) == status + (mid + []) + "\r\n";
    assert Head(resp, n) == status + (mid + extra) + "\r\n";
    Insert(status, mid, extra, "\r\n");
  }

  lemma BodyLinesSplit(n: nat, t: ContentType)
    requires n > 0
    ensures BodyLines(n, t) == ContentLengthLine(n) + ContentTypeLine(t)
  {
    if t == NoContentType {
      assert ContentLengthLine(n) + [] == ContentLengthLine(n);
    }
  }

  lemma Insert(a: string, b: string, c: string, d: string)
    ensures var bare := a + (b + []) + d;
      a + (b + c) + d == bare[..|bare| - |d|] + c + d
  {
    var bare := a + (b + []) + d;
    assert bare[..|bare| - |d|] == a + b;
  }

  /** The block the no-argument reader starts with. */
  const FallbackLine := "HTTP/1.1 500 Internal Error \r\n\r\n"

  class Reader {
    const resp: Response
    const line: string
    const bodySize: nat
    var lineWritten: nat
    var bodyWritten: nat
    var state: Phase

    function Shape(): Layout
      reads this
    {
      Layout(|line|, BodyPhase(resp.body), bodySize)
    }

    function At(): Cursor
      reads this
    {
      Cursor(state, lineWritten, bodyWritten)
    }

    /** The block is not empty, the body size is what the body holds, and
        the cursor is consistent. */
    ghost predicate Valid()
      reads this
    {
      && LayoutValid(Shape())
      && CursorValid(At(), Shape())
      && BodySize(resp.body, Opened(bodySize)) == Some(bodySize)
    }

    /** The bytes the reader sends, as far as they live in memory: the block,
        then an in-memory body. */
    ghost function Stream(): string
      reads this
    {
      var p := BodyPhase(resp.body);
      if p == ReadBodyStr || p == ReadBodyBuff then line + MemoryBody(resp.body) else line
    }

    /** How many bytes have been sent so far. */
    ghost function Sent(): nat
      reads this
      requires Valid()
    {
      |line| + bodySize - Remaining(At(), Shape())
    }

    /** `response_reader()`: a bodiless 500 response. */
    constructor ()
      ensures resp == Response(500, [], NoContentType, NoBody) && line == FallbackLine && bodySize == 0
      ensures At() == Start && Valid()
    {
      resp := Response(500, [], NoContentType, NoBody);
      line := FallbackLine;
      bodySize := 0;
      lineWritten := 0;
      bodyWritten := 0;
      state := ReadLine;
    }

    /** The rest of `response_reader(resp)` once the body size is known. */
    constructor Built(resp: Response, bodySize: nat)
      requires BodySize(resp.body, Opened(bodySize)) == Some(bodySize)
      ensures this.resp == resp && this.bodySize == bodySize && line == Head(resp, bodySize)
      ensures At() == Start && Valid()
    {
      this.resp := resp;
      this.bodySize := bodySize;
      line := Head(resp, bodySize);
      lineWritten := 0;
      bodyWritten := 0;
      state := ReadLine;
    }

    /** `response_reader(resp)`, with the outcome of opening and sizing the
        body file given: no reader when either fails. */
    static method Open(resp: Response, file: FileStat) returns (r: Option<Reader>)
      ensures r.None? <==> BodySize(resp.body, file).None?
      ensures r.Some? ==>
        && fresh(r.value) && r.value.resp == resp
        && r.value.bodySize == BodySize(resp.body, file).value
        && r.value.line == Head(resp, r.value.bodySize)
        && r.value.At() == Start && r.value.Valid()
    {
      var size := 0;
      if resp.body.filePath != [] {
        match file
        case Opened(n) =>
          size := n;
        case _ =>
          return None;
      } else if resp.body.str != [] {
        size := |resp.body.str|;
      } else if resp.body.buff.Some? {
        size := |resp.body.buff.value|;
      }
      var reader := new Reader.Built(resp, size);
      return Some(reader);
    }

    /** `has_chunks()`: false exactly in `read_none`, where nothing is left. */
    function HasChunks(): (b: bool)
      reads this
      requires Valid()
      ensures !b <==> state == ReadNone
      ensures !b ==> Remaining(At(), Shape()) == 0
    {
      state != ReadNone
    }

    /** `get_chunk()`: the next unsent bytes, as many as the cursor says are
        left in the current phase; a file body is described by its offset. */
    function GetChunk(): (c: Chunk)
      reads this
      requires Valid()
      ensures ChunkLength(c) == ChunkSize(At(), Shape())
      ensures c.InMemory? ==> Sent() + |c.data| <= |Stream()| && c.data == Stream()[Sent()..Sent() + |c.data|]
      ensures c.FileRange? <==> state == ReadBodyFile
      ensures c.FileRange? ==> |line| + c.offset == Sent()
    {
      match state
      case ReadLine =>
        // in `read_line` the block is never fully sent, so the source's
        // test `_line.size() > _line_written_size` always holds
        HeadSlice(line, Stream(), lineWritten);
        InMemory(line[lineWritten..])
      case ReadBodyFile => FileRange(bodyWritten, bodySize - bodyWritten)
      case ReadBodyStr =>
        BodySlice(line, resp.body.str, bodyWritten);
        InMemory(resp.body.str[bodyWritten..])
      case ReadBodyBuff =>
        BodySlice(line, resp.body.buff.value, bodyWritten);
        InMemory(resp.body.buff.value[bodyWritten..])
      case ReadNone => NoChunk
    }

    /** `next(size)`. */
    method Next(k: nat)
      requires Valid()
      modifies this
      ensures At() == Advance(old(At()), Shape(), k)
      ensures Valid()
    {
      match state
      case ReadLine =>
        lineWritten := lineWritten + k;
        if lineWritten >= |line| {
          if resp.body.filePath != [] {
            state := ReadBodyFile;
          } else if resp.body.str != [] {
            state := ReadBodyStr;
          } else if resp.body.buff.Some? {
            state := ReadBodyBuff;
          } else {
            state := ReadNone;
          }
        }
      case ReadNone =>
      case _ =>
        bodyWritten := bodyWritten + k;
        if bodyWritten >= bodySize {
          state := ReadNone;
        }
    }
  }
}
