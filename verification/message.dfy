/**
 * What `response_reader` and `request_reader` (src/http/response_reader.cpp,
 * src/http/request_reader.cpp) have in common: the body a message carries,
 * its size, and the cursor that `next` advances over the header block and
 * then the body.
 */
module Message {
  import opened Common
  import HttpString

  /** The body fields of a request or response: an in-memory string, a
      shared buffer (null or not) and a file path, empty when unused. */
  datatype Body = Body(str: string, buff: Option<string>, filePath: string)

  const NoBody := Body([], None, [])

  /** What `open` and `filesystem::file_size` give for the body file: its
      size, or the failure of either call. */
  datatype FileStat = Opened(size: nat) | OpenFailed | SizeFailed

  /** The reader's `state`. */
  datatype Phase = ReadNone | ReadLine | ReadBodyStr | ReadBodyBuff | ReadBodyFile

  predicate InBody(p: Phase) {
    p == ReadBodyStr || p == ReadBodyBuff || p == ReadBodyFile
  }

  /** The body phase `next` enters once the header block is sent: the file
      when a path is given, else the string when it is not empty, else the
      buffer when it is not null, else no body at all. */
  function BodyPhase(b: Body): Phase {
    if b.filePath != [] then ReadBodyFile
    else if b.str != [] then ReadBodyStr
    else if b.buff.Some? then ReadBodyBuff
    else ReadNone
  }

  /** The body size the constructor computes, or `None` when it throws
      because the body file cannot be opened or sized. */
  function BodySize(b: Body, file: FileStat): (r: Option<nat>)
    ensures r.None? <==> b.filePath != [] && !file.Opened?
    ensures r.Some? && BodyPhase(b) == ReadNone ==> r.value == 0
  {
    if b.filePath != [] then
      match file
      case Opened(size) => Some(size)
      case _ => None
    else if b.str != [] then Some(|b.str|)
    else if b.buff.Some? then Some(|b.buff.value|)
    else Some(0)
  }

  /** The bytes an in-memory body sends, in order; a file body's bytes are
      not part of the model. */
  function MemoryBody(b: Body): string
    requires BodyPhase(b) == ReadBodyStr || BodyPhase(b) == ReadBodyBuff
  {
    if BodyPhase(b) == ReadBodyStr then b.str else b.buff.value
  }

  /** An in-memory body's size is the length of the bytes it sends. */
  lemma MemoryBodySize(b: Body, file: FileStat)
    requires BodyPhase(b) == ReadBodyStr || BodyPhase(b) == ReadBodyBuff
    ensures BodySize(b, file) == Some(|MemoryBody(b)|)
    ensures BodyPhase(b) == ReadBodyStr ==> |MemoryBody(b)| > 0
  {
  }

  /** One `key: value` line per header, in the order the map is walked. */
  function HeaderLines(headers: seq<(string, string)>): (r: string)
    ensures headers == [] ==> r == []
    ensures |r| >= 4 * |headers|
  {
    if headers == [] then []
    else
      headers[0].0 + ": " + headers[0].1 + "\r\n" + HeaderLines(headers[1..])
  }

  /** The `Content-Length` line, written only for a non-empty body. */
  function ContentLengthLine(size: nat): (r: string)
    ensures size == 0 <==> r == []
  {
    if size > 0 then "Content-Length: " + NatToString(size) + "\r\n" else []
  }

  /** Text without a CR, which a reader keeps within one line. */
  predicate NoCr(s: string) {
    '\r' !in s
  }

  lemma DigitsNoCr(s: string)
    requires AllDigits(s)
    ensures NoCr(s)
  {
    assert forall i :: 0 <= i < |s| ==> s[i] != '\r';
  }

  /** The text of one header line, without its CR LF. */
  function HeaderText(h: (string, string)): string {
    h.0 + ": " + h.1
  }

  function HeaderTexts(hs: seq<(string, string)>): (r: seq<string>)
    ensures |r| == |hs|
    ensures forall i :: 0 <= i < |hs| ==> r[i] == HeaderText(hs[i])
  {
    seq(|hs|, i requires 0 <= i < |hs| => HeaderText(hs[i]))
  }

  predicate HeadersWithoutCr(hs: seq<(string, string)>) {
    forall i :: 0 <= i < |hs| ==> NoCr(hs[i].0) && NoCr(hs[i].1)
  }

  /** How a receiver cuts a block into lines: the bytes up to the first CR,
      which must be followed by LF, then the lines after that CR LF. Bytes
      with no CR LF after them are not a line. */
  function Lines(s: string): seq<string>
    decreases |s|
  {
    var k := HttpString.IndexOf(s, '\r');
    if k < 0 || k + 1 == |s| || s[k + 1] != '\n' then []
    else [s[..k]] + Lines(s[k + 2..])
  }

  /** Text without a CR, followed by CR LF, is read as one line. */
  lemma LinesCons(a: string, b: string)
    requires NoCr(a)
    ensures Lines(a + "\r\n" + b) == [a] + Lines(b)
  {
    var t := a + "\r\n" + b;
    assert forall i :: 0 <= i < |a| ==> t[i] == a[i];
    HttpString.IndexOfAt(t, '\r', |a|);
    assert t[..|a|] == a;
    assert t[|a| + 2..] == b;
  }

  /** CR LF alone is one empty line. */
  lemma EmptyLineRead()
    ensures Lines("\r\n") == [""]
  {
    LinesCons([], []);
    assert [] + "\r\n" + [] == "\r\n";
  }

  /** Two lines without a CR and an empty line are read as such. */
  lemma TwoLinesRead(a: string, b: string)
    requires NoCr(a) && NoCr(b)
    ensures Lines(a + "\r\n" + (b + "\r\n" + "\r\n")) == [a, b, ""]
  {
    EmptyLineRead();
    LinesCons(b, "\r\n");
    LinesCons(a, b + "\r\n" + "\r\n");
  }

  /** The header lines are read back as one `key: value` line per header,
      in order, when no key or value holds a CR. */
  lemma {:induction false} HeaderLinesRead(hs: seq<(string, string)>, rest: string)
    requires HeadersWithoutCr(hs)
    ensures Lines(HeaderLines(hs) + rest) == HeaderTexts(hs) + Lines(rest)
    decreases |hs|
  {
    if hs != [] {
      var tail := hs[1..];
      TailWithoutCr(hs);
      HeaderLinesRead(tail, rest);
      HeaderLineRead(hs, rest);
      HeaderTextsCons(hs);
      ConsAssoc(HeaderText(hs[0]), HeaderTexts(tail), Lines(rest));
    } else {
      assert HeaderLines(hs) + rest == rest;
      assert HeaderTexts(hs) + Lines(rest) == Lines(rest);
    }
  }

  lemma TailWithoutCr(hs: seq<(string, string)>)
    requires hs != [] && HeadersWithoutCr(hs)
    ensures NoCr(hs[0].0) && NoCr(hs[0].1) && HeadersWithoutCr(hs[1..])
  {
    var tail := hs[1..];
    forall i | 0 <= i < |tail|
      ensures NoCr(tail[i].0) && NoCr(tail[i].1)
    {
      assert tail[i] == hs[i + 1];
    }
  }

  /** The first header is read as the first line. */
  lemma HeaderLineRead(hs: seq<(string, string)>, rest: string)
    requires hs != [] && NoCr(hs[0].0) && NoCr(hs[0].1)
    ensures Lines(HeaderLines(hs) + rest) == [HeaderText(hs[0])] + Lines(HeaderLines(hs[1..]) + rest)
  {
    var line, after := HeaderText(hs[0]), HeaderLines(hs[1..]) + rest;
    assert HeaderLines(hs) + rest == line + "\r\n" + after;
    LinesCons(line, after);
  }

  lemma ConsAssoc(x: string, a: seq<string>, b: seq<string>)
    ensures [x] + (a + b) == ([x] + a) + b
  {
  }

  lemma HeaderTextsCons(hs: seq<(string, string)>)
    requires hs != []
    ensures HeaderTexts(hs) == [HeaderText(hs[0])] + HeaderTexts(hs[1..])
  {
  }

  /** The text of a status line: the version, the code and the reason
      phrase. */
  function StatusText(code: nat, phrase: string): string {
    "HTTP/1.1 " + NatToString(code) + " " + phrase
  }

  lemma NoCrJoin(a: string, b: string)
    requires NoCr(a) && NoCr(b)
    ensures NoCr(a + b)
  {
  }

  /** A status line holds no CR when its phrase holds none. */
  lemma StatusTextNoCr(code: nat, phrase: string)
    requires NoCr(phrase)
    ensures NoCr(StatusText(code, phrase))
  {
    var d := NatToString(code);
    DigitsNoCr(d);
    assert NoCr("HTTP/1.1 ") && NoCr(" ");
    NoCrJoin("HTTP/1.1 ", d);
    NoCrJoin("HTTP/1.1 " + d, " ");
    NoCrJoin("HTTP/1.1 " + d + " ", phrase);
  }

  /** The status text once its numeral is given as a string. */
  lemma StatusTextJoin(code: nat, digits: string, phrase: string)
    requires digits == NatToString(code)
    ensures "HTTP/1.1 " + (digits + " " + phrase) == StatusText(code, phrase)
  {
  }

  /** A status line gives back its code and phrase: after "HTTP/1.1 ", the
      bytes up to the next space are digits worth the code, and the bytes
      after that space are the phrase. */
  lemma StatusTextReadsBack(code: nat, phrase: string)
    ensures var t := StatusText(code, phrase);
      var sp := HttpString.IndexOf(t[9..], ' ');
      && t[..9] == "HTTP/1.1 " && 0 < sp && 10 + sp <= |t|
      && HttpString.IntValue(t[9..9 + sp]) == (code, true)
      && t[10 + sp..] == phrase
  {
    var digits := NatToString(code);
    var t := StatusText(code, phrase);
    StatusTextLayout(code, phrase);
    DigitsBeforeSpace(digits, phrase);
    assert t[9..9 + |digits|] == digits;
  }

  lemma StatusTextLayout(code: nat, phrase: string)
    ensures var t := StatusText(code, phrase);
      && t[..9] == "HTTP/1.1 " && t[9..] == NatToString(code) + " " + phrase
      && t[10 + |NatToString(code)|..] == phrase
  {
  }

  /** A numeral followed by a space: the first space is right after it. */
  lemma DigitsBeforeSpace(digits: string, rest: string)
    requires AllDigits(digits)
    ensures HttpString.IndexOf(digits + " " + rest, ' ') == |digits|
  {
    var u := digits + " " + rest;
    assert forall i :: 0 <= i < |digits| ==> u[i] == digits[i] && IsDigit(digits[i]);
    HttpString.IndexOfAt(u, ' ', |digits|);
  }

  /** The unsent rest of the block, read from the stream. */
  lemma HeadSlice(line: string, stream: string, i: nat)
    requires i <= |line| <= |stream| && stream[..|line|] == line
    ensures stream[i..|line|] == line[i..]
  {
    assert forall k :: i <= k < |line| ==> stream[k] == stream[..|line|][k];
  }

  /** The unsent rest of an in-memory body, read from the stream. */
  lemma BodySlice(line: string, body: string, i: nat)
    requires i <= |body|
    ensures (line + body)[|line| + i..|line| + |body|] == body[i..]
  {
  }

  /** What a `chunk` describes: nothing, bytes in memory, or a range of the
      body file. */
  datatype Chunk = NoChunk | InMemory(data: string) | FileRange(offset: nat, size: nat)

  function ChunkLength(c: Chunk): nat {
    match c
    case NoChunk => 0
    case InMemory(data) => |data|
    case FileRange(_, size) => size
  }

  /** The fixed shape of a reader: the length of its header block, the body
      phase that follows it, and the body size. */
  datatype Layout = Layout(lineSize: nat, body: Phase, bodySize: nat)

  predicate LayoutValid(l: Layout) {
    l.lineSize > 0 && l.body != ReadLine && (l.body == ReadNone ==> l.bodySize == 0)
  }

  /** The fields `next` updates: `_state`, `_line_written_size` and
      `_body_written_size`. */
  datatype Cursor = Cursor(phase: Phase, lineWritten: nat, bodyWritten: nat)

  const Start := Cursor(ReadLine, 0, 0)

  /** In the header block the cursor is short of its end and the body is
      untouched; in the body the block is sent and the body cursor is short
      of the body's end, unless the body is empty. */
  predicate CursorValid(c: Cursor, l: Layout) {
    && (c.phase == ReadLine ==> c.lineWritten < l.lineSize && c.bodyWritten == 0)
    && (InBody(c.phase) ==>
          && c.phase == l.body && c.lineWritten >= l.lineSize
          && (c.bodyWritten < l.bodySize || c.bodyWritten == 0 == l.bodySize))
  }

  /** `next(size)`. */
  function Advance(c: Cursor, l: Layout, k: nat): (r: Cursor)
    requires LayoutValid(l) && CursorValid(c, l)
    ensures CursorValid(r, l)
  {
    match c.phase
    case ReadLine =>
      var w := c.lineWritten + k;
      Cursor(if w >= l.lineSize then l.body else ReadLine, w, c.bodyWritten)
    case ReadNone => c
    case _ =>
      var w := c.bodyWritten + k;
      Cursor(if w >= l.bodySize then ReadNone else c.phase, c.lineWritten, w)
  }

  /** The `size` of the chunk `get_chunk` returns. */
  function ChunkSize(c: Cursor, l: Layout): nat
    requires CursorValid(c, l)
  {
    match c.phase
    case ReadLine => l.lineSize - c.lineWritten
    case ReadNone => 0
    case _ => l.bodySize - c.bodyWritten
  }

  /** The bytes still to be sent: the rest of the block and the whole body,
      the rest of the body, or nothing. */
  function Remaining(c: Cursor, l: Layout): nat
    requires CursorValid(c, l)
  {
    match c.phase
    case ReadLine => l.lineSize - c.lineWritten + l.bodySize
    case ReadNone => 0
    case _ => l.bodySize - c.bodyWritten
  }

  /** The phase order `next` never goes back on. */
  function Rank(p: Phase): nat {
    match p
    case ReadLine => 0
    case ReadNone => 2
    case _ => 1
  }

  /** `next(k)` with `k` at most the chunk size consumes exactly `k` bytes,
      only moves forward, and leaves the header block only when it is all
      sent and the body only when it is all sent. */
  lemma AdvanceConsumes(c: Cursor, l: Layout, k: nat)
    requires LayoutValid(l) && CursorValid(c, l) && k <= ChunkSize(c, l)
    ensures var r := Advance(c, l, k);
      && Remaining(r, l) == Remaining(c, l) - k
      && Rank(r.phase) >= Rank(c.phase)
      && (c.phase == ReadLine && r.phase != ReadLine <==> c.phase == ReadLine && k == ChunkSize(c, l))
      && (InBody(c.phase) && r.phase == ReadNone <==> InBody(c.phase) && k == ChunkSize(c, l))
  {
  }

  /** A reader with nothing left to send that still has chunks is at the
      end of an empty body, and one more `next(0)` finishes it. */
  lemma NothingLeft(c: Cursor, l: Layout)
    requires LayoutValid(l) && CursorValid(c, l) && c.phase != ReadNone && Remaining(c, l) == 0
    ensures InBody(c.phase) && l.bodySize == 0 && ChunkSize(c, l) == 0 && Advance(c, l, 0).phase == ReadNone
  {
  }

  /** `next` called once per element of `ks`. */
  function Drain(c: Cursor, l: Layout, ks: seq<nat>): (r: Cursor)
    requires LayoutValid(l) && CursorValid(c, l)
    ensures CursorValid(r, l)
    decreases |ks|
  {
    if ks == [] then c else Drain(Advance(c, l, ks[0]), l, ks[1..])
  }

  /** Every `k` is at most the chunk size at its turn: the caller never
      reports more bytes sent than it was given. */
  predicate Accepted(c: Cursor, l: Layout, ks: seq<nat>)
    requires LayoutValid(l) && CursorValid(c, l)
    decreases |ks|
  {
    ks != [] ==> ks[0] <= ChunkSize(c, l) && Accepted(Advance(c, l, ks[0]), l, ks[1..])
  }

  function Sum(ks: seq<nat>): nat {
    if ks == [] then 0 else ks[0] + Sum(ks[1..])
  }

  /** However the sending is split, the bytes reported sum to what was left
      minus what is still left; from the start, a reader that reaches
      `read_none` has sent exactly the header block and the body. */
  lemma {:induction false} DrainConsumes(c: Cursor, l: Layout, ks: seq<nat>)
    requires LayoutValid(l) && CursorValid(c, l) && Accepted(c, l, ks)
    ensures Sum(ks) + Remaining(Drain(c, l, ks), l) == Remaining(c, l)
    ensures c == Start && Drain(c, l, ks).phase == ReadNone ==> Sum(ks) == l.lineSize + l.bodySize
    decreases |ks|
  {
    if ks != [] {
      AdvanceConsumes(c, l, ks[0]);
      DrainConsumes(Advance(c, l, ks[0]), l, ks[1..]);
    }
  }

  function Ones(n: nat): (r: seq<nat>)
    ensures |r| == n && forall i :: 0 <= i < n ==> r[i] == 1
  {
    if n == 0 then [] else [1] + Ones(n - 1)
  }

  /** Sending one byte at a time, as many times as there are bytes left,
      sends everything; the reader is then done unless it stands in an empty
      body. */
  lemma {:induction false} OneByteAtATime(c: Cursor, l: Layout)
    requires LayoutValid(l) && CursorValid(c, l)
    ensures Accepted(c, l, Ones(Remaining(c, l)))
    ensures var r := Drain(c, l, Ones(Remaining(c, l)));
      Remaining(r, l) == 0 && (r.phase == ReadNone || (InBody(r.phase) && l.bodySize == 0 && r.bodyWritten == 0))
    decreases Remaining(c, l)
  {
    var n := Remaining(c, l);
    if n > 0 {
      var ones := Ones(n);
      assert ones[1..] == Ones(n - 1);
      assert ChunkSize(c, l) > 0 by {
        if c.phase == ReadLine {
        } else {
          assert InBody(c.phase);
        }
      }
      AdvanceConsumes(c, l, 1);
      OneByteAtATime(Advance(c, l, 1), l);
    } else if c.phase == ReadLine {
      assert false;
    }
  }
}
