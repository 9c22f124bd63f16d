/**
 * What the request parser of `http/worker.cpp` guarantees, stated on the
 * functions of `Parser`.
 */
module ParserProps {
  import opened Common
  import opened HttpString
  import opened Request
  import opened Parser
  import Message

  /** How the parse phase, the line state and the wait mode fit together
      between reads. */
  predicate Valid(f: Fields) {
    && (f.state == WriteResponse <==> f.waitState == WaitNone)
    && (f.state == ReadLine ==>
          && (f.waitState == WaitSp || f.waitState == WaitCrlf)
          && (f.lineState == ReadVersion <==> f.waitState == WaitCrlf)
          && (f.lineState != ReadMethod ==> f.lineMethod != NoMethod))
    && (f.state == ReadHeaders ==> f.waitState == WaitCrlf && f.lineMethod != NoMethod)
    && (f.state == ReadBody <==> f.waitState == WaitAll)
    && (f.state == ReadBody ==> f.lineMethod == Post && f.writeSize < f.bodySize)
    && (f.state == ReadLine || f.state == ReadHeaders ==> f.writeSize == 0)
    && f.handlerCalls <= 1
    && (f.handlerCalls == 1 ==> f.state == WriteResponse)
  }

  lemma InitialValid()
    ensures Valid(Initial)
  {
    assert Initial.state == ReadLine && Initial.waitState == WaitSp && Initial.lineState == ReadMethod;
  }

  /** Every token keeps the record consistent. */
  lemma StepKeepsValid(f: Fields, v: Span)
    requires Valid(f) && StepDefined(f, v)
    ensures Valid(Step(f, v))
  {
    match f.state
    case ReadLine => LineStepKeepsValid(f, v);
    case ReadHeaders =>
      if Size(v) > 0 {
        HeaderLineKeepsValid(f, Bytes(v));
      } else {
        BlankLineKeepsValid(f);
      }
    case ReadBody => BodyStepKeepsValid(f, v);
    case WriteResponse =>
  }

  lemma LineStepKeepsValid(f: Fields, v: Span)
    requires Valid(f) && f.state == ReadLine
    ensures Valid(Step(f, v))
  {
  }

  lemma HeaderLineKeepsValid(f: Fields, t: string)
    requires Valid(f) && f.state == ReadHeaders
    ensures Valid(HeaderLine(f, t))
  {
  }

  lemma BlankLineKeepsValid(f: Fields)
    requires Valid(f) && f.state == ReadHeaders
    ensures Valid(BlankLine(f))
  {
  }

  lemma BodyStepKeepsValid(f: Fields, v: Span)
    requires Valid(f) && f.state == ReadBody && StepDefined(f, v)
    ensures Valid(Step(f, v))
  {
  }

  /** A method token that is neither POST nor GET ends the parse with 400. */
  lemma UnknownMethodRejected(f: Fields, v: Span)
    requires f.state == ReadLine && f.lineState == ReadMethod
    requires !EqualsIgnoreCase(Bytes(v), "post") && !EqualsIgnoreCase(Bytes(v), "get")
    ensures var g := Step(f, v);
      g.respCode == 400 && g.state == WriteResponse && g.waitState == WaitNone && g.lineMethod == NoMethod
  {
  }

  /** The request line is read as method (up to a space), target (up to a
      space) and version (up to CRLF), and then the headers (up to CRLF). */
  lemma RequestLineOrder(m: Span, u: Span, ver: Span)
    requires StrToRequestMethod(m) != NoMethod
    ensures var f1 := Step(Initial, m);
      var f2 := Step(f1, u);
      var f3 := Step(f2, ver);
      && f1.lineState == ReadUri && f1.waitState == WaitSp && f1.lineMethod == StrToRequestMethod(m)
      && f2.lineState == ReadVersion && f2.waitState == WaitCrlf && f2.uri == Bytes(u)
      && f3.state == ReadHeaders && f3.waitState == WaitCrlf && f3.version == Bytes(ver)
      && f3.lineMethod == StrToRequestMethod(m) && f3.uri == Bytes(u)
  {
  }

  /** A Content-Length line whose value is a decimal number in range sets
      the declared body size to that number, whatever the case of the name
      and however many spaces and colons follow it. */
  lemma ContentLengthRead(f: Fields, name: string, seps: string, n: nat)
    requires |name| == 14 && EqualsIgnoreCase(name, ContentLength)
    requires |seps| > 0 && forall j :: 0 <= j < |seps| ==> IsSeparator(seps[j])
    requires n + '0' as int <= IntMax
    ensures HeaderLine(f, name + seps + NatToString(n)) == f.(bodySize := n)
  {
    var t := name + seps + NatToString(n);
    assert t[..14] == name;
    var digits := NatToString(n);
    SkipOver(t, 15, |name + seps|);
    assert t[|name + seps|..] == digits;
    ConvertSpec(digits);
  }

  /** The block `handle_out` writes, read back line by line: the status
      line, whose code and phrase read back (`Message.StatusTextReadsBack`),
      a Content-Length line exactly when there is a body, and the empty
      line. */
  lemma StatusBlockReadsBack(code: nat, bodySize: Option<nat>)
    ensures bodySize.None? ==>
      Message.Lines(StatusLine(code, bodySize)) == [Message.StatusText(code, StatusCodeToStr(code)), ""]
    ensures bodySize.Some? ==>
      Message.Lines(StatusLine(code, bodySize)) ==
        [Message.StatusText(code, StatusCodeToStr(code)), ContentLength + ": " + NatToString(bodySize.value), ""]
  {
    if bodySize.None? {
      PlainBlockRead(code);
    } else {
      LengthBlockRead(code, bodySize.value);
    }
  }

  /** The Content-Length line of that block, given to the server's own
      header parser, yields the body size. */
  lemma LengthLineParsed(f: Fields, code: nat, n: nat)
    requires n + '0' as int <= IntMax
    ensures |Message.Lines(StatusLine(code, Some(n)))| > 1
    ensures HeaderLine(f, Message.Lines(StatusLine(code, Some(n)))[1]) == f.(bodySize := n)
  {
    LengthBlockRead(code, n);
    ContentLengthRead(f, ContentLength, ": ", n);
  }

  lemma PlainBlockRead(code: nat)
    ensures Message.Lines(StatusLine(code, None)) == [Message.StatusText(code, StatusCodeToStr(code)), ""]
  {
    var s := Message.StatusText(code, StatusCodeToStr(code));
    StatusNoCr(code);
    Message.EmptyLineRead();
    PlainBlockSplit(code);
    Message.LinesCons(s, "\r\n");
  }

  lemma PlainBlockSplit(code: nat)
    ensures StatusLine(code, None) == Message.StatusText(code, StatusCodeToStr(code)) + "\r\n" + "\r\n"
  {
    Message.StatusTextJoin(code, IntToString(code), StatusCodeToStr(code));
  }

  lemma LengthBlockRead(code: nat, n: nat)
    ensures Message.Lines(StatusLine(code, Some(n))) ==
      [Message.StatusText(code, StatusCodeToStr(code)), ContentLength + ": " + NatToString(n), ""]
  {
    StatusNoCr(code);
    StatusBlockSplit(code, n);
    LengthNoCr(n);
    Message.TwoLinesRead(Message.StatusText(code, StatusCodeToStr(code)), ContentLength + ": " + NatToString(n));
  }

  lemma StatusNoCr(code: nat)
    ensures Message.NoCr(Message.StatusText(code, StatusCodeToStr(code)))
  {
    PhraseNoCr(code);
    Message.StatusTextNoCr(code, StatusCodeToStr(code));
  }

  lemma PhraseNoCr(code: int)
    ensures Message.NoCr(StatusCodeToStr(code))
  {
    match code
    case 200 => assert Message.NoCr("OK");
    case 400 => assert Message.NoCr("Bad Request");
    case 404 => assert Message.NoCr("Not found");
    case 500 => assert Message.NoCr("Internal Error");
    case _ => assert Message.NoCr("Unknow");
  }

  lemma LengthNoCr(n: nat)
    ensures Message.NoCr(ContentLength + ": " + NatToString(n))
  {
    Message.DigitsNoCr(NatToString(n));
  }

  lemma StatusBlockSplit(code: nat, n: nat)
    ensures StatusLine(code, Some(n)) == Message.StatusText(code, StatusCodeToStr(code)) + "\r\n"
      + (ContentLength + ": " + NatToString(n) + "\r\n" + "\r\n")
  {
    var cl := ContentLength + ": " + NatToString(n);
    Message.StatusTextJoin(code, IntToString(code), StatusCodeToStr(code));
    assert "Content-Length: " + NatToString(n) + "\r\n" == cl + "\r\n";
    Regroup("HTTP/1.1 " + (IntToString(code) + " " + StatusCodeToStr(code)), "\r\n", cl + "\r\n", "\r\n");
  }

  lemma Regroup(p: string, e: string, l: string, e2: string)
    ensures p + e + l + e2 == p + e + (l + e2)
  {
  }

  lemma {:induction false} SkipOver(t: string, from: nat, to: nat)
    requires from <= to <= |t|
    requires forall k :: from <= k < to ==> IsSeparator(t[k])
    requires to < |t| ==> !IsSeparator(t[to])
    ensures SkipSeparators(t, from) == to
    decreases |t| - from
  {
    if from < to {
      SkipOver(t, from + 1, to);
    }
  }

  /** A Content-Length value with a byte that is not a digit, reached
      before the conversion overflows, ends the parse with 400. */
  lemma ContentLengthNotDigit(f: Fields, t: string)
    requires IsContentLength(t)
    requires Convert(t[SkipSeparators(t, 15)..], 0, 0).NotDigit?
    ensures HeaderLine(f, t) == Failed(f, 400)
    ensures !AllDigits(t[SkipSeparators(t, 15)..])
  {
    ConvertSpec(t[SkipSeparators(t, 15)..]);
  }

  /** Any other header line is stored under its key unless the key is empty
      or already stored: the first value for a key wins. */
  lemma HeaderStored(f: Fields, t: string)
    requires !IsContentLength(t) && SplitHeader(t).Some?
    ensures var kv := SplitHeader(t).value;
      var g := HeaderLine(f, t);
      && g.headers.Keys == f.headers.Keys + (if kv.0 == [] then {} else {kv.0})
      && (forall k :: k in f.headers ==> g.headers[k] == f.headers[k])
      && (kv.0 != [] && kv.0 !in f.headers ==> g.headers[kv.0] == kv.1)
      && g == f.(headers := g.headers)
  {
  }

  /** The empty line after the headers: a POST with a declared body goes on
      to read it. */
  lemma BlankLinePostWithBody(f: Fields, v: Span)
    requires f.state == ReadHeaders && Size(v) == 0 && f.lineMethod == Post && f.bodySize > 0
    ensures Step(f, v) == f.(state := ReadBody, waitState := WaitAll)
  {
  }

  /** A GET without a declared body is handed to the handler with the
      accumulated buffer as its body. */
  lemma BlankLineGet(f: Fields, v: Span)
    requires f.state == ReadHeaders && Size(v) == 0 && f.lineMethod == Get && f.bodySize == 0
    ensures var g := Step(f, v);
      g.state == WriteResponse && g.handlerCalls == f.handlerCalls + 1 && g.body == f.buff && g.faulted == f.faulted
  {
  }

  /** A POST without a declared body, or a GET with one, is answered with
      400 and the handler is not called. */
  lemma BlankLineRejected(f: Fields, v: Span)
    requires f.state == ReadHeaders && Size(v) == 0 && f.lineMethod != NoMethod
    requires (f.lineMethod == Post) == (f.bodySize == 0)
    ensures var g := Step(f, v);
      g.state == WriteResponse && g.respCode == 400 && g.handlerCalls == f.handlerCalls && g.faulted == f.faulted
  {
  }

  /** The `assert(false)` on the empty line is unreachable: a record in
      `read_headers` always has a method. */
  lemma BlankLineNeverFaults(f: Fields, v: Span)
    requires Valid(f) && f.state == ReadHeaders && Size(v) == 0 && !f.faulted
    ensures !Step(f, v).faulted
  {
  }

  /** Body bytes are appended to the buffer; once the count received
      reaches the declared size the buffer becomes the body and the handler
      runs, exactly once. */
  lemma BodyCompletes(f: Fields, v: Span)
    requires Valid(f) && f.state == ReadBody && StepDefined(f, v)
    requires BuffAppended(f, v).1
    ensures var g := Step(f, v);
      var contents := if f.buff.Some? then f.buff.value + Bytes(v) else Bytes(v);
      && g.writeSize == f.writeSize + Size(v)
      && (g.writeSize >= f.bodySize ==> g.state == WriteResponse && g.body == Some(contents) && g.handlerCalls == 1)
      && (g.writeSize < f.bodySize ==> g.state == ReadBody && g.buff == Some(contents) && g.handlerCalls == 0)
  {
  }

  /** Within one read, a token that the buffer does not hold yet and that
      ends at a space goes to `go_next` without that space, and scanning
      resumes after it with the flags cleared. */
  lemma {:induction false} ScanSpaceToken(f: Fields, fl: Flags, input: string, i: nat, pos: nat, j: nat, sp: nat)
    requires f.waitState == WaitSp && !fl.needProcess && !f.faulted && f.buff.None?
    requires pos <= i <= j < |input| && input[j] == ' '
    requires forall k :: i <= k < j ==> input[k] != ' '
    ensures Scan(f, fl, input, i, pos, sp) ==
            Scan(Step(f, View(input, pos, j - pos)), Clear, input, j + 1, j + 1, 1)
    decreases j - i
  {
    if i < j {
      ScanSpaceToken(f, fl, input, i + 1, pos, j, sp);
    }
  }

  /** In `wait_crlf`, a CR that LF does not follow ends nothing: the noted
      CR is dropped and scanning goes on at the next byte, within the same
      token. */
  lemma ScanCrNotLf(f: Fields, fl: Flags, input: string, i: nat, pos: nat, sp: nat)
    requires pos <= i < |input|
    requires f.waitState == WaitCrlf && !f.faulted && fl.gotCr && !fl.needProcess && input[i] != '\n'
    ensures Scan(f, fl, input, i, pos, sp) == Scan(f, fl.(gotCr := false), input, i + 1, pos, sp)
  {
  }

  /** Likewise for a token that ends at CR LF: it goes to `go_next` without
      the CR LF. */
  lemma ScanCrlfToken(f: Fields, fl: Flags, input: string, i: nat, pos: nat, j: nat, sp: nat)
    requires f.waitState == WaitCrlf && !fl.needProcess && !fl.gotCr && !f.faulted && f.buff.None?
    requires pos <= i <= j && j + 1 < |input| && input[j] == '\r' && input[j + 1] == '\n'
    requires forall k :: i <= k < j ==> input[k] != '\r'
    ensures Scan(f, fl, input, i, pos, sp) ==
            Scan(Step(f, View(input, pos, j - pos)), Clear, input, j + 2, j + 2, 2)
  {
    ScanCrlfTokenWithCr(f, fl, input, i, pos, j, sp);
  }

  /** The same for a token that holds a CR: a CR that a byte other than CR
      or LF follows stays part of the token. */
  lemma {:induction false} ScanCrlfTokenWithCr(f: Fields, fl: Flags, input: string, i: nat, pos: nat, j: nat, sp: nat)
    requires f.waitState == WaitCrlf && !fl.needProcess && !fl.gotCr && !f.faulted && f.buff.None?
    requires pos <= i <= j && j + 1 < |input| && input[j] == '\r' && input[j + 1] == '\n'
    requires forall k :: i <= k < j && input[k] == '\r' ==> k + 1 < j && input[k + 1] != '\n' && input[k + 1] != '\r'
    ensures Scan(f, fl, input, i, pos, sp) ==
            Scan(Step(f, View(input, pos, j - pos)), Clear, input, j + 2, j + 2, 2)
    decreases j - i
  {
    if i < j {
      if input[i] == '\r' {
        assert Scan(f, fl, input, i, pos, sp) == Scan(f, fl.(gotCr := true), input, i + 1, pos, sp);
        ScanCrNotLf(f, fl.(gotCr := true), input, i + 1, pos, sp);
        assert fl.(gotCr := true).(gotCr := false) == fl;
        ScanCrlfTokenWithCr(f, fl, input, i + 2, pos, j, sp);
      } else {
        ScanCrlfTokenWithCr(f, fl, input, i + 1, pos, j, sp);
      }
    } else {
      var cr := fl.(gotCr := true);
      assert Scan(f, fl, input, j, pos, sp) == Scan(f, cr, input, j + 1, pos, sp);
      assert Scan(f, cr, input, j + 1, pos, sp) == Process(f, cr.(needProcess := true), input, j + 1, pos, 2);
    }
  }

  lemma {:induction false} ScanKeepsValid(f: Fields, fl: Flags, input: string, i: nat, pos: nat, sp: nat)
    requires pos <= i <= |input| && Valid(f)
    ensures Valid(Scan(f, fl, input, i, pos, sp).f)
    decreases |input| - i, 2
  {
    if i == |input| || f.faulted {
    } else {
      match f.waitState
      case WaitAll =>
      case WaitNone =>
      case WaitSp =>
        if input[i] == ' ' {
          ProcessKeepsValid(f, fl.(needProcess := true), input, i, pos, 1);
        } else {
          ProcessKeepsValid(f, fl, input, i, pos, sp);
        }
      case WaitCrlf =>
        if !fl.gotCr {
          if input[i] == '\r' {
            ScanKeepsValid(f, fl.(gotCr := true), input, i + 1, pos, sp);
          } else {
            ProcessKeepsValid(f, fl, input, i, pos, sp);
          }
        } else if input[i] == '\n' {
          ProcessKeepsValid(f, fl.(needProcess := true), input, i, pos, 2);
        } else {
          ProcessKeepsValid(f, fl.(gotCr := false), input, i, pos, sp);
        }
    }
  }

  lemma {:induction false} ProcessKeepsValid(f: Fields, fl: Flags, input: string, i: nat, pos: nat, sp: nat)
    requires pos <= i < |input| && Valid(f)
    requires f.waitState == WaitSp || f.waitState == WaitCrlf
    ensures Valid(Process(f, fl, input, i, pos, sp).f)
    decreases |input| - i, 1
  {
    if !fl.needProcess {
      ScanKeepsValid(f, fl, input, i + 1, pos, sp);
    } else if i - pos + 1 >= sp {
      DeliverKeepsValid(f, fl, input, i, pos, sp);
    }
  }

  /** A finished token handed to `go_next`, directly or through the
      accumulation buffer, keeps the record consistent. */
  lemma {:induction false} DeliverKeepsValid(f: Fields, fl: Flags, input: string, i: nat, pos: nat, sp: nat)
    requires pos <= i < |input| && Valid(f) && fl.needProcess && i - pos + 1 >= sp
    requires f.waitState == WaitSp || f.waitState == WaitCrlf
    ensures Valid(Process(f, fl, input, i, pos, sp).f)
    decreases |input| - i, 0
  {
    var size := i - pos + 1;
    var token := View(input, pos, size - sp);
    if f.buff.None? {
      StepKeepsValid(f, token);
      ScanKeepsValid(Step(f, token), Clear, input, i + 1, pos + size, sp);
    } else if BuffAppended(f, token).1 {
      var g := BuffAppended(f, token).0;
      StepKeepsValid(g, Whole(g.buff.value));
      ScanKeepsValid(Step(g, Whole(g.buff.value)), Clear, input, i + 1, pos + size, sp);
    }
  }

  /** A whole read keeps the record consistent, and once the response is
      due a read changes nothing. */
  lemma AfterReadKeepsValid(f: Fields, fl: Flags, input: string)
    requires Valid(f)
    ensures Valid(AfterRead(f, fl, input).0)
    ensures f.state == WriteResponse ==> AfterRead(f, fl, input) == (f, fl)
  {
    if f.state != WriteResponse && input != [] {
      var scanned := Scan(f, fl, input, 0, 0, 0);
      ScanKeepsValid(f, fl, input, 0, 0, 0);
      var g := scanned.f;
      if !g.faulted && g.waitState != WaitNone && scanned.pos + 1 < |input| && g.waitState == WaitAll {
        StepKeepsValid(g, View(input, scanned.pos, |input| - scanned.pos));
      }
    }
  }

  /** Bytes that do not end a CRLF token are passed over. */
  lemma {:induction false} ScanCrlfSkips(f: Fields, fl: Flags, input: string, i: nat, pos: nat, j: nat, sp: nat)
    requires f.waitState == WaitCrlf && !fl.needProcess && !fl.gotCr && !f.faulted
    requires pos <= i <= j <= |input|
    requires forall k :: i <= k < j ==> input[k] != '\r'
    ensures Scan(f, fl, input, i, pos, sp) == Scan(f, fl, input, j, pos, sp)
    decreases j - i
  {
    if i < j {
      ScanCrlfSkips(f, fl, input, i + 1, pos, j, sp);
    }
  }

  /** The request line of a GET, split into its three tokens. */
  lemma GetRequestLine(input: string)
    requires input == "GET / HTTP/1.1\r\n\r\n"
    ensures Scan(Initial, Clear, input, 0, 0, 0) ==
            Scan(Initial.(lineMethod := Get, uri := "/", version := "HTTP/1.1", state := ReadHeaders,
                          lineState := ReadVersion, waitState := WaitCrlf),
                 Clear, input, 16, 16, 2)
  {
    assert input[..6] == "GET / ";
    MethodAndTarget(input);
    var f2 := Initial.(lineMethod := Get, uri := "/", lineState := ReadVersion, waitState := WaitCrlf);
    ScanCrlfToken(f2, Clear, input, 6, 6, 14, 1);
    assert Bytes(View(input, 6, 8)) == "HTTP/1.1";
  }

  /** A whole GET request in one read reaches the handler with its method,
      target and version. */
  lemma GetInOneRead()
    ensures var r := AfterRead(Initial, Clear, "GET / HTTP/1.1\r\n\r\n").0;
      && r.state == WriteResponse && r.handlerCalls == 1 && !r.faulted
      && r.lineMethod == Get && r.uri == "/" && r.version == "HTTP/1.1"
  {
    var input := "GET / HTTP/1.1\r\n\r\n";
    GetRequestLine(input);
    var f3 := Initial.(lineMethod := Get, uri := "/", version := "HTTP/1.1", state := ReadHeaders,
                       lineState := ReadVersion, waitState := WaitCrlf);
    ScanCrlfToken(f3, Clear, input, 16, 16, 16, 2);
    var f4 := Step(f3, View(input, 16, 0));
    assert f4 == Succeeded(f3);
    assert Scan(f4, Clear, input, 18, 18, 2) == Scanned(f4, Clear, 18);
  }

  /** As written, a read that ends one byte into a token drops that byte:
      "G" then "ET / HTTP/1.1" CR LF CR LF is a request with method "ET",
      answered with 400, although the same bytes in one read succeed. */
  lemma SplitReadDropsByte()
    ensures AfterRead(Initial, Clear, "G") == (Initial, Clear)
    ensures var r := AfterRead(Initial, Clear, "ET / HTTP/1.1\r\n\r\n").0;
      r.state == WriteResponse && r.respCode == 400 && r.handlerCalls == 0
  {
    assert Scan(Initial, Clear, "G", 0, 0, 0) == Scanned(Initial, Clear, 0);
    var input := "ET / HTTP/1.1\r\n\r\n";
    ScanSpaceToken(Initial, Clear, input, 0, 0, 2, 0);
    assert Bytes(View(input, 0, 2)) == "ET";
    var f1 := Step(Initial, View(input, 0, 2));
    assert f1.waitState == WaitNone;
    assert Scan(f1, Clear, input, 3, 3, 1) == Scanned(f1, Clear, 3);
  }

  /** As written, a CR LF split between two reads makes the token length
      wrap around: undefined behaviour. */
  lemma SplitCrlfFaults()
    ensures var first := AfterRead(Initial, Clear, "GET / HTTP/1.1\r");
      AfterRead(first.0, first.1, "\n\r\n").0.faulted
  {
    var f := CrAtEndOfRead();
    LfAtStartFaults(f);
  }

  /** A read that ends with the CR of the request line leaves the version
      in the accumulation buffer and the CR noted. */
  lemma CrAtEndOfRead() returns (f3: Fields)
    ensures AfterRead(Initial, Clear, "GET / HTTP/1.1\r") == (f3, Clear.(gotCr := true))
    ensures f3.waitState == WaitCrlf && f3.state == ReadLine && !f3.faulted
  {
    var input := "GET / HTTP/1.1\r";
    assert input[..6] == "GET / ";
    var f2 := Initial.(lineMethod := Get, uri := "/", lineState := ReadVersion, waitState := WaitCrlf);
    MethodAndTarget(input);
    VersionUpToCr(input, f2);
    assert input[6] == 'H';
    TailBuffered(f2, input, 6);
    f3 := f2.(buff := Some(input[6..]));
  }

  /** Outside `wait_all`, the rest of a read is kept in a new accumulation
      buffer. */
  lemma TailBuffered(f: Fields, input: string, pos: nat)
    requires pos + 1 < |input| && input[pos] != '\0'
    requires f.waitState == WaitCrlf && !f.faulted && f.buff.None?
    ensures Tail(f, input, pos) == f.(buff := Some(input[pos..]))
  {
    var rest: Span := View(input, pos, |input| - pos);
    assert Bytes(rest) == input[pos..];
  }

  /** The method and target tokens of a request line that starts "GET / ". */
  lemma MethodAndTarget(input: string)
    requires |input| >= 6 && input[..6] == "GET / "
    ensures Scan(Initial, Clear, input, 0, 0, 0) ==
      Scan(Initial.(lineMethod := Get, uri := "/", lineState := ReadVersion, waitState := WaitCrlf), Clear, input, 6, 6, 1)
  {
    var p := input[..6];
    assert input[0] == p[0] && input[1] == p[1] && input[2] == p[2] && input[3] == p[3];
    assert input[4] == p[4] && input[5] == p[5];
    GetToken(input);
    SlashToken(input);
  }

  lemma GetToken(input: string)
    requires |input| >= 4 && input[0] == 'G' && input[1] == 'E' && input[2] == 'T' && input[3] == ' '
    ensures Scan(Initial, Clear, input, 0, 0, 0) ==
      Scan(Initial.(lineMethod := Get, lineState := ReadUri, waitState := WaitSp), Clear, input, 4, 4, 1)
  {
    ScanSpaceToken(Initial, Clear, input, 0, 0, 3, 0);
    assert Bytes(View(input, 0, 3)) == "GET";
  }

  lemma SlashToken(input: string)
    requires |input| >= 6 && input[4] == '/' && input[5] == ' '
    ensures var f1 := Initial.(lineMethod := Get, lineState := ReadUri, waitState := WaitSp);
      Scan(f1, Clear, input, 4, 4, 1) ==
      Scan(Initial.(lineMethod := Get, uri := "/", lineState := ReadVersion, waitState := WaitCrlf), Clear, input, 6, 6, 1)
  {
    var f1 := Initial.(lineMethod := Get, lineState := ReadUri, waitState := WaitSp);
    ScanSpaceToken(f1, Clear, input, 4, 4, 5, 1);
    assert Bytes(View(input, 4, 1)) == "/";
  }

  lemma VersionUpToCr(input: string, f2: Fields)
    requires input == "GET / HTTP/1.1\r"
    requires f2.waitState == WaitCrlf && f2.state == ReadLine && !f2.faulted
    ensures Scan(f2, Clear, input, 6, 6, 1) == Scanned(f2, Clear.(gotCr := true), 6)
  {
    ScanCrlfSkips(f2, Clear, input, 6, 6, 14, 1);
    assert Scan(f2, Clear, input, 14, 6, 1) == Scanned(f2, Clear.(gotCr := true), 6);
  }

  /** An LF at the start of a read after a noted CR ends a token of length
      0 - 2: the fault. */
  lemma LfAtStartFaults(f: Fields)
    requires f.waitState == WaitCrlf && f.state != WriteResponse && !f.faulted
    ensures AfterRead(f, Clear.(gotCr := true), "\n\r\n").0.faulted
  {
    assert Scan(f, Clear.(gotCr := true), "\n\r\n", 0, 0, 0).f.faulted;
  }

  /** A CR inside the version that a plain byte follows stays in the
      version: "GET / HTTP/1.1" CR "X" CR LF CR LF reaches the handler with
      the version "HTTP/1.1" CR "X". */
  lemma StrayCrInVersion()
    ensures var r := AfterRead(Initial, Clear, "GET / HTTP/1.1\rX\r\n\r\n").0;
      && r.state == WriteResponse && r.handlerCalls == 1 && !r.faulted
      && r.version == "HTTP/1.1\rX"
  {
    var input := "GET / HTTP/1.1\rX\r\n\r\n";
    StrayCrLine(input);
    var f3 := Initial.(lineMethod := Get, uri := "/", version := "HTTP/1.1\rX", state := ReadHeaders,
                       lineState := ReadVersion, waitState := WaitCrlf);
    ScanCrlfToken(f3, Clear, input, 18, 18, 18, 2);
    var f4 := Step(f3, View(input, 18, 0));
    assert f4 == Succeeded(f3);
    assert Scan(f4, Clear, input, 20, 20, 2) == Scanned(f4, Clear, 20);
  }

  lemma StrayCrLine(input: string)
    requires input == "GET / HTTP/1.1\rX\r\n\r\n"
    ensures Scan(Initial, Clear, input, 0, 0, 0) ==
            Scan(Initial.(lineMethod := Get, uri := "/", version := "HTTP/1.1\rX", state := ReadHeaders,
                          lineState := ReadVersion, waitState := WaitCrlf),
                 Clear, input, 18, 18, 2)
  {
    assert input[..6] == "GET / ";
    MethodAndTarget(input);
    var f2 := Initial.(lineMethod := Get, uri := "/", lineState := ReadVersion, waitState := WaitCrlf);
    ScanCrlfTokenWithCr(f2, Clear, input, 6, 6, 16, 1);
    assert Bytes(View(input, 6, 10)) == "HTTP/1.1\rX";
  }

  /** The head of a POST for "/" that declares a body of `n` bytes and
      nothing else. */
  function PostHead(n: nat): string {
    "POST / HTTP/1.1\r\n" + ContentLength + ": " + NatToString(n) + "\r\n\r\n"
  }

  /** The record once that head is parsed: a POST for "/" waiting for its
      `n` body bytes. */
  function PostHeadRead(n: nat): Fields {
    Initial.(lineMethod := Post, uri := "/", version := "HTTP/1.1", lineState := ReadVersion,
             state := ReadBody, waitState := WaitAll, bodySize := n)
  }

  /** The loop reads the whole POST head and stops in `wait_all` right
      after it, whatever follows in the same read. */
  lemma PostHeadScanned(n: nat, rest: string)
    requires 0 < n && n + '0' as int <= IntMax
    ensures Scan(Initial, Clear, PostHead(n) + rest, 0, 0, 0) == Scanned(PostHeadRead(n), Clear, |PostHead(n)|)
  {
    var input := PostHead(n) + rest;
    var cl := ContentLength + ": " + NatToString(n);
    var l := |cl|;
    PostHeadLayout(n, rest);
    PostLine(input);
    var f3 := Initial.(lineMethod := Post, uri := "/", version := "HTTP/1.1", lineState := ReadVersion,
                       state := ReadHeaders, waitState := WaitCrlf);
    PostLengthHeader(f3, input, n);
    PostBlankLine(f3.(bodySize := n), input, 19 + l);
  }

  /** Where the parts of a POST head sit in a read that starts with it. */
  lemma PostHeadLayout(n: nat, rest: string)
    ensures var input := PostHead(n) + rest;
      var l := |ContentLength + ": " + NatToString(n)|;
      && |PostHead(n)| == 21 + l && input[..17] == "POST / HTTP/1.1\r\n"
      && input[17..17 + l] == ContentLength + ": " + NatToString(n)
      && input[17 + l..21 + l] == "\r\n\r\n"
  {
    var cl := ContentLength + ": " + NatToString(n);
    var input := PostHead(n) + rest;
    assert input == "POST / HTTP/1.1\r\n" + cl + "\r\n\r\n" + rest;
  }

  /** The request line of that POST, split into its three tokens. */
  lemma PostLine(input: string)
    requires |input| >= 17 && input[..17] == "POST / HTTP/1.1\r\n"
    ensures Scan(Initial, Clear, input, 0, 0, 0) ==
      Scan(Initial.(lineMethod := Post, uri := "/", version := "HTTP/1.1", lineState := ReadVersion,
                    state := ReadHeaders, waitState := WaitCrlf), Clear, input, 17, 17, 2)
  {
    PostLineBytes(input);
    PostToken(input);
    var f2 := Initial.(lineMethod := Post, uri := "/", lineState := ReadVersion, waitState := WaitCrlf);
    PostSlashToken(input);
    PostVersionToken(input, f2);
  }

  lemma PostLineBytes(input: string)
    requires |input| >= 17 && input[..17] == "POST / HTTP/1.1\r\n"
    ensures input[0] == 'P' && input[1] == 'O' && input[2] == 'S' && input[3] == 'T' && input[4] == ' '
    ensures input[5] == '/' && input[6] == ' ' && input[7..17] == "HTTP/1.1\r\n"
  {
    var p := input[..17];
    assert forall k :: 0 <= k < 17 ==> input[k] == p[k];
  }

  lemma PostToken(input: string)
    requires |input| >= 5 && input[0] == 'P' && input[1] == 'O' && input[2] == 'S' && input[3] == 'T' && input[4] == ' '
    ensures Scan(Initial, Clear, input, 0, 0, 0) ==
      Scan(Initial.(lineMethod := Post, lineState := ReadUri, waitState := WaitSp), Clear, input, 5, 5, 1)
  {
    ScanSpaceToken(Initial, Clear, input, 0, 0, 4, 0);
    assert Bytes(View(input, 0, 4)) == "POST";
  }

  lemma PostSlashToken(input: string)
    requires |input| >= 7 && input[5] == '/' && input[6] == ' '
    ensures var f1 := Initial.(lineMethod := Post, lineState := ReadUri, waitState := WaitSp);
      Scan(f1, Clear, input, 5, 5, 1) ==
      Scan(Initial.(lineMethod := Post, uri := "/", lineState := ReadVersion, waitState := WaitCrlf), Clear, input, 7, 7, 1)
  {
    var f1 := Initial.(lineMethod := Post, lineState := ReadUri, waitState := WaitSp);
    ScanSpaceToken(f1, Clear, input, 5, 5, 6, 1);
    assert Bytes(View(input, 5, 1)) == "/";
  }

  lemma PostVersionToken(input: string, f2: Fields)
    requires |input| >= 17 && input[7..17] == "HTTP/1.1\r\n"
    requires f2 == Initial.(lineMethod := Post, uri := "/", lineState := ReadVersion, waitState := WaitCrlf)
    ensures Scan(f2, Clear, input, 7, 7, 1) ==
      Scan(f2.(version := "HTTP/1.1", state := ReadHeaders), Clear, input, 17, 17, 2)
  {
    assert forall k :: 7 <= k < 17 ==> input[k] == "HTTP/1.1\r\n"[k - 7];
    ScanCrlfToken(f2, Clear, input, 7, 7, 15, 1);
    assert Bytes(View(input, 7, 8)) == "HTTP/1.1";
  }

  /** The Content-Length header line of that POST sets the body size. */
  lemma PostLengthHeader(f: Fields, input: string, n: nat)
    requires f.state == ReadHeaders && f.waitState == WaitCrlf && !f.faulted && f.buff.None?
    requires n + '0' as int <= IntMax
    requires var l := |ContentLength + ": " + NatToString(n)|;
      && 21 + l <= |input| && input[17..17 + l] == ContentLength + ": " + NatToString(n)
      && input[17 + l] == '\r' && input[18 + l] == '\n'
    ensures var l := |ContentLength + ": " + NatToString(n)|;
      Scan(f, Clear, input, 17, 17, 2) == Scan(f.(bodySize := n), Clear, input, 19 + l, 19 + l, 2)
  {
    var cl := ContentLength + ": " + NatToString(n);
    var l := |cl|;
    assert forall k :: 17 <= k < 17 + l ==> input[k] == cl[k - 17];
    Message.DigitsNoCr(NatToString(n));
    ScanCrlfToken(f, Clear, input, 17, 17, 17 + l, 2);
    assert Bytes(View(input, 17, l)) == cl;
    ContentLengthRead(f, ContentLength, ": ", n);
  }

  /** The empty line after a POST's Content-Length moves to `wait_all`,
      where the loop stops. */
  lemma PostBlankLine(f: Fields, input: string, p: nat)
    requires f.state == ReadHeaders && f.waitState == WaitCrlf && !f.faulted && f.buff.None?
    requires f.lineMethod == Post && f.bodySize > 0
    requires p + 1 < |input| && input[p] == '\r' && input[p + 1] == '\n'
    ensures Scan(f, Clear, input, p, p, 2) == Scanned(f.(state := ReadBody, waitState := WaitAll), Clear, p + 2)
  {
    ScanCrlfToken(f, Clear, input, p, p, p, 2);
    var g := Step(f, View(input, p, 0));
    assert g == f.(state := ReadBody, waitState := WaitAll);
    assert Scan(g, Clear, input, p + 2, p + 2, 2) == Scanned(g, Clear, p + 2);
  }

  /** A POST whose head and body come in one read: the rest of the read
      after the empty line is the body. A rest of one byte or none is
      dropped and the request goes on waiting; a rest starting with a zero
      byte fails with 500; otherwise the rest is buffered, and once it holds
      the declared size it becomes the body and the handler runs once. */
  lemma PostInOneRead(n: nat, rest: string)
    requires 0 < n && n + '0' as int <= IntMax
    ensures var r := AfterRead(Initial, Clear, PostHead(n) + rest).0;
      && (|rest| <= 1 ==> r == PostHeadRead(n))
      && (|rest| > 1 && rest[0] == '\0' ==> r.state == WriteResponse && r.respCode == 500 && r.handlerCalls == 0)
      && (|rest| > 1 && rest[0] != '\0' && |rest| >= n ==>
            r.state == WriteResponse && r.body == Some(rest) && r.handlerCalls == 1 && r.writeSize == |rest|)
      && (|rest| > 1 && rest[0] != '\0' && |rest| < n ==>
            r.state == ReadBody && r.buff == Some(rest) && r.handlerCalls == 0 && r.writeSize == |rest|)
  {
    var input := PostHead(n) + rest;
    var p := |PostHead(n)|;
    PostHeadScanned(n, rest);
    var v := View(input, p, |input| - p);
    assert Bytes(v) == rest;
  }

  /** "POST / HTTP/1.1" CR LF "Content-Length: 2" CR LF CR LF "ab" in one
      read reaches the handler with the body "ab". */
  lemma PostAbInOneRead()
    ensures var r := AfterRead(Initial, Clear, "POST / HTTP/1.1\r\n" + "Content-Length: 2\r\n" + "\r\n" + "ab").0;
      r.state == WriteResponse && r.body == Some("ab") && r.handlerCalls == 1
  {
    PostAbText();
    PostInOneRead(2, "ab");
  }

  lemma PostAbText()
    ensures PostHead(2) + "ab" == "POST / HTTP/1.1\r\n" + "Content-Length: 2\r\n" + "\r\n" + "ab"
  {
    assert NatToString(2) == "2";
    assert ContentLength + ": " + "2" + "\r\n" == "Content-Length: 2\r\n";
  }

  /** As written, a one-byte body in the same read as the head is dropped:
      the request goes on waiting for the byte the client already sent. */
  lemma OneByteBodyDropped()
    ensures var r := AfterRead(Initial, Clear, PostHead(1) + "a").0;
      r.state == ReadBody && r.writeSize == 0 && r.buff.None? && r.handlerCalls == 0
  {
    PostInOneRead(1, "a");
  }
}
