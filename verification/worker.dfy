/**
 * The request-side handlers of `http::worker` (http/worker.cpp) as methods
 * on the request record, each proved to do what the corresponding function
 * of `Parser` describes.
 */
module Worker {
  import opened Common
  import opened HttpString
  import opened Request
  import opened Parser

  /** `go_final_success(req)`; the call of the request handler is counted. */
  method GoFinalSuccess(req: Request)
    modifies req
    ensures req.Snapshot() == Succeeded(old(req.Snapshot()))
    ensures req.TokenFlags() == old(req.TokenFlags())
  {
    req.body := req.buff;
    req.buffFreeAfterClose := false;
    req.state := WriteResponse;
    req.waitState := WaitNone;
    req.handlerCalls := req.handlerCalls + 1;
  }

  /** `go_final_error(req, code, error)`; the log line is not modelled. */
  method GoFinalError(req: Request, code: int)
    modifies req
    ensures req.Snapshot() == Failed(old(req.Snapshot()), code)
    ensures req.TokenFlags() == old(req.TokenFlags())
  {
    req.buffFreeAfterClose := true;
    req.respCode := code;
    req.state := WriteResponse;
    req.waitState := WaitNone;
  }

  /** The loop that moves `value_pos` past spaces and colons. */
  method SkipSeparatorsFrom(t: string, from: nat) returns (n: nat)
    ensures n == SkipSeparators(t, from)
  {
    n := from;
    while n < |t| && IsSeparator(t[n])
      invariant from <= n
      invariant SkipSeparators(t, n) == SkipSeparators(t, from)
      decreases |t| - n
    {
      n := n + 1;
    }
  }

  /** `parse_header(buff, size)`. */
  method ParseHeader(v: Span) returns (r: Option<(string, string)>)
    ensures r == SplitHeader(Bytes(v))
  {
    var t := Bytes(v);
    var keySize := 0;
    while keySize < |t| && !IsSeparator(t[keySize])
      invariant keySize <= |t|
      invariant forall j :: 0 <= j < keySize ==> !IsSeparator(t[j])
    {
      keySize := keySize + 1;
    }
    assert keySize == KeyEnd(t);
    if keySize == 0 {
      return Some(([], []));
    }
    var key := t[..keySize];
    var valuePos := SkipSeparatorsFrom(t, keySize + 1);
    if valuePos > |t| {
      // `size - value_pos` wraps around and the copy runs past the line
      return None;
    }
    if valuePos == |t| {
      assert t[valuePos..] == [];
      return Some((key, []));
    }
    return Some((key, t[valuePos..]));
  }

  /** The digit loop of the Content-Length header, from `value_pos`. */
  method ConvertDigits(t: string, from: nat) returns (c: Conversion)
    requires from <= |t|
    ensures c == Convert(t[from..], 0, 0)
  {
    ghost var s := t[from..];
    var value: nat := 0;
    var i := from;
    while i < |t|
      invariant from <= i <= |t|
      invariant Convert(s, i - from, value) == Convert(s, 0, 0)
    {
      assert s[i - from] == t[i];
      if IsDigit(t[i]) {
        if value * 10 + t[i] as int > IntMax {
          return Overflow;
        }
        value := value * 10 + DigitValue(t[i]);
      } else {
        return NotDigit;
      }
      i := i + 1;
    }
    return Converted(value);
  }

  /** `go_next` in `read_line`. */
  method LineToken(req: Request, v: Span)
    requires req.state == ReadLine
    modifies req
    ensures req.Snapshot() == Step(old(req.Snapshot()), v)
    ensures req.TokenFlags() == old(req.TokenFlags())
  {
    match req.lineState
    case ReadMethod => MethodToken(req, v);
    case ReadUri => UriToken(req, v);
    case ReadVersion => VersionToken(req, v);
  }

  /** The method token of the request line. */
  method MethodToken(req: Request, v: Span)
    requires req.state == ReadLine && req.lineState == ReadMethod
    modifies req
    ensures req.Snapshot() == Step(old(req.Snapshot()), v)
    ensures req.TokenFlags() == old(req.TokenFlags())
  {
    req.lineMethod := StrToRequestMethod(v);
    if req.lineMethod == NoMethod {
      GoFinalError(req, 400);
      return;
    }
    req.lineState := ReadUri;
    req.waitState := WaitSp;
  }

  /** The target token of the request line. */
  method UriToken(req: Request, v: Span)
    requires req.state == ReadLine && req.lineState == ReadUri
    modifies req
    ensures req.Snapshot() == Step(old(req.Snapshot()), v)
    ensures req.TokenFlags() == old(req.TokenFlags())
  {
    req.uri := Bytes(v);
    req.lineState := ReadVersion;
    req.waitState := WaitCrlf;
  }

  /** The version token of the request line. */
  method VersionToken(req: Request, v: Span)
    requires req.state == ReadLine && req.lineState == ReadVersion
    modifies req
    ensures req.Snapshot() == Step(old(req.Snapshot()), v)
    ensures req.TokenFlags() == old(req.TokenFlags())
  {
    req.version := Bytes(v);
    req.state := ReadHeaders;
    req.waitState := WaitCrlf;
  }

  /** `go_next` on a Content-Length line. */
  method ContentLengthToken(req: Request, t: string)
    requires IsContentLength(t)
    modifies req
    ensures req.Snapshot() == HeaderLine(old(req.Snapshot()), t)
    ensures req.TokenFlags() == old(req.TokenFlags())
  {
    var valuePos := SkipSeparatorsFrom(t, 15);
    if |t| - valuePos > 0 {
      var c := ConvertDigits(t, valuePos);
      match c
      case Converted(n) =>
        req.bodySize := n;
      case NotDigit =>
        GoFinalError(req, 400);
      case Overflow =>
        req.faulted := true;
    }
  }

  /** `go_next` on any other non-empty header line. */
  method OtherHeaderToken(req: Request, v: Span)
    requires !IsContentLength(Bytes(v))
    modifies req
    ensures req.Snapshot() == HeaderLine(old(req.Snapshot()), Bytes(v))
    ensures req.TokenFlags() == old(req.TokenFlags())
  {
    var pair := ParseHeader(v);
    match pair
    case None =>
      req.faulted := true;
    case Some(kv) =>
      if kv.0 != [] && kv.0 !in req.headers {
        req.headers := req.headers[kv.0 := kv.1];
      }
  }

  /** `go_next` on the empty line after the headers. */
  method BlankLineToken(req: Request)
    modifies req
    ensures req.Snapshot() == BlankLine(old(req.Snapshot()))
    ensures req.TokenFlags() == old(req.TokenFlags())
  {
    match req.lineMethod
    case Post =>
      if req.bodySize > 0 {
        req.state := ReadBody;
        req.waitState := WaitAll;
      } else {
        GoFinalError(req, 400);
      }
    case Get =>
      if req.bodySize == 0 {
        GoFinalSuccess(req);
      } else {
        GoFinalError(req, 400);
      }
    case NoMethod =>
      // assert(false)
      req.faulted := true;
  }

  /** `go_next` in `read_body`. */
  method BodyToken(req: Request, v: Span)
    requires req.state == ReadBody && StepDefined(req.Snapshot(), v)
    modifies req
    ensures req.Snapshot() == Step(old(req.Snapshot()), v)
    ensures req.TokenFlags() == old(req.TokenFlags())
  {
    var ok := req.BuffAppend(v);
    if ok {
      req.writeSize := req.writeSize + Size(v);
    } else {
      GoFinalError(req, 500);
      return;
    }
    if req.writeSize >= req.bodySize {
      GoFinalSuccess(req);
    }
  }

  /** `go_next(req, buff, size)`. */
  method GoNext(req: Request, v: Span)
    requires StepDefined(req.Snapshot(), v)
    modifies req
    ensures req.Snapshot() == Step(old(req.Snapshot()), v)
    ensures req.TokenFlags() == old(req.TokenFlags())
  {
    match req.state
    case ReadLine =>
      LineToken(req, v);
    case ReadHeaders =>
      if Size(v) > 0 {
        if IsContentLength(Bytes(v)) {
          ContentLengthToken(req, Bytes(v));
        } else {
          OtherHeaderToken(req, v);
        }
      } else {
        BlankLineToken(req);
      }
    case ReadBody =>
      BodyToken(req, v);
    case WriteResponse =>
  }

  /** The end of one iteration of the loop of `handle_in`: a finished token
      is handed to `go_next` (through the accumulation buffer when there is
      one) and the flags are cleared; `stop` is the loop's `break`. */
  method ProcessAt(req: Request, input: string, i: nat, pos: nat, sp: nat) returns (newPos: nat, stop: bool)
    requires pos <= i < |input|
    modifies req
    ensures newPos <= i + 1
    ensures stop ==> newPos <= i && (req.faulted || req.waitState == WaitNone)
    ensures Process(old(req.Snapshot()), old(req.TokenFlags()), input, i, pos, sp)
         == Scan(req.Snapshot(), req.TokenFlags(), input, if stop then i else i + 1, newPos, sp)
  {
    if !req.needProcess {
      return pos, false;
    }
    var size := i - pos + 1;
    if size < sp {
      // `size - sp_size` wraps around
      req.faulted := true;
      return pos, true;
    }
    DeliverToken(req, input, i, pos, sp);
    return pos + size, false;
  }

  /** A finished token of `size - sp_size` bytes handed to `go_next`. An
      append to a buffer that already exists fails only when `realloc` does,
      which is not modelled, so the `500` branch of the loop is not taken
      here. */
  method DeliverToken(req: Request, input: string, i: nat, pos: nat, sp: nat)
    requires pos <= i < |input| && req.needProcess && sp <= i - pos + 1
    modifies req
    ensures Process(old(req.Snapshot()), old(req.TokenFlags()), input, i, pos, sp)
         == Scan(req.Snapshot(), req.TokenFlags(), input, i + 1, i + 1, sp)
  {
    var token := View(input, pos, i - pos + 1 - sp);
    if req.buff.None? {
      GoNext(req, token);
    } else {
      var ok := req.BuffAppend(token);
      if !ok {
        assert false;
      }
      GoNext(req, Whole(req.buff.value));
    }
    ClearFlags(req);
  }

  /** The flags are reset once a token has been handed on. */
  method ClearFlags(req: Request)
    modifies req
    ensures req.Snapshot() == old(req.Snapshot())
    ensures req.TokenFlags() == Clear
  {
    req.gotSp, req.gotCr, req.gotLf, req.needProcess := false, false, false, false;
  }

  /** `handle_in(req)`, with `input` the bytes one `read` returned (none for
      an error or the end of the stream). Once the record is `faulted` the
      behaviour of the source is undefined and the model stops. */
  method HandleIn(req: Request, input: string)
    modifies req
    ensures (req.Snapshot(), req.TokenFlags()) == AfterRead(old(req.Snapshot()), old(req.TokenFlags()), input)
  {
    if req.state == WriteResponse {
      return;
    }
    var spSize: nat := 0;
    if |input| == 0 {
      return;
    }
    ghost var s0 := Scan(req.Snapshot(), req.TokenFlags(), input, 0, 0, 0);
    var currentPos: nat := 0;
    var i: nat := 0;
    while i < |input|
      invariant currentPos <= i <= |input|
      invariant Scan(req.Snapshot(), req.TokenFlags(), input, i, currentPos, spSize) == s0
      decreases |input| - i
    {
      if req.faulted || req.waitState == WaitAll || req.waitState == WaitNone {
        break;
      }
      ghost var f, fl, sp := req.Snapshot(), req.TokenFlags(), spSize;
      if req.waitState == WaitSp {
        if input[i] == ' ' {
          spSize := 1;
          req.needProcess := true;
        }
      } else if !req.gotCr {
        if input[i] == '\r' {
          req.gotCr := true;
          i := i + 1;
          continue;
        }
      } else if input[i] == '\n' {
        spSize := 2;
        req.needProcess := true;
      } else {
        req.gotCr := false;
      }
      assert Scan(f, fl, input, i, currentPos, sp) == Process(req.Snapshot(), req.TokenFlags(), input, i, currentPos, spSize);
      var stop;
      currentPos, stop := ProcessAt(req, input, i, currentPos, spSize);
      if stop {
        break;
      }
      i := i + 1;
    }
    assert s0 == Scanned(req.Snapshot(), req.TokenFlags(), currentPos);
    KeepRest(req, input, currentPos);
  }

  /** The end of `handle_in`: what is left of the read after the last token. */
  method KeepRest(req: Request, input: string, pos: nat)
    requires pos <= |input|
    modifies req
    ensures req.Snapshot() == Tail(old(req.Snapshot()), input, pos)
    ensures req.TokenFlags() == old(req.TokenFlags())
  {
    if !req.faulted && req.waitState != WaitNone && pos + 1 < |input| {
      var rest := View(input, pos, |input| - pos);
      if req.waitState == WaitAll {
        GoNext(req, rest);
      } else {
        var ok := req.BuffAppend(rest);
        if !ok {
          GoFinalError(req, 500);
        }
      }
    }
  }
}
