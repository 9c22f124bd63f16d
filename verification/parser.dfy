/**
 * The request parser of `http/worker.cpp` as functions on the request
 * record: what `go_next` makes of one token, how `handle_in` cuts one read
 * into tokens, how `parse_header` splits a header line, and the status line
 * `handle_out` writes.
 */
module Parser {
  import opened Common
  import opened HttpString
  import opened Request

  /** The largest `int` the Content-Length conversion can hold. */
  const IntMax: int := 0x7FFF_FFFF

  /** `go_final_success`: the accumulated buffer becomes the body, the
      buffer is no longer freed with the connection, the response is due and
      the handler runs once. */
  function Succeeded(f: Fields): Fields {
    f.(body := f.buff, buffFreeAfterClose := false,
       state := WriteResponse, waitState := WaitNone,
       handlerCalls := f.handlerCalls + 1)
  }

  /** `go_final_error(code)`: the response is due with `code`, and the
      buffer is freed with the connection. */
  function Failed(f: Fields, code: int): Fields {
    f.(buffFreeAfterClose := true, respCode := code,
       state := WriteResponse, waitState := WaitNone)
  }

  /** The bytes that end a header key or sit between key and value. */
  predicate IsSeparator(c: char) {
    c == ' ' || c == ':'
  }

  /** The first index at or after `from` whose byte is not a separator, or
      the larger of `from` and `|t|` when there is none. */
  function SkipSeparators(t: string, from: nat): (n: nat)
    ensures from <= n && (from <= |t| ==> n <= |t|)
    ensures forall k :: from <= k < n ==> k < |t| && IsSeparator(t[k])
    ensures n < |t| ==> !IsSeparator(t[n])
    decreases |t| - from
  {
    if from < |t| && IsSeparator(t[from]) then SkipSeparators(t, from + 1) else from
  }

  /** The length of the header key: the bytes before the first separator. */
  function KeyEnd(t: string): (k: nat)
    ensures k <= |t|
    ensures forall j :: 0 <= j < k ==> !IsSeparator(t[j])
    ensures k < |t| ==> IsSeparator(t[k])
  {
    if t == [] || IsSeparator(t[0]) then 0 else 1 + KeyEnd(t[1..])
  }

  /** `parse_header`: the key is the bytes before the first separator, the
      value what follows the separators after it. A line with no separator
      at all makes `size - value_pos` wrap around and the copy run past the
      line: `None`. */
  function SplitHeader(t: string): (r: Option<(string, string)>)
  {
    var k := KeyEnd(t);
    if k == 0 then Some(([], []))
    else
      var vp := SkipSeparators(t, k + 1);
      if vp > |t| then None
      else Some((t[..k], t[vp..]))
  }

  /** A line splits without fault exactly when it is empty or holds a
      separator; an empty key comes only from a line that starts with one.
      Otherwise the line is the key, one separator, a run of separators and
      the value, and the value does not start with a separator. */
  lemma SplitHeaderSpec(t: string)
    ensures SplitHeader(t).None? <==> t != [] && forall j :: 0 <= j < |t| ==> !IsSeparator(t[j])
    ensures SplitHeader(t).Some? && SplitHeader(t).value.0 == [] <==> t == [] || IsSeparator(t[0])
    ensures SplitHeader(t).Some? && SplitHeader(t).value.0 != [] ==>
              var key := SplitHeader(t).value.0;
              var value := SplitHeader(t).value.1;
              && (forall j :: 0 <= j < |key| ==> !IsSeparator(key[j]))
              && |key| < |t| && t[..|key|] == key && IsSeparator(t[|key|])
              && t[|t| - |value|..] == value
              && (forall j :: |key| < j < |t| - |value| ==> IsSeparator(t[j]))
              && (value != [] ==> !IsSeparator(value[0]))
  {
    var k := KeyEnd(t);
    if k > 0 && k == |t| {
      assert forall j :: 0 <= j < |t| ==> !IsSeparator(t[j]);
    }
  }

  /** How the digit loop of the Content-Length header ends. */
  datatype Conversion = Converted(value: nat) | NotDigit | Overflow

  /** The digit loop from index `i` with `acc` so far. `value*10 + buff[i]`
      is evaluated before `- '0'`, so it overflows `int` once that sum passes
      `IntMax`. */
  function Convert(s: string, i: nat, acc: nat): (r: Conversion)
    requires i <= |s|
    decreases |s| - i
  {
    if i == |s| then Converted(acc)
    else if !IsDigit(s[i]) then NotDigit
    else if acc * 10 + s[i] as int > IntMax then Overflow
    else Convert(s, i + 1, acc * 10 + DigitValue(s[i]))
  }

  lemma DecimalValueOfPrefix(s: string, i: nat)
    requires i < |s| && AllDigits(s[..i + 1])
    ensures AllDigits(s[..i]) && DecimalValue(s[..i + 1]) == DecimalValue(s[..i]) * 10 + DigitValue(s[i])
  {
    assert s[..i + 1][..i] == s[..i];
  }

  lemma {:induction false} DecimalValueGrows(s: string, i: nat)
    requires i <= |s| && AllDigits(s)
    ensures AllDigits(s[..i]) && DecimalValue(s[..i]) <= DecimalValue(s)
    decreases |s| - i
  {
    if i == |s| {
      assert s[..i] == s;
    } else {
      DecimalValueGrows(s, i + 1);
      assert s[..i + 1][..i] == s[..i];
      DecimalValueOfPrefix(s, i);
    }
  }

  lemma {:induction false} ConvertFrom(s: string, i: nat)
    requires i <= |s| && AllDigits(s[..i])
    ensures var r := Convert(s, i, DecimalValue(s[..i]));
      && (r.Converted? ==> AllDigits(s) && r.value == DecimalValue(s))
      && (r.NotDigit? ==> !AllDigits(s))
      && (AllDigits(s) && DecimalValue(s) + '0' as int <= IntMax ==> r.Converted?)
    decreases |s| - i
  {
    if i == |s| {
      assert s[..i] == s;
    } else if IsDigit(s[i]) {
      assert s[..i + 1] == s[..i] + [s[i]];
      assert AllDigits(s[..i + 1]);
      DecimalValueOfPrefix(s, i);
      if AllDigits(s) && DecimalValue(s) + '0' as int <= IntMax {
        DecimalValueGrows(s, i + 1);
      }
      ConvertFrom(s, i + 1);
    }
  }

  /** The digit loop accepts exactly the all-digit values (short of
      overflow) and yields their decimal value. */
  lemma ConvertSpec(s: string)
    ensures Convert(s, 0, 0).Converted? ==> AllDigits(s) && Convert(s, 0, 0).value == DecimalValue(s)
    ensures Convert(s, 0, 0).NotDigit? ==> !AllDigits(s)
    ensures AllDigits(s) && DecimalValue(s) + '0' as int <= IntMax ==> Convert(s, 0, 0).Converted?
  {
    assert s[..0] == [];
    ConvertFrom(s, 0);
  }

  /** The header name `go_next` looks for, compared case-insensitively on
      the first 14 bytes. */
  const ContentLength: string := "Content-Length"

  predicate IsContentLength(t: string) {
    |t| > 14 && EqualsIgnoreCase(t[..14], ContentLength)
  }

  /** A non-empty header line in `read_headers`. For Content-Length, the
      byte after the name is skipped unread, then separators; a non-empty
      value must be all digits (400 otherwise) and sets the declared body
      size. Any other line is split by `parse_header` and kept when its key
      is not empty and not already present. */
  function HeaderLine(f: Fields, t: string): Fields {
    if IsContentLength(t) then
      var digits := t[SkipSeparators(t, 15)..];
      if digits == [] then f
      else match Convert(digits, 0, 0)
        case Converted(n) => f.(bodySize := n)
        case NotDigit => Failed(f, 400)
        case Overflow => f.(faulted := true)
    else match SplitHeader(t)
      case None => f.(faulted := true)
      case Some(kv) =>
        if kv.0 == [] || kv.0 in f.headers then f
        else f.(headers := f.headers[kv.0 := kv.1])
  }

  /** The empty line that ends the headers: a POST needs a declared body,
      a GET must not have one; a request line without a method cannot reach
      here, and the `assert(false)` there is a fault. */
  function BlankLine(f: Fields): Fields {
    match f.lineMethod
    case Post => if f.bodySize > 0 then f.(state := ReadBody, waitState := WaitAll) else Failed(f, 400)
    case Get => if f.bodySize == 0 then Succeeded(f) else Failed(f, 400)
    case NoMethod => f.(faulted := true)
  }

  /** The precondition `go_next` inherits from `request_buff_append`: the
      first append reads the byte the token starts at. */
  predicate StepDefined(f: Fields, v: Span) {
    f.state == ReadBody && f.buff.None? ==> v.off < |v.buf|
  }

  /** `go_next(req, buff, size)`: what one token does to the record. */
  function Step(f: Fields, v: Span): Fields
    requires StepDefined(f, v)
  {
    match f.state
    case ReadLine =>
      (match f.lineState
       case ReadMethod =>
         var m := StrToRequestMethod(v);
         if m == NoMethod then Failed(f.(lineMethod := m), 400)
         else f.(lineMethod := m, lineState := ReadUri, waitState := WaitSp)
       case ReadUri => f.(uri := Bytes(v), lineState := ReadVersion, waitState := WaitCrlf)
       case ReadVersion => f.(version := Bytes(v), state := ReadHeaders, waitState := WaitCrlf))
    case ReadHeaders =>
      if Size(v) > 0 then HeaderLine(f, Bytes(v)) else BlankLine(f)
    case ReadBody =>
      var appended := BuffAppended(f, v);
      if !appended.1 then Failed(appended.0, 500)
      else
        var g := appended.0.(writeSize := appended.0.writeSize + Size(v));
        if g.writeSize >= g.bodySize then Succeeded(g) else g
    case WriteResponse => f
  }

  /** What one read leaves: the record, the token flags and the final
      `current_pos`. */
  datatype Scanned = Scanned(f: Fields, flags: Flags, pos: nat)

  /** The scanning loop of `handle_in` from index `i`, with the current token
      starting at `pos` and `sp` the terminator length last seen. A CR that
      ended the previous read followed by an LF leaves a token shorter than
      its terminator, whose length wraps around: a fault. */
  function Scan(f: Fields, fl: Flags, input: string, i: nat, pos: nat, sp: nat): (r: Scanned)
    requires pos <= i <= |input|
    ensures pos <= r.pos <= |input|
    decreases |input| - i, 1
  {
    if i == |input| || f.faulted then Scanned(f, fl, pos)
    else match f.waitState
      case WaitAll => Scanned(f, fl, pos)
      case WaitNone => Scanned(f, fl, pos)
      case WaitSp =>
        if input[i] == ' ' then Process(f, fl.(needProcess := true), input, i, pos, 1)
        else Process(f, fl, input, i, pos, sp)
      case WaitCrlf =>
        if !fl.gotCr then
          if input[i] == '\r' then Scan(f, fl.(gotCr := true), input, i + 1, pos, sp)
          else Process(f, fl, input, i, pos, sp)
        else if input[i] == '\n' then Process(f, fl.(needProcess := true), input, i, pos, 2)
        else Process(f, fl.(gotCr := false), input, i, pos, sp)
  }

  /** The end of one loop iteration: a finished token goes to `go_next`
      directly while the accumulation buffer is null, and otherwise is
      appended to it and the whole buffer goes to `go_next`; then the flags
      are cleared. */
  function Process(f: Fields, fl: Flags, input: string, i: nat, pos: nat, sp: nat): (r: Scanned)
    requires pos <= i < |input|
    ensures pos <= r.pos <= |input|
    decreases |input| - i, 0
  {
    if !fl.needProcess then Scan(f, fl, input, i + 1, pos, sp)
    else
      var size := i - pos + 1;
      if size < sp then Scanned(f.(faulted := true), fl, pos)
      else
        var token := View(input, pos, size - sp);
        if f.buff.None? then Scan(Step(f, token), Clear, input, i + 1, pos + size, sp)
        else
          var appended := BuffAppended(f, token);
          if appended.1 then
            var g := appended.0;
            Scan(Step(g, Whole(g.buff.value)), Clear, input, i + 1, pos + size, sp)
          else Scanned(Failed(appended.0, 500), fl, pos)
  }

  /** After the loop: the rest of the read, when it is longer than one
      byte, is the body in `wait_all` and is kept in the accumulation buffer
      otherwise; a single left-over byte is dropped. */
  function Tail(f: Fields, input: string, pos: nat): Fields
    requires pos <= |input|
  {
    if f.faulted || f.waitState == WaitNone || pos + 1 >= |input| then f
    else
      var rest := View(input, pos, |input| - pos);
      if f.waitState == WaitAll then Step(f, rest)
      else
        var appended := BuffAppended(f, rest);
        if appended.1 then appended.0 else Failed(appended.0, 500)
  }

  /** `handle_in` with `input` the bytes one `read` returned (none for an
      error or end of stream): the record and flags it leaves. */
  function AfterRead(f: Fields, fl: Flags, input: string): (Fields, Flags) {
    if f.state == WriteResponse || input == [] then (f, fl)
    else
      var scanned := Scan(f, fl, input, 0, 0, 0);
      (Tail(scanned.f, input, scanned.pos), scanned.flags)
  }

  /** The reason phrase and Content-Length line `handle_out` writes before
      the body. */
  function StatusLine(code: int, bodySize: Option<nat>): (r: string)
    ensures |r| >= 13 && r[..9] == "HTTP/1.1 " && r[|r| - 4..] == "\r\n\r\n"
  {
    var status := IntToString(code) + " " + StatusCodeToStr(code);
    var length := match bodySize case None => "" case Some(n) => "Content-Length: " + NatToString(n) + "\r\n";
    Framed(status, length);
    "HTTP/1.1 " + status + "\r\n" + length + "\r\n"
  }

  /** A status line and an optional header line, closed by an empty line. */
  lemma Framed(status: string, rest: string)
    requires rest == [] || (|rest| >= 2 && rest[|rest| - 2..] == "\r\n")
    ensures var r := "HTTP/1.1 " + status + "\r\n" + rest + "\r\n";
      |r| >= 13 && r[..9] == "HTTP/1.1 " && r[|r| - 4..] == "\r\n\r\n"
  {
    var head := "HTTP/1.1 " + status + "\r\n";
    var x := head + rest;
    assert x[|x| - 2..] == "\r\n" by {
      if rest == [] {
        assert x == head;
      } else {
        assert x[|x| - 2..] == rest[|rest| - 2..];
      }
    }
    var r := x + "\r\n";
    assert r[|r| - 4..] == x[|x| - 2..] + "\r\n";
    assert r[..9] == head[..9];
  }
}
