/**
 * The per-connection request record the parser fills in (the fields
 * `http/worker.cpp` reads and writes) and the helpers of `http/request.cpp`:
 * status text, method recognition and the two buffer appends.
 */
module Request {
  import opened Common
  import opened HttpString

  /** `request_line_method`. */
  datatype LineMethod = NoMethod | Post | Get

  /** `request_line_state`: which part of the request line comes next. */
  datatype LineState = ReadMethod | ReadUri | ReadVersion

  /** `request_state`. */
  datatype RequestState = ReadLine | ReadHeaders | ReadBody | WriteResponse

  /** `request_wait_state`: what ends the next token. */
  datatype WaitState = WaitSp | WaitCrlf | WaitAll | WaitNone

  /** The token flags `handle_in` keeps in the record between bytes (and,
      for `gotCr`, between reads). */
  datatype Flags = Flags(gotSp: bool, gotCr: bool, gotLf: bool, needProcess: bool)

  /** All flags down, as after every token. */
  const Clear: Flags := Flags(false, false, false, false)

  /**
   * The rest of the request record as a value. `buff` is the accumulation
   * buffer (`None` while the buffer is null; its length is `buf_size`),
   * `body` is what `go_final_success` hands over (its length is
   * `body.size`), `bodySize` the declared Content-Length and `writeSize` the
   * body bytes received. `handlerCalls` counts calls of the request handler,
   * and `faulted` records that the code reached undefined behaviour.
   */
  datatype Fields = Fields(
    buff: Option<string>,
    lineMethod: LineMethod, lineState: LineState, uri: string, version: string,
    headers: map<string, string>,
    body: Option<string>, bodySize: nat, writeSize: nat,
    state: RequestState, waitState: WaitState,
    respCode: int, buffFreeAfterClose: bool,
    handlerCalls: nat, faulted: bool)

  /** A freshly accepted connection's record. */
  const Initial: Fields := Fields(
    None,
    NoMethod, ReadMethod, [], [], map[],
    None, 0, 0,
    ReadLine, WaitSp, 0, false, 0, false)

  /** The length of the accumulation buffer, `buf_size`. */
  function BufSize(f: Fields): nat {
    match f.buff
    case None => 0
    case Some(c) => |c|
  }

  /** `status_code_to_str`: the reason phrase of the four codes the parser
      produces, "Unknow" for every other code. */
  function StatusCodeToStr(code: int): (r: string)
    ensures r == "Unknow" <==> code !in {200, 400, 404, 500}
    ensures code == 200 ==> r == "OK"
    ensures code == 400 ==> r == "Bad Request"
    ensures code == 404 ==> r == "Not found"
    ensures code == 500 ==> r == "Internal Error"
  {
    match code
    case 200 => "OK"
    case 400 => "Bad Request"
    case 404 => "Not found"
    case 500 => "Internal Error"
    case _ => "Unknow"
  }

  /** `str_to_request_method`: POST for exactly four bytes spelling "post"
      in any case, GET for exactly three spelling "get", none otherwise. */
  function StrToRequestMethod(v: Span): (m: LineMethod)
    ensures m == Post <==> EqualsIgnoreCase(Bytes(v), "post")
    ensures m == Get <==> EqualsIgnoreCase(Bytes(v), "get")
  {
    if Size(v) == 4 then
      if EqualsIgnoreCase(Bytes(v), "post") then Post else NoMethod
    else if Size(v) == 3 then
      if EqualsIgnoreCase(Bytes(v), "get") then Get else NoMethod
    else NoMethod
  }

  /** `request_buff_append` on the record. The first append allocates and
      then tests the first input byte (not the allocation): a zero byte
      fails and leaves an empty buffer behind. Every other append extends
      the buffer by the whole input. Nothing else changes. */
  function BuffAppended(f: Fields, v: Span): (r: (Fields, bool))
    requires f.buff.Some? || v.off < |v.buf|
    ensures r.0 == f.(buff := r.0.buff)
    ensures r.1 <==> f.buff.Some? || v.buf[v.off] != '\0'
    ensures r.1 ==> r.0.buff == Some(if f.buff.Some? then f.buff.value + Bytes(v) else Bytes(v))
    ensures r.1 ==> BufSize(r.0) == BufSize(f) + Size(v)
    ensures !r.1 ==> r.0.buff == Some([])
  {
    match f.buff
    case None =>
      if v.buf[v.off] == '\0' then (f.(buff := Some([])), false)
      else (f.(buff := Some(Bytes(v))), true)
    case Some(c) => (f.(buff := Some(c + Bytes(v))), true)
  }

  /** Two successful appends leave what one append of both inputs would. */
  lemma BuffAppendedTwice(f: Fields, a: Span, b: Span, ab: Span)
    requires f.buff.Some? || a.off < |a.buf|
    requires BuffAppended(f, a).1
    requires Bytes(ab) == Bytes(a) + Bytes(b) && ab.buf == a.buf && ab.off == a.off
    ensures BuffAppended(BuffAppended(f, a).0, b).0 == BuffAppended(f, ab).0
  {
    if f.buff.Some? {
      assert f.buff.value + Bytes(a) + Bytes(b) == f.buff.value + (Bytes(a) + Bytes(b));
    }
  }

  class Request {
    var buff: Option<string>
    var gotSp: bool
    var gotCr: bool
    var gotLf: bool
    var needProcess: bool
    var lineMethod: LineMethod
    var lineState: LineState
    var uri: string
    var version: string
    var headers: map<string, string>
    var body: Option<string>
    var bodySize: nat
    var writeSize: nat
    var state: RequestState
    var waitState: WaitState
    var respCode: int
    var buffFreeAfterClose: bool
    var handlerCalls: nat
    var faulted: bool

    /** The token flags as one value. */
    function TokenFlags(): Flags
      reads this
    {
      Flags(gotSp, gotCr, gotLf, needProcess)
    }

    /** The other fields as one value. */
    function Snapshot(): Fields
      reads this
    {
      Fields(buff,
             lineMethod, lineState, uri, version, headers,
             body, bodySize, writeSize, state, waitState,
             respCode, buffFreeAfterClose, handlerCalls, faulted)
    }

    /** A new connection's record, with the defaults of the struct. */
    constructor ()
      ensures Snapshot() == Initial && TokenFlags() == Clear
    {
      buff, gotSp, gotCr, gotLf, needProcess := None, false, false, false, false;
      lineMethod, lineState, uri, version, headers := NoMethod, ReadMethod, [], [], map[];
      body, bodySize, writeSize := None, 0, 0;
      state, waitState := ReadLine, WaitSp;
      respCode, buffFreeAfterClose, handlerCalls, faulted := 0, false, 0, false;
    }

    /** `request_buff_append(req, buff, size)`. */
    method BuffAppend(v: Span) returns (ok: bool)
      requires buff.Some? || v.off < |v.buf|
      modifies this
      ensures (Snapshot(), ok) == BuffAppended(old(Snapshot()), v)
      ensures TokenFlags() == old(TokenFlags())
    {
      if buff.None? {
        buff := Some([]);
        if v.buf[v.off] == '\0' {
          return false;
        }
        buff := Some(Bytes(v));
      } else {
        buff := Some(buff.value + Bytes(v));
      }
      return true;
    }
  }

  /**
   * The `request_body` part of the record that `request_body_buff_append`
   * fills: the buffer (`None` while null; its length is `buff_size`) and the
   * number of bytes it waits for.
   */
  class RequestBody {
    var buff: Option<string>
    var waitSize: nat

    /** `buff_size` never exceeds `wait_size`. */
    predicate Valid()
      reads this
    {
      buff.Some? ==> |buff.value| <= waitSize
    }

    constructor (waitSize: nat)
      ensures Valid() && buff == None && this.waitSize == waitSize
    {
      buff := None;
      this.waitSize := waitSize;
    }

    /** `request_body_buff_append(req, buff, size)`: copies as much of the
        input as still fits in `wait_size` bytes and reports whether it
        copied anything; the rest of the input is dropped. The first call
        allocates and then fails on a zero first input byte. */
    method Append(v: Span) returns (ok: bool)
      requires Valid()
      requires buff.Some? || v.off < |v.buf|
      modifies this
      ensures Valid() && waitSize == old(waitSize) && buff.Some?
      ensures var before := if old(buff).Some? then old(buff).value else [];
              var room := waitSize - |before|;
              var n := if Size(v) < room then Size(v) else room;
              if old(buff).None? && v.buf[v.off] == '\0' then !ok && buff == Some([])
              else (ok <==> n > 0) && buff.value == before + Bytes(v)[..n]
    {
      if buff.None? {
        buff := Some([]);
        if v.buf[v.off] == '\0' {
          return false;
        }
      }
      var lost := waitSize - |buff.value|;
      var size := Size(v);
      if size > lost {
        size := lost;
      }
      if size > 0 {
        buff := Some(buff.value + Bytes(v)[..size]);
        return true;
      } else {
        return false;
      }
    }
  }
}
