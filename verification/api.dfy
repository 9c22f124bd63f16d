/**
 * The routing of the HLS API (api/api.cpp): which storage operation a
 * request names, decided from its method and target and from its `X-HLS-*`
 * headers and recorded in an `hls_context`, and the mapping of the live
 * storage's error codes to HTTP status codes.
 */
module Api {
  import opened Common
  import opened HttpString
  import opened Uri
  import Request

  /** `hls_method`, with the values the router assigns. */
  datatype HlsMethod =
    | Undefined
    | PostLiveChunk | PostArchiveChunk
    | GetLiveChunk | GetLivePlaylist | GetLiveLastRead
    | GetArchiveChunk | GetArchivePlaylist

  /** `handle_res_type`. */
  datatype ResType = Ignore | Success | Error

  /** `handle_res`: the outcome and, for an error, its status code (0 when
      none is given). */
  datatype HandleRes = HandleRes(kind: ResType, code: int)

  const Ok := HandleRes(Success, 0)
  const NotFound := HandleRes(Error, 404)
  const Ignored := HandleRes(Ignore, 0)

  /** The fields of an `hls_context`. */
  datatype Context = Context(
    hlsId: string, seqNo: int, startUtMsecs: int, durationMsecs: int,
    hlsMethod: HlsMethod, path: string)

  /** A context as `new hls_context` leaves it. */
  const Fresh := Context([], -1, -1, -1, Undefined, [])

  /** `hls_live::error_type`. */
  datatype LiveError = NoError | InvalidInParamets | PlaylistNotFound | ChunkNotFound | InternalError

  /** `hls_live_error_to_rest_code`: success is 200, a bad parameter 400, a
      missing playlist or chunk 404, an internal failure 500. */
  function LiveErrorToRestCode(e: LiveError): (code: int)
    ensures code == 200 <==> e == NoError
    ensures code == 400 <==> e == InvalidInParamets
    ensures code == 404 <==> e == PlaylistNotFound || e == ChunkNotFound
    ensures code == 500 <==> e == InternalError
  {
    match e
    case NoError => 200
    case InternalError => 500
    case ChunkNotFound => 404
    case PlaylistNotFound => 404
    case InvalidInParamets => 400
  }

  /** Words joined by '/', as the archive branch builds `path`. */
  function JoinPath(words: seq<string>): string
    decreases |words|
  {
    if words == [] then []
    else if |words| == 1 then words[0]
    else words[0] + "/" + JoinPath(words[1..])
  }

  lemma {:induction false} JoinPathSnoc(words: seq<string>, w: string)
    requires words != []
    ensures JoinPath(words + [w]) == JoinPath(words) + "/" + w
    decreases |words|
  {
    var ws := words + [w];
    if |words| == 1 {
      assert ws[1..] == [w];
      assert JoinPath(ws) == ws[0] + "/" + JoinPath([w]);
    } else {
      assert ws[1..] == words[1..] + [w];
      JoinPathSnoc(words[1..], w);
      assert JoinPath(ws) == ws[0] + "/" + JoinPath(ws[1..]);
    }
  }

  /** The bytes of each item, in order. */
  function Words(items: seq<Span>): (w: seq<string>)
    ensures |w| == |items|
  {
    seq(|items|, k requires 0 <= k < |items| => Bytes(items[k]))
  }

  /** Path words as the router reads them: non-empty, without '/'. */
  predicate PlainWords(words: seq<string>) {
    forall k :: 0 <= k < |words| ==> words[k] != [] && '/' !in words[k]
  }

  lemma JoinPathHead(words: seq<string>)
    requires words != []
    ensures |JoinPath(words)| >= |words[0]|
    ensures JoinPath(words)[..|words[0]|] == words[0]
    ensures |words| == 1 ==> JoinPath(words) == words[0]
    ensures |words| > 1 ==> JoinPath(words) == words[0] + "/" + JoinPath(words[1..])
  {
  }

  /** Joining plain words loses nothing: two lists of plain words that join
      to the same path are the same list, so the chunk path names the path
      items it was built from. */
  lemma {:induction false} JoinPathInjective(a: seq<string>, b: seq<string>)
    requires PlainWords(a) && PlainWords(b)
    requires JoinPath(a) == JoinPath(b)
    ensures a == b
    decreases |a|
  {
    if a == [] || b == [] {
      if a != [] {
        JoinPathHead(a);
      } else if b != [] {
        JoinPathHead(b);
      }
    } else {
      JoinPathHead(a);
      JoinPathHead(b);
      var p := JoinPath(a);
      var x, y := a[0], b[0];
      HeadsAgree(p, x, y, |a| > 1, |b| > 1);
      if |a| > 1 && |b| > 1 {
        assert JoinPath(a[1..]) == p[|x| + 1..] == JoinPath(b[1..]);
        assert PlainWords(a[1..]) by {
          assert forall k :: 0 <= k < |a| - 1 ==> a[1..][k] == a[k + 1];
        }
        assert PlainWords(b[1..]) by {
          assert forall k :: 0 <= k < |b| - 1 ==> b[1..][k] == b[k + 1];
        }
        JoinPathInjective(a[1..], b[1..]);
        assert a == [x] + a[1..] && b == [y] + b[1..];
      }
    }
  }

  /** Two '/'-free prefixes of a path that each end the path or stop at a
      '/' are the same prefix, and both end it or neither does. */
  lemma HeadsAgree(p: string, x: string, y: string, moreX: bool, moreY: bool)
    requires '/' !in x && '/' !in y
    requires |p| >= |x| && p[..|x|] == x && |p| >= |y| && p[..|y|] == y
    requires moreX ==> |p| > |x| && p[|x|] == '/'
    requires !moreX ==> |p| == |x|
    requires moreY ==> |p| > |y| && p[|y|] == '/'
    requires !moreY ==> |p| == |y|
    ensures x == y && moreX == moreY
  {
  }

  /** The decimal value of an all-digit view, and whether it was one. */
  function NumberOf(s: Span): (nat, bool) {
    IntValue(Bytes(s))
  }

  /** `fetch_hls_context_from_uri` on the context `c`: the outcome and the
      context it leaves. Storage is available or not as `live` and `archive`
      say. */
  function UriRoute(m: Request.LineMethod, items: seq<Span>, query: seq<Query>,
                    live: bool, archive: bool, c: Context): (HandleRes, Context)
  {
    match m
    case Post =>
      if |items| == 2 && (Equals(items[0], "live") || Equals(items[0], "archive")) then
        var c1 := c.(hlsMethod := if Equals(items[0], "live") then PostLiveChunk else PostArchiveChunk);
        if Equals(items[1], "files") then (Ok, c1) else (NotFound, c1)
      else (NotFound, c)
    case Get =>
      if |items| < 4 then (NotFound, c)
      else if !Equals(items[0], "hls") then (HandleRes(Error, 0), c)
      else
        var c1 := c.(hlsId := Bytes(items[1]));
        if Equals(items[2], "live") then LiveRoute(items[3], live, c1)
        else if Equals(items[2], "archive") then ArchiveRoute(items, query, archive, c1)
        else (NotFound, c1)
    case NoMethod => (NotFound, c)
  }

  /** The `live` branch of a GET. */
  function LiveRoute(file: Span, live: bool, c: Context): (HandleRes, Context) {
    if !live then (NotFound, c)
    else if Equals(file, "lastread") then (Ok, c.(hlsMethod := GetLiveLastRead))
    else
      var cut := CutBy(file, '.');
      if Equals(cut.1, "ts") then
        var v := NumberOf(cut.0);
        var c2 := c.(seqNo := v.0);
        if v.1 then (Ok, c2.(hlsMethod := GetLiveChunk)) else (NotFound, c2)
      else if Equals(cut.1, "m3u8") then (Ok, c.(hlsMethod := GetLivePlaylist))
      else (NotFound, c)
  }

  /** The `archive` branch of a GET. */
  function ArchiveRoute(items: seq<Span>, query: seq<Query>, archive: bool, c: Context): (HandleRes, Context)
    requires |items| >= 4
  {
    if !archive then (NotFound, c)
    else if Equals(items[3], "index.m3u8") then
      var start := NumberOf(FindQueryItem(query, "start"));
      var c2 := c.(hlsMethod := GetArchivePlaylist, startUtMsecs := start.0);
      if !start.1 then (NotFound, c2)
      else
        var duration := NumberOf(FindQueryItem(query, "duration"));
        var c3 := c2.(durationMsecs := duration.0);
        if !duration.1 then (NotFound, c3) else (Ok, c3)
    else (Ok, c.(path := c.path + JoinPath(Words(items[3..])), hlsMethod := GetArchiveChunk))
  }

  /** A POST is accepted exactly for `live/files` and `archive/files`,
      and is otherwise not found. Its routing looks neither at the query
      nor at which storages are available, and it records at most the
      chunk method, even when it then answers 404 (`live/other`). */
  lemma PostRoutes(items: seq<Span>, query: seq<Query>, live: bool, archive: bool, c: Context)
    ensures var r := UriRoute(Request.Post, items, query, live, archive, c);
      && (r.0 == Ok <==> |items| == 2 && (Equals(items[0], "live") || Equals(items[0], "archive")) && Equals(items[1], "files"))
      && (r.0 != Ok ==> r.0 == NotFound)
      && r == UriRoute(Request.Post, items, [], false, false, c)
      && r.1 == c.(hlsMethod := r.1.hlsMethod)
      && (r.1 != c ==> |items| == 2)
      && (|items| == 2 && Equals(items[0], "live") ==> r.1 == c.(hlsMethod := PostLiveChunk))
      && (|items| == 2 && Equals(items[0], "archive") ==> r.1 == c.(hlsMethod := PostArchiveChunk))
  {
  }

  /** A GET needs four path items starting with `hls`; with fewer it is not
      found, and with another first item it fails without a status code,
      leaving the context as it was in both cases. With the prefix, the
      second item is recorded as the stream id whatever the outcome, and a
      third item other than `live` or `archive` is not found. A request
      without a method is not found. */
  lemma GetNeedsHlsPrefix(items: seq<Span>, query: seq<Query>, live: bool, archive: bool, c: Context)
    ensures |items| < 4 ==> UriRoute(Request.Get, items, query, live, archive, c) == (NotFound, c)
    ensures |items| >= 4 && !Equals(items[0], "hls") ==>
      UriRoute(Request.Get, items, query, live, archive, c) == (HandleRes(Error, 0), c)
    ensures |items| >= 4 && Equals(items[0], "hls") ==>
      var r := UriRoute(Request.Get, items, query, live, archive, c);
      && r.1.hlsId == Bytes(items[1])
      && (!Equals(items[2], "live") && !Equals(items[2], "archive") ==> r == (NotFound, c.(hlsId := Bytes(items[1]))))
    ensures UriRoute(Request.NoMethod, items, query, live, archive, c) == (NotFound, c)
  {
    if |items| >= 4 && Equals(items[0], "hls") {
      BranchesKeepId(items, query, live, archive, c.(hlsId := Bytes(items[1])));
    }
  }

  /** Neither GET branch touches the stream id. */
  lemma BranchesKeepId(items: seq<Span>, query: seq<Query>, live: bool, archive: bool, c: Context)
    requires |items| >= 4
    ensures LiveRoute(items[3], live, c).1.hlsId == c.hlsId
    ensures ArchiveRoute(items, query, archive, c).1.hlsId == c.hlsId
  {
  }

  /** `<n>.ts` under `live` names chunk `n`, read back from the decimal
      numeral the live playlist writes. */
  lemma LiveChunkRoute(file: Span, n: nat, c: Context)
    requires Bytes(file) == NatToString(n) + ".ts"
    ensures LiveRoute(file, true, c) == (Ok, c.(seqNo := n, hlsMethod := GetLiveChunk))
  {
    var digits := NatToString(n);
    var b := Bytes(file);
    assert b == digits + ['.'] + "ts";
    assert b[|digits|] == '.';
    CutBySpec(file, '.');
    var cut := CutBy(file, '.');
    var x, y := Bytes(cut.0), Bytes(cut.1);
    assert '.' !in digits by {
      assert forall k :: 0 <= k < |digits| ==> IsDigit(digits[k]);
    }
    CutAtFirst(digits, "ts", x, y, '.');
    assert b != "lastread" by {
      assert b[|b| - 3] == '.';
    }
  }

  /** Where the first `ch` of `a + [ch] + b` is, when `a` holds none. */
  lemma CutAtFirst(a: string, b: string, x: string, y: string, ch: char)
    requires ch !in a && ch !in x && x + [ch] + y == a + [ch] + b
    ensures x == a && y == b
  {
    var t := a + [ch] + b;
    assert t[|x|] == ch && t[|a|] == ch;
    assert |x| == |a|;
    assert t[..|x|] == x && t[..|a|] == a;
    assert t[|x| + 1..] == y && t[|a| + 1..] == b;
  }

  /** An archive playlist request succeeds exactly when both `start` and
      `duration` are present as decimal numbers, which it records. */
  lemma ArchivePlaylistRoute(items: seq<Span>, query: seq<Query>, c: Context)
    requires |items| >= 4 && Equals(items[3], "index.m3u8")
    ensures var r := ArchiveRoute(items, query, true, c);
      var start := Bytes(FindQueryItem(query, "start"));
      var duration := Bytes(FindQueryItem(query, "duration"));
      && (r.0 == Ok <==> start != [] && AllDigits(start) && duration != [] && AllDigits(duration))
      && (r.0 != Ok ==> r.0 == NotFound)
      && (r.0 == Ok ==> r.1 == c.(hlsMethod := GetArchivePlaylist, startUtMsecs := DecimalValue(start),
                                  durationMsecs := DecimalValue(duration)))
  {
  }

  /** Any other archive request names a chunk file by the path items after
      the third, joined by '/' and appended to the context's path. */
  lemma ArchiveChunkRoute(items: seq<Span>, query: seq<Query>, c: Context)
    requires |items| >= 4 && !Equals(items[3], "index.m3u8")
    ensures ArchiveRoute(items, query, true, c)
            == (Ok, c.(path := c.path + JoinPath(Words(items[3..])), hlsMethod := GetArchiveChunk))
  {
  }

  /** `fetch_hls_context_from_header` on the context `c`: only a POST's
      headers count, and each `X-HLS-*` field is taken only while unset. */
  function HeaderRoute(m: Request.LineMethod, key: Span, value: Span, c: Context): (HandleRes, Context) {
    if m != Request.Post then (Ignored, c)
    else if c.hlsId == [] && Equals(key, "X-HLS-ID") then (Ok, c.(hlsId := Bytes(value)))
    else if c.startUtMsecs == -1 && Equals(key, "X-HLS-TIMESTAMP") then
      var v := NumberOf(value);
      (if v.1 then Ok else NotFound, c.(startUtMsecs := v.0))
    else if c.durationMsecs == -1 && Equals(key, "X-HLS-DURATION") then
      var v := NumberOf(value);
      (if v.1 then Ok else NotFound, c.(durationMsecs := v.0))
    else if c.seqNo == -1 && Equals(key, "X-HLS-SEQ") then
      var v := NumberOf(value);
      (if v.1 then Ok else NotFound, c.(seqNo := v.0))
    else (Ignored, c)
  }

  /** The names of the four context headers. */
  predicate ContextHeader(key: string) {
    key == "X-HLS-ID" || key == "X-HLS-TIMESTAMP" || key == "X-HLS-DURATION" || key == "X-HLS-SEQ"
  }

  /** Headers of other methods, and headers other than the four, change
      nothing; the only error is 404, and only for a numeric header whose
      value is not a decimal numeral (the converse is `HeaderRouteSets`). */
  lemma HeaderRouteIgnores(m: Request.LineMethod, key: Span, value: Span, c: Context)
    ensures m != Request.Post || !ContextHeader(Bytes(key)) ==> HeaderRoute(m, key, value, c) == (Ignored, c)
    ensures var r := HeaderRoute(m, key, value, c);
      r.0.kind == Error ==> r.0 == NotFound && Bytes(key) != "X-HLS-ID" && !(Bytes(value) != [] && AllDigits(Bytes(value)))
  {
  }

  /** What a POST's `X-HLS-*` header writes. X-HLS-ID sets the stream id to
      the value while the id is empty. Each numeric header, while its field
      is -1, succeeds exactly when the value is a non-empty decimal numeral
      and then stores the numeral's value; any other value fails with 404.
      In both cases the field takes what `to_int` returned and nothing else
      changes. A field already set makes its header ignored. */
  lemma HeaderRouteSets(key: Span, value: Span, c: Context)
    ensures Bytes(key) == "X-HLS-ID" ==>
      HeaderRoute(Request.Post, key, value, c) ==
        (if c.hlsId == [] then (Ok, c.(hlsId := Bytes(value))) else (Ignored, c))
    ensures Bytes(key) == "X-HLS-TIMESTAMP" ==>
      var r := HeaderRoute(Request.Post, key, value, c);
      if c.startUtMsecs != -1 then r == (Ignored, c)
      else
        && (r.0 == Ok <==> Bytes(value) != [] && AllDigits(Bytes(value)))
        && (r.0 != Ok ==> r.0 == NotFound)
        && r.1 == c.(startUtMsecs := r.1.startUtMsecs)
        && (r.0 == Ok ==> r.1.startUtMsecs == DecimalValue(Bytes(value)))
    ensures Bytes(key) == "X-HLS-DURATION" ==>
      var r := HeaderRoute(Request.Post, key, value, c);
      if c.durationMsecs != -1 then r == (Ignored, c)
      else
        && (r.0 == Ok <==> Bytes(value) != [] && AllDigits(Bytes(value)))
        && (r.0 != Ok ==> r.0 == NotFound)
        && r.1 == c.(durationMsecs := r.1.durationMsecs)
        && (r.0 == Ok ==> r.1.durationMsecs == DecimalValue(Bytes(value)))
    ensures Bytes(key) == "X-HLS-SEQ" ==>
      var r := HeaderRoute(Request.Post, key, value, c);
      if c.seqNo != -1 then r == (Ignored, c)
      else
        && (r.0 == Ok <==> Bytes(value) != [] && AllDigits(Bytes(value)))
        && (r.0 != Ok ==> r.0 == NotFound)
        && r.1 == c.(seqNo := r.1.seqNo)
        && (r.0 == Ok ==> r.1.seqNo == DecimalValue(Bytes(value)))
  {
  }

  /** Once a header has set its field, the same header again is ignored. */
  lemma HeaderSetsOnce(key: Span, v1: Span, v2: Span, c: Context)
    requires ContextHeader(Bytes(key))
    requires HeaderRoute(Request.Post, key, v1, c).0 == Ok
    requires Bytes(key) == "X-HLS-ID" ==> Size(v1) > 0
    ensures var c1 := HeaderRoute(Request.Post, key, v1, c).1;
      HeaderRoute(Request.Post, key, v2, c1) == (Ignored, c1)
  {
  }

  /** `hls_context`. */
  class HlsContext {
    var hlsId: string
    var seqNo: int
    var startUtMsecs: int
    var durationMsecs: int
    var hlsMethod: HlsMethod
    var path: string

    function Value(): Context
      reads this
    {
      Context(hlsId, seqNo, startUtMsecs, durationMsecs, hlsMethod, path)
    }

    constructor ()
      ensures Value() == Fresh
    {
      hlsId, seqNo, startUtMsecs, durationMsecs, hlsMethod, path := [], -1, -1, -1, Undefined, [];
    }
  }

  /** `fetch_hls_context_from_uri(method, uri, cxt)`. */
  method FetchFromUri(m: Request.LineMethod, u: Uri, live: bool, archive: bool, cxt: HlsContext)
    returns (res: HandleRes)
    modifies cxt
    ensures (res, cxt.Value()) == UriRoute(m, u.pathItems, u.queryItems, live, archive, old(cxt.Value()))
  {
    var items := u.pathItems;
    match m {
      case Post =>
        if |items| == 2 {
          if Equals(items[0], "live") {
            cxt.hlsMethod := PostLiveChunk;
          } else if Equals(items[0], "archive") {
            cxt.hlsMethod := PostArchiveChunk;
          } else {
            return NotFound;
          }
          if Equals(items[1], "files") {
            return Ok;
          }
        }
        return NotFound;
      case Get =>
        if |items| < 4 {
          return NotFound;
        }
        if !Equals(items[0], "hls") {
          return HandleRes(Error, 0);
        }
        cxt.hlsId := Bytes(items[1]);
        if Equals(items[2], "live") {
          res := FetchLive(items[3], live, cxt);
        } else if Equals(items[2], "archive") {
          res := FetchArchive(items, u.queryItems, archive, cxt);
        } else {
          res := NotFound;
        }
      case NoMethod =>
        return NotFound;
    }
  }

  /** The `live` branch of `fetch_hls_context_from_uri`. */
  method FetchLive(item: Span, live: bool, cxt: HlsContext) returns (res: HandleRes)
    modifies cxt
    ensures (res, cxt.Value()) == LiveRoute(item, live, old(cxt.Value()))
  {
    if !live {
      return NotFound;
    }
    if Equals(item, "lastread") {
      cxt.hlsMethod := GetLiveLastRead;
      return Ok;
    }
    var cut := CutBy(item, '.');
    var name, file := cut.0, cut.1;
    if Equals(file, "ts") {
      var value, ok := ToInt(name);
      cxt.seqNo := value;
      if ok {
        cxt.hlsMethod := GetLiveChunk;
        return Ok;
      }
    } else if Equals(file, "m3u8") {
      cxt.hlsMethod := GetLivePlaylist;
      return Ok;
    }
    return NotFound;
  }

  /** The `archive` branch of `fetch_hls_context_from_uri`. */
  method FetchArchive(items: seq<Span>, query: seq<Query>, archive: bool, cxt: HlsContext) returns (res: HandleRes)
    requires |items| >= 4
    modifies cxt
    ensures (res, cxt.Value()) == ArchiveRoute(items, query, archive, old(cxt.Value()))
  {
    if !archive {
      return NotFound;
    }
    if Equals(items[3], "index.m3u8") {
      cxt.hlsMethod := GetArchivePlaylist;
      var value, ok := ToInt(FindQueryItem(query, "start"));
      cxt.startUtMsecs := value;
      if !ok {
        return NotFound;
      }
      value, ok := ToInt(FindQueryItem(query, "duration"));
      cxt.durationMsecs := value;
      if !ok {
        return NotFound;
      }
      return Ok;
    }
    var tail := ChunkPath(items, 3);
    cxt.path := cxt.path + tail;
    cxt.hlsMethod := GetArchiveChunk;
    return Ok;
  }

  /** The archive branch's loop from item `from` on: each item, followed by
      a '/' unless it is the last. */
  method ChunkPath(items: seq<Span>, from: nat) returns (p: string)
    requires from <= |items|
    ensures p == JoinPath(Words(items[from..]))
  {
    p := [];
    var i := from;
    while i < |items|
      invariant from <= i <= |items|
      invariant p == JoinPath(Words(items[from..i])) + (if from < i < |items| then "/" else "")
    {
      p := p + Bytes(items[i]);
      PathStep(items, from, i);
      if i + 1 < |items| {
        p := p + "/";
      }
      i := i + 1;
    }
    assert items[from..i] == items[from..];
  }

  lemma PathStep(items: seq<Span>, from: nat, i: nat)
    requires from <= i < |items|
    ensures JoinPath(Words(items[from..i + 1]))
            == JoinPath(Words(items[from..i])) + (if from < i then "/" else "") + Bytes(items[i])
  {
    assert Words(items[from..i + 1]) == Words(items[from..i]) + [Bytes(items[i])];
    if from < i {
      JoinPathSnoc(Words(items[from..i]), Bytes(items[i]));
    } else {
      assert Words(items[from..i + 1]) == [Bytes(items[i])];
    }
  }

  /** `fetch_hls_context_from_header(method, key, value, cxt)`. */
  method FetchFromHeader(m: Request.LineMethod, key: Span, value: Span, cxt: HlsContext) returns (res: HandleRes)
    modifies cxt
    ensures (res, cxt.Value()) == HeaderRoute(m, key, value, old(cxt.Value()))
  {
    if m != Request.Post {
      return Ignored;
    }
    var ok;
    if cxt.hlsId == [] && Equals(key, "X-HLS-ID") {
      cxt.hlsId := Bytes(value);
      return Ok;
    } else if cxt.startUtMsecs == -1 && Equals(key, "X-HLS-TIMESTAMP") {
      cxt.startUtMsecs, ok := ToInt(value);
    } else if cxt.durationMsecs == -1 && Equals(key, "X-HLS-DURATION") {
      cxt.durationMsecs, ok := ToInt(value);
    } else if cxt.seqNo == -1 && Equals(key, "X-HLS-SEQ") {
      cxt.seqNo, ok := ToInt(value);
    } else {
      return Ignored;
    }
    return if ok then Ok else NotFound;
  }

  /** `handle_uri(req, uri)`: a fresh context is routed and kept for the
      request unless routing failed, in which case it is dropped. */
  method HandleUri(m: Request.LineMethod, u: Uri, live: bool, archive: bool)
    returns (res: HandleRes, attached: Option<HlsContext>)
    ensures var r := UriRoute(m, u.pathItems, u.queryItems, live, archive, Fresh);
      && res == r.0
      && (attached.Some? <==> res.kind != Error)
      && (attached.Some? ==> fresh(attached.value) && attached.value.Value() == r.1)
  {
    var cxt := new HlsContext();
    res := FetchFromUri(m, u, live, archive, cxt);
    if res.kind == Success || res.kind == Ignore {
      attached := Some(cxt);
    } else {
      attached := None;
    }
  }

  /** `handle_header(req, key, value)`: without an attached context the
      request fails with 500; otherwise the header is routed into it, and a
      context whose routing failed is dropped. */
  method HandleHeader(m: Request.LineMethod, key: Span, value: Span, attached: Option<HlsContext>)
    returns (res: HandleRes, kept: Option<HlsContext>)
    modifies if attached.Some? then {attached.value} else {}
    ensures attached.None? ==> res == HandleRes(Error, 500) && kept.None?
    ensures attached.Some? ==>
      var r := HeaderRoute(m, key, value, old(attached.value.Value()));
      && res == r.0 && attached.value.Value() == r.1
      && (kept.Some? <==> res.kind != Error)
      && (kept.Some? ==> kept.value == attached.value)
  {
    if attached.None? {
      return HandleRes(Error, 500), None;
    }
    var cxt := attached.value;
    res := FetchFromHeader(m, key, value, cxt);
    if res.kind == Error {
      kept := None;
    } else {
      kept := attached;
    }
  }
}
