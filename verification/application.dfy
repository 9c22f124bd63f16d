/**
 * The first server front end (application.cpp): `handle_post` reads the
 * `X-HLS-*` headers of a POST and hands the chunk, with the request body as
 * its data, to `post_chunk`, which keeps one deque of at most `max_size`
 * (20) chunks per playlist id. The room checks of this copy differ from the
 * later `hls_live_storage`.
 */
module App {
  import opened Common
  import opened ChunkWindow
  import Request

  /** `playlist::max_size`. */
  const MaxSize: nat := 20

  /** Where `post_chunk` puts a chunk in a non-empty contiguous deque, before
      the front is trimmed: before the first chunk, with dummies for the
      numbers between, when the room left exceeds the gap (otherwise
      nowhere); over the slot of its own number when it falls inside;
      nowhere when it repeats the last number; and after the last chunk,
      with dummies for the numbers between, when the room left exceeds the
      gap, or alone after clearing the deque when it does not. The room is
      `max_size - size` computed on `size_t` and read back as `int64_t`,
      which is the plain difference for any realistic size. */
  function PostPlaced(cs: seq<Chunk>, c: Chunk): (r: seq<Chunk>)
    requires Contiguous(cs) && cs != []
  {
    var backGap := c.seqNo - Last(cs).seqNo;
    var room := MaxSize - |cs|;
    if backGap < 0 then
      var frontGap := cs[0].seqNo - c.seqNo;
      if frontGap > 0 then
        if room > frontGap then [c] + Run(c.seqNo + 1, frontGap - 1) + cs else cs
      else
        assert cs[|cs| - 1].seqNo == cs[0].seqNo + |cs| - 1;
        cs[|cs| - 1 + backGap := c]
    else if backGap == 0 then cs
    else if room > backGap then cs + Run(Last(cs).seqNo + 1, backGap - 1) + [c]
    else [c]
  }

  /** The deque after `post_chunk(id, c)`: the chunk alone in an empty deque,
      otherwise the placed deque cut down to its newest `max_size` chunks. */
  function PostAdded(cs: seq<Chunk>, c: Chunk): (r: seq<Chunk>)
    requires Contiguous(cs)
    ensures cs == [] ==> r == [c]
    ensures 0 < |r| <= MaxSize
  {
    if cs == [] then [c] else KeepNewest(PostPlaced(cs, c), MaxSize)
  }

  /** Every update keeps the numbers of the deque consecutive. */
  lemma PostAddedContiguous(cs: seq<Chunk>, c: Chunk)
    requires Contiguous(cs)
    ensures Contiguous(PostAdded(cs, c))
  {
    if cs != [] {
      var backGap := c.seqNo - Last(cs).seqNo;
      var frontGap := cs[0].seqNo - c.seqNo;
      var room := MaxSize - |cs|;
      if backGap < 0 && frontGap > 0 && room > frontGap {
        PrependContiguous(cs, c, frontGap);
      } else if backGap < 0 && frontGap <= 0 {
        ReplaceContiguous(cs, c);
      } else if 0 < backGap < room {
        AppendContiguous(cs, c, backGap);
      }
      KeepNewestContiguous(PostPlaced(cs, c), MaxSize);
    }
  }

  /** A chunk ahead of the last by less than the room left goes at the end,
      the numbers it skips filled with dummies; nothing is erased. */
  lemma PostAppends(cs: seq<Chunk>, c: Chunk)
    requires Contiguous(cs) && cs != []
    requires 0 < c.seqNo - Last(cs).seqNo < MaxSize - |cs|
    ensures var g := c.seqNo - Last(cs).seqNo;
      PostAdded(cs, c) == cs + Run(Last(cs).seqNo + 1, g - 1) + [c]
  {
  }

  /** A chunk ahead of the last by at least the room left clears the deque
      and stays alone in it. */
  lemma PostClears(cs: seq<Chunk>, c: Chunk)
    requires Contiguous(cs) && cs != []
    requires 0 < c.seqNo - Last(cs).seqNo && MaxSize - |cs| <= c.seqNo - Last(cs).seqNo
    ensures PostAdded(cs, c) == [c]
  {
  }

  /** A chunk repeating the last number changes nothing in a deque within
      its capacity. */
  lemma PostIgnoresRepeat(cs: seq<Chunk>, c: Chunk)
    requires Contiguous(cs) && cs != [] && |cs| <= MaxSize
    requires c.seqNo == Last(cs).seqNo
    ensures PostAdded(cs, c) == cs
  {
  }

  /** A chunk numbered from the first up to before the last replaces exactly
      the chunk with its number; every other slot is unchanged. */
  lemma PostReplaces(cs: seq<Chunk>, c: Chunk)
    requires Contiguous(cs) && cs != [] && |cs| <= MaxSize
    requires cs[0].seqNo <= c.seqNo < Last(cs).seqNo
    ensures var r := PostAdded(cs, c);
      && |r| == |cs|
      && r[c.seqNo - cs[0].seqNo] == c
      && forall k :: 0 <= k < |cs| && k != c.seqNo - cs[0].seqNo ==> r[k] == cs[k]
  {
    ReplaceContiguous(cs, c);
  }

  /** A chunk before the first is put in front, the numbers it skips filled
      with dummies, exactly when the room left exceeds the gap; otherwise a
      deque within its capacity is unchanged. */
  lemma PostPrepends(cs: seq<Chunk>, c: Chunk)
    requires Contiguous(cs) && cs != [] && |cs| <= MaxSize
    requires c.seqNo < cs[0].seqNo
    ensures var g := cs[0].seqNo - c.seqNo;
      && (MaxSize - |cs| > g ==> PostAdded(cs, c) == [c] + Run(c.seqNo + 1, g - 1) + cs)
      && (MaxSize - |cs| <= g ==> PostAdded(cs, c) == cs)
  {
    var g := cs[0].seqNo - c.seqNo;
    assert Last(cs).seqNo == cs[0].seqNo + |cs| - 1;
    if MaxSize - |cs| > g {
      var p := [c] + Run(c.seqNo + 1, g - 1) + cs;
      assert PostPlaced(cs, c) == p;
      assert |p| < MaxSize;
    } else {
      assert PostPlaced(cs, c) == cs;
    }
  }

  /** As written, the deque never grows past `max_size - 1` chunks: once it
      holds 19, the next chunk in sequence clears it, and the stream's
      history restarts from that one chunk. */
  lemma NextChunkClearsFullDeque(cs: seq<Chunk>, c: Chunk)
    requires Contiguous(cs) && |cs| == MaxSize - 1
    requires c.seqNo == Last(cs).seqNo + 1
    ensures PostAdded(cs, c) == [c]
  {
    PostClears(cs, c);
  }

  /** The concrete case: chunks 1 to 19 held, chunk 20 arrives. */
  lemma TwentiethChunkClears()
    ensures PostAdded(Run(1, 19), Dummy(20)) == [Dummy(20)]
  {
    var cs := Run(1, 19);
    assert Last(cs) == Dummy(19);
    NextChunkClearsFullDeque(cs, Dummy(20));
  }

  /** The evidently intended update: a chunk ahead of the last by less than
      `max_size` goes at the end after its dummies, and the front is trimmed;
      only a jump of a whole window or more clears the deque. The other
      branches are those of `PostPlaced`. */
  function PostPlacedIntended(cs: seq<Chunk>, c: Chunk): (r: seq<Chunk>)
    requires Contiguous(cs) && cs != []
  {
    var backGap := c.seqNo - Last(cs).seqNo;
    if backGap <= 0 then PostPlaced(cs, c)
    else if backGap < MaxSize then cs + Run(Last(cs).seqNo + 1, backGap - 1) + [c]
    else [c]
  }

  function PostAddedIntended(cs: seq<Chunk>, c: Chunk): (r: seq<Chunk>)
    requires Contiguous(cs)
    ensures cs == [] ==> r == [c]
    ensures 0 < |r| <= MaxSize
  {
    if cs == [] then [c] else KeepNewest(PostPlacedIntended(cs, c), MaxSize)
  }

  /** With the intended update, a chunk ahead of the last by less than
      `max_size` ends the deque, which stays contiguous and keeps the newest
      `max_size` numbers. */
  lemma IntendedKeepsHistory(cs: seq<Chunk>, c: Chunk)
    requires Contiguous(cs) && cs != [] && |cs| <= MaxSize
    requires 0 < c.seqNo - Last(cs).seqNo < MaxSize
    ensures var g := c.seqNo - Last(cs).seqNo;
      var r := PostAddedIntended(cs, c);
      && r == KeepNewest(cs + Run(Last(cs).seqNo + 1, g - 1) + [c], MaxSize)
      && Contiguous(r) && Last(r) == c
      && |r| == if |cs| + g > MaxSize then MaxSize else |cs| + g
  {
    var g := c.seqNo - Last(cs).seqNo;
    var p := cs + Run(Last(cs).seqNo + 1, g - 1) + [c];
    assert PostPlacedIntended(cs, c) == p;
    AppendContiguous(cs, c, g);
    NewestFirst(p, MaxSize);
  }

  /** In particular, the next chunk in sequence on a full deque drops only
      the oldest chunk. */
  lemma IntendedSlidesFullDeque(cs: seq<Chunk>, c: Chunk)
    requires Contiguous(cs) && |cs| == MaxSize
    requires c.seqNo == Last(cs).seqNo + 1
    ensures PostAddedIntended(cs, c) == cs[1..] + [c]
  {
    var p := cs + [c];
    assert PostPlacedIntended(cs, c) == p;
    assert KeepNewest(p, MaxSize) == p[1..];
  }

  /** `fetch_str_header`: the header's value and true, or the empty string
      and false when the request has no such header. */
  function FetchStrHeader(headers: map<string, string>, name: string): (r: (string, bool))
    ensures r.1 <==> name in headers
    ensures r.1 ==> r.0 == headers[name]
    ensures !r.1 ==> r.0 == []
  {
    if name in headers then (headers[name], true) else ([], false)
  }

  /** `fetch_int_header`: the header's value read by `std::stoi` and true, or
      0 and false when the request has no such header. */
  function FetchIntHeader(headers: map<string, string>, name: string, stoi: string -> int): (r: (int, bool))
    ensures r.1 <==> name in headers
    ensures r.1 ==> r.0 == stoi(headers[name])
    ensures !r.1 ==> r.0 == 0
  {
    if name in headers then (stoi(headers[name]), true) else (0, false)
  }

  /** The four headers a chunk upload must carry. */
  predicate HasChunkHeaders(headers: map<string, string>) {
    && "X-HLS-ID" in headers && "X-HLS-TIMESTAMP" in headers
    && "X-HLS-DURATION" in headers && "X-HLS-SEQ" in headers
  }

  /** The chunk `handle_post` builds from the headers, holding the request
      body (none gives an empty buffer). */
  function UploadedChunk(headers: map<string, string>, body: Option<string>, stoi: string -> int): Chunk
    requires HasChunkHeaders(headers)
  {
    Chunk(stoi(headers["X-HLS-SEQ"]), stoi(headers["X-HLS-TIMESTAMP"]), stoi(headers["X-HLS-DURATION"]),
          if body.Some? then body.value else [])
  }

  /** The deque of playlist `id`, empty when there is none yet. */
  function DequeOf(ps: map<string, seq<Chunk>>, id: string): seq<Chunk> {
    if id in ps then ps[id] else []
  }

  /** The deque part of `post_chunk`, on a contiguous deque. */
  method Post(cs: seq<Chunk>, c: Chunk) returns (r: seq<Chunk>)
    requires Contiguous(cs)
    ensures r == PostAdded(cs, c)
  {
    if cs == [] {
      return [c];
    }
    r := Place(cs, c);
    var diff := |r| - MaxSize;
    if diff > 0 {
      r := r[diff..];
    }
  }

  /** The branches of `post_chunk` on a non-empty deque, before the erase. */
  method Place(cs: seq<Chunk>, c: Chunk) returns (r: seq<Chunk>)
    requires Contiguous(cs) && cs != []
    ensures r == PostPlaced(cs, c)
  {
    var last := cs[|cs| - 1];
    var backGap := c.seqNo - last.seqNo;
    if backGap < 0 {
      var frontGap := cs[0].seqNo - c.seqNo;
      if frontGap > 0 {
        var avaible := MaxSize - |cs|;
        if avaible > frontGap {
          r := PushFront(cs, c, frontGap);
        } else {
          r := cs;
        }
      } else {
        assert cs[|cs| - 1].seqNo == cs[0].seqNo + |cs| - 1;
        r := cs[|cs| - 1 + backGap := c];
      }
    } else if backGap == 0 {
      r := cs;
    } else {
      var avaible := MaxSize - |cs|;
      if avaible > backGap {
        r := PushBackRun(cs, last.seqNo + 1, backGap - 1);
      } else {
        r := [];
      }
      r := r + [c];
    }
  }

  /** `application`: the playlists it has been posted, by id. */
  class Application {
    var playlists: map<string, seq<Chunk>>

    /** Every deque is non-empty (a playlist is created together with its
        first chunk), contiguous and within `max_size`. */
    ghost predicate Valid()
      reads this
    {
      forall id :: id in playlists ==> Contiguous(playlists[id]) && 0 < |playlists[id]| <= MaxSize
    }

    constructor ()
      ensures playlists == map[] && Valid()
    {
      playlists := map[];
    }

    /** `post_chunk(id, c)`: creates the playlist if need be and updates its
        deque; it never refuses a chunk. */
    method PostChunk(id: string, c: Chunk) returns (ok: bool)
      requires Valid()
      modifies this
      ensures Valid() && ok
      ensures playlists == old(playlists)[id := PostAdded(DequeOf(old(playlists), id), c)]
    {
      var cs := if id in playlists then playlists[id] else [];
      PostAddedContiguous(cs, c);
      cs := Post(cs, c);
      playlists := playlists[id := cs];
      ok := true;
    }

    /** `handle_post(req)`: 400 and nothing stored when any of the four
        headers is missing; otherwise the chunk is posted with the request
        body as its data, the answer is 200, and the request no longer owns
        the body. */
    method HandlePost(req: Request.Request, stoi: string -> int)
      requires Valid()
      modifies this, req`respCode, req`body
      ensures Valid()
      ensures !HasChunkHeaders(old(req.headers)) ==>
        && req.respCode == 400 && req.body == old(req.body) && playlists == old(playlists)
      ensures HasChunkHeaders(old(req.headers)) ==>
        var id := old(req.headers)["X-HLS-ID"];
        var c := UploadedChunk(old(req.headers), old(req.body), stoi);
        && req.respCode == 200 && req.body.None?
        && playlists == old(playlists)[id := PostAdded(DequeOf(old(playlists), id), c)]
    {
      var id := FetchStrHeader(req.headers, "X-HLS-ID");
      if !id.1 {
        req.respCode := 400;
        return;
      }
      var start := FetchIntHeader(req.headers, "X-HLS-TIMESTAMP", stoi);
      if !start.1 {
        req.respCode := 400;
        return;
      }
      var duration := FetchIntHeader(req.headers, "X-HLS-DURATION", stoi);
      if !duration.1 {
        req.respCode := 400;
        return;
      }
      var sequence := FetchIntHeader(req.headers, "X-HLS-SEQ", stoi);
      if !sequence.1 {
        req.respCode := 400;
        return;
      }
      // the chunk is shared with the deque, so the body attached after
      // `post_chunk` is the data of the stored chunk
      var data := if req.body.Some? then req.body.value else [];
      // `post_chunk` always succeeds, so the 500 branch is never taken
      var _ := PostChunk(id.0, Chunk(sequence.0, start.0, duration.0, data));
      req.respCode := 200;
      req.body := None;
    }
  }
}
