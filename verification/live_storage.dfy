/**
 * `hls_live_storage` (hls_live_storage/hls_live_storage.cpp): one deque of
 * chunks per playlist id, updated by `add_chunk`, and the playlist text
 * cached beside it, which lists the newest `live_size` chunks.
 */
module LiveStorage {
  import opened Common
  import opened ChunkWindow

  /** Where `add_chunk` puts a chunk in a non-empty contiguous deque, before
      the oldest chunks are erased: before the first chunk, with dummies for
      the numbers between, when the room left exceeds the gap (otherwise
      nowhere); over the slot of its own number when it falls inside; nowhere
      when it repeats the last number; after the last chunk, with dummies for
      the numbers between, when the gap is at most `live_size`; and alone,
      after clearing the deque, for a larger jump. */
  function Placed(cs: seq<Chunk>, c: Chunk, liveSize: nat, keepSize: nat): (r: seq<Chunk>)
    requires Contiguous(cs) && cs != []
  {
    var backGap := c.seqNo - Last(cs).seqNo;
    if backGap < 0 then
      var frontGap := cs[0].seqNo - c.seqNo;
      if frontGap > 0 then
        if keepSize - |cs| > frontGap then [c] + Run(c.seqNo + 1, frontGap - 1) + cs else cs
      else
        assert cs[|cs| - 1].seqNo == cs[0].seqNo + |cs| - 1;
        cs[|cs| - 1 + backGap := c]
    else if backGap == 0 then cs
    else if backGap <= liveSize then cs + Run(Last(cs).seqNo + 1, backGap - 1) + [c]
    else [c]
  }

  /** The deque after `add_chunk` accepts `c`: the chunk alone in an empty
      deque, otherwise the placed deque cut down to its newest `keep_size`
      chunks. */
  function Added(cs: seq<Chunk>, c: Chunk, liveSize: nat, keepSize: nat): (r: seq<Chunk>)
    requires Contiguous(cs)
    ensures cs == [] ==> r == [c]
    ensures cs != [] ==> |r| <= keepSize
  {
    if cs == [] then [c] else KeepNewest(Placed(cs, c, liveSize, keepSize), keepSize)
  }

  /** Every update keeps the numbers of the deque consecutive. */
  lemma AddedContiguous(cs: seq<Chunk>, c: Chunk, liveSize: nat, keepSize: nat)
    requires Contiguous(cs)
    ensures Contiguous(Added(cs, c, liveSize, keepSize))
  {
    if cs != [] {
      var backGap := c.seqNo - Last(cs).seqNo;
      var frontGap := cs[0].seqNo - c.seqNo;
      if backGap < 0 && frontGap > 0 && keepSize - |cs| > frontGap {
        PrependContiguous(cs, c, frontGap);
      } else if backGap < 0 && frontGap <= 0 {
        ReplaceContiguous(cs, c);
      } else if 0 < backGap <= liveSize {
        AppendContiguous(cs, c, backGap);
      }
      KeepNewestContiguous(Placed(cs, c, liveSize, keepSize), keepSize);
    }
  }

  /** A chunk right after the last, or at most `live_size` ahead of it,
      goes at the end, the numbers it skips filled with dummies, and then
      the oldest chunks are erased down to `keep_size`. */
  lemma AddedAppends(cs: seq<Chunk>, c: Chunk, liveSize: nat, keepSize: nat)
    requires Contiguous(cs) && cs != []
    requires 0 < c.seqNo - Last(cs).seqNo <= liveSize
    ensures var g := c.seqNo - Last(cs).seqNo;
      Added(cs, c, liveSize, keepSize) == KeepNewest(cs + Run(Last(cs).seqNo + 1, g - 1) + [c], keepSize)
    ensures keepSize > 0 ==> Last(Added(cs, c, liveSize, keepSize)) == c
  {
  }

  /** A chunk more than `live_size` ahead of the last clears the deque and
      stays alone in it. */
  lemma AddedJumps(cs: seq<Chunk>, c: Chunk, liveSize: nat, keepSize: nat)
    requires Contiguous(cs) && cs != [] && keepSize > 0
    requires c.seqNo - Last(cs).seqNo > liveSize
    ensures Added(cs, c, liveSize, keepSize) == [c]
  {
  }

  /** A chunk repeating the last number changes nothing in a deque within
      its capacity. */
  lemma AddedIgnoresRepeat(cs: seq<Chunk>, c: Chunk, liveSize: nat, keepSize: nat)
    requires Contiguous(cs) && cs != [] && |cs| <= keepSize
    requires c.seqNo == Last(cs).seqNo
    ensures Added(cs, c, liveSize, keepSize) == cs
  {
  }

  /** A chunk numbered from the first up to before the last replaces exactly
      the chunk with its number; every other slot is unchanged. */
  lemma AddedReplaces(cs: seq<Chunk>, c: Chunk, liveSize: nat, keepSize: nat)
    requires Contiguous(cs) && cs != [] && |cs| <= keepSize
    requires cs[0].seqNo <= c.seqNo < Last(cs).seqNo
    ensures var r := Added(cs, c, liveSize, keepSize);
      && |r| == |cs|
      && r[c.seqNo - cs[0].seqNo] == c
      && forall k :: 0 <= k < |cs| && k != c.seqNo - cs[0].seqNo ==> r[k] == cs[k]
  {
    ReplaceContiguous(cs, c);
  }

  /** A chunk before the first is put in front, the numbers it skips filled
      with dummies, exactly when the room left exceeds the gap; otherwise a
      deque within its capacity is unchanged. */
  lemma AddedPrepends(cs: seq<Chunk>, c: Chunk, liveSize: nat, keepSize: nat)
    requires Contiguous(cs) && cs != [] && |cs| <= keepSize
    requires c.seqNo < cs[0].seqNo
    ensures var g := cs[0].seqNo - c.seqNo;
      && (keepSize - |cs| > g ==> Added(cs, c, liveSize, keepSize) == [c] + Run(c.seqNo + 1, g - 1) + cs)
      && (keepSize - |cs| <= g ==> Added(cs, c, liveSize, keepSize) == cs)
  {
    var g := cs[0].seqNo - c.seqNo;
    assert Last(cs).seqNo == cs[0].seqNo + |cs| - 1;
    if keepSize - |cs| > g {
      var p := [c] + Run(c.seqNo + 1, g - 1) + cs;
      assert Placed(cs, c, liveSize, keepSize) == p;
      assert |p| < keepSize;
    } else {
      assert Placed(cs, c, liveSize, keepSize) == cs;
    }
  }

  /** `build_chunk_url`. */
  function ChunkUrl(host: string, id: string, s: int): string {
    "http://" + host + "/hls/" + id + "/" + IntToString(s) + ".ts"
  }

  /** The URL of a chunk with a non-negative number ends in its decimal
      numeral and ".ts". */
  lemma ChunkUrlNames(host: string, id: string, s: nat)
    ensures var u := ChunkUrl(host, id, s);
      var name := NatToString(s) + ".ts";
      |u| >= |name| && u[|u| - |name|..] == name && DecimalValue(NatToString(s)) == s
  {
    var u := ChunkUrl(host, id, s);
    var p := "http://" + host + "/hls/" + id + "/";
    assert u == p + (NatToString(s) + ".ts");
  }

  /** A line of a live playlist. */
  datatype Line = ExtM3u | TargetDuration | Version | MediaSequence(first: int) | ExtInf | Url(seqNo: int)

  /** The text of a line; a URL line is the chunk's URL. */
  function LineText(host: string, id: string, l: Line): string {
    match l
    case ExtM3u => "#EXTM3U"
    case TargetDuration => "#EXT-X-TARGETDURATION:2"
    case Version => "#EXT-X-VERSION:3"
    case MediaSequence(first) => "#EXT-X-MEDIA-SEQUENCE:" + IntToString(first)
    case ExtInf => "#EXTINF:2.000000,"
    case Url(s) => ChunkUrl(host, id, s)
  }

  /** What the string stream holds: the text of each line, ended by
      `std::endl`. */
  function Render(host: string, id: string, lines: seq<Line>): string
    decreases |lines|
  {
    if lines == [] then []
    else Render(host, id, lines[..|lines| - 1]) + LineText(host, id, lines[|lines| - 1]) + "\n"
  }

  /** The four lines every non-empty playlist starts with, the last one
      naming the number of the first listed chunk. */
  function HeadLines(first: int): seq<Line> {
    [ExtM3u, TargetDuration, Version, MediaSequence(first)]
  }

  /** Two lines per listed chunk, in deque order: its duration, then its
      URL. */
  function EntryLines(cs: seq<Chunk>): (lines: seq<Line>)
    ensures |lines| == 2 * |cs|
    decreases |cs|
  {
    if cs == [] then [] else EntryLines(cs[..|cs| - 1]) + [ExtInf, Url(Last(cs).seqNo)]
  }

  lemma EntryLinesSnoc(cs: seq<Chunk>, c: Chunk)
    ensures EntryLines(cs + [c]) == EntryLines(cs) + [ExtInf, Url(c.seqNo)]
  {
    assert (cs + [c])[..|cs|] == cs;
  }

  /** The lines `build_playlist` writes: none for an empty deque; otherwise
      the head lines and the entries of the newest `live_size` chunks. */
  function PlaylistLines(liveSize: nat, cs: seq<Chunk>): (lines: seq<Line>)
    requires liveSize > 0
    ensures lines == [] <==> cs == []
  {
    if cs == [] then []
    else
      var listed := KeepNewest(cs, liveSize);
      HeadLines(listed[0].seqNo) + EntryLines(listed)
  }

  /** The entry lines of `n` chunks numbered from `first`, one chunk at a
      time. */
  function Entries(first: int, n: nat): (lines: seq<Line>)
    ensures |lines| == 2 * n
  {
    if n == 0 then [] else Entries(first, n - 1) + [ExtInf, Url(first + n - 1)]
  }

  /** The entry lines of a contiguous deque depend only on its first number
      and its length. */
  lemma {:induction false} EntryLinesContiguous(cs: seq<Chunk>)
    requires Contiguous(cs) && cs != []
    ensures EntryLines(cs) == Entries(cs[0].seqNo, |cs|)
    decreases |cs|
  {
    var m := |cs|;
    var init := cs[..m - 1];
    assert cs == init + [cs[m - 1]];
    EntryLinesSnoc(init, cs[m - 1]);
    if m > 1 {
      assert Contiguous(init) by {
        assert forall k :: 0 <= k < |init| ==> init[k] == cs[k];
      }
      EntryLinesContiguous(init);
      assert init[0] == cs[0];
    } else {
      assert EntryLines(init) == [];
    }
  }

  /** In a contiguous deque, a playlist lists the newest `live_size` chunks
      (all of them when there are fewer): after the head lines, which name
      the first listed number, each listed number in turn, ending with the
      last chunk. */
  lemma PlaylistListsNewest(liveSize: nat, cs: seq<Chunk>)
    requires liveSize > 0 && cs != [] && Contiguous(cs)
    ensures var n := if |cs| > liveSize then liveSize else |cs|;
      var first := Last(cs).seqNo - n + 1;
      PlaylistLines(liveSize, cs) == HeadLines(first) + Entries(first, n)
  {
    var listed := KeepNewest(cs, liveSize);
    NewestFirst(cs, liveSize);
    EntryLinesContiguous(listed);
    var n, first := |listed|, listed[0].seqNo;
    assert n == if |cs| > liveSize then liveSize else |cs|;
    assert first == Last(cs).seqNo - n + 1;
    assert PlaylistLines(liveSize, cs) == HeadLines(first) + Entries(first, n);
  }

  /** The `k`-th entry of `n` chunks numbered from `first`: its duration line,
      then the URL of number `first + k`. */
  lemma {:induction false} EntriesAt(first: int, n: nat, k: nat)
    requires k < n
    ensures Entries(first, n)[2 * k] == ExtInf && Entries(first, n)[2 * k + 1] == Url(first + k)
    decreases n
  {
    if k < n - 1 {
      EntriesAt(first, n - 1, k);
      assert Entries(first, n) == Entries(first, n - 1) + [ExtInf, Url(first + n - 1)];
    }
  }

  lemma TakeOneMore(cs: seq<Chunk>, i: nat, j: nat)
    requires i <= j < |cs|
    ensures cs[i..j + 1] == cs[i..j] + [cs[j]]
  {
  }

  /** A playlist as the storage keeps it: its cached text and its deque. */
  datatype Playlist = Playlist(cacheTxt: string, chunks: seq<Chunk>)

  /** The deque of playlist `id`, empty when there is none yet. */
  function ChunksOf(ps: map<string, Playlist>, id: string): seq<Chunk> {
    if id in ps then ps[id].chunks else []
  }

  /** `add_chunk` refuses a chunk whose number, start or duration is -1. */
  predicate Rejected(c: Chunk) {
    c.seqNo == -1 || c.startMs == -1 || c.durationMs == -1
  }

  /** The deque part of `add_chunk`, on a contiguous deque. */
  method Update(cs: seq<Chunk>, c: Chunk, liveSize: nat, keepSize: nat) returns (r: seq<Chunk>)
    requires Contiguous(cs)
    ensures r == Added(cs, c, liveSize, keepSize)
  {
    if cs == [] {
      return [c];
    }
    r := Place(cs, c, liveSize, keepSize);
    var diff := |r| - keepSize;
    if diff > 0 {
      r := r[diff..];
    }
  }

  /** The branches of `add_chunk` on a non-empty deque, before the erase. */
  method Place(cs: seq<Chunk>, c: Chunk, liveSize: nat, keepSize: nat) returns (r: seq<Chunk>)
    requires Contiguous(cs) && cs != []
    ensures r == Placed(cs, c, liveSize, keepSize)
  {
    var last := cs[|cs| - 1];
    var backGap := c.seqNo - last.seqNo;
    if backGap < 0 {
      var frontGap := cs[0].seqNo - c.seqNo;
      if frontGap > 0 {
        var avaible := keepSize - |cs|;
        if avaible > frontGap {
          r := PushFront(cs, c, frontGap);
        } else {
          r := cs;
        }
      } else {
        assert cs[|cs| - 1].seqNo == cs[0].seqNo + |cs| - 1;
        r := cs[|cs| - 1 + backGap := c];
      }
    } else if backGap == 0 {
      r := cs;
    } else {
      if backGap <= liveSize {
        r := PushBackRun(cs, last.seqNo + 1, backGap - 1);
      } else {
        r := [];
      }
      r := r + [c];
    }
  }

  /** What the storage keeps true of playlist `id`. */
  ghost predicate Kept(liveSize: nat, keepSize: nat, host: string, id: string, p: Playlist) {
    && Contiguous(p.chunks)
    && (|p.chunks| <= keepSize || |p.chunks| == 1)
    && liveSize > 0
    && p.cacheTxt == Render(host, id, PlaylistLines(liveSize, p.chunks))
  }

  ghost predicate AllKept(liveSize: nat, keepSize: nat, host: string, ps: map<string, Playlist>) {
    forall id :: id in ps ==> Kept(liveSize, keepSize, host, id, ps[id])
  }

  lemma PutKept(liveSize: nat, keepSize: nat, host: string, ps: map<string, Playlist>, id: string, p: Playlist)
    requires AllKept(liveSize, keepSize, host, ps) && Kept(liveSize, keepSize, host, id, p)
    ensures AllKept(liveSize, keepSize, host, ps[id := p])
  {
  }

  class Storage {
    const liveSize: nat
    const keepSize: nat
    const hostname: string
    var playlists: map<string, Playlist>

    /** Every deque is contiguous and within its capacity (a deque created
        by its first chunk holds that one chunk whatever `keep_size` is),
        and every cached text is the playlist built from its deque. */
    ghost predicate Valid()
      reads this
    {
      && liveSize > 0
      && AllKept(liveSize, keepSize, hostname, playlists)
    }

    /** `hls_live_storage(live_size, keep_size, hostname)`. */
    constructor (liveSize: nat, keepSize: nat, hostname: string)
      requires liveSize > 0
      ensures this.liveSize == liveSize && this.keepSize == keepSize && this.hostname == hostname
      ensures playlists == map[] && Valid()
    {
      this.liveSize := liveSize;
      this.keepSize := keepSize;
      this.hostname := hostname;
      playlists := map[];
    }

    /** `add_chunk(plst_id, cnk)`: a chunk with a -1 field is refused and
        nothing changes; otherwise the playlist is created if need be, its
        deque updated and its text rebuilt. */
    method AddChunk(id: string, c: Chunk) returns (ok: bool)
      requires Valid()
      modifies this
      ensures Valid()
      ensures ok <==> !Rejected(c)
      ensures !ok ==> playlists == old(playlists)
      ensures ok ==>
        var cs := Added(ChunksOf(old(playlists), id), c, liveSize, keepSize);
        playlists == old(playlists)[id := Playlist(Render(hostname, id, PlaylistLines(liveSize, cs)), cs)]
    {
      if c.seqNo == -1 || c.startMs == -1 || c.durationMs == -1 {
        return false;
      }
      var cs := if id in playlists then playlists[id].chunks else [];
      assert Contiguous(cs) by {
        if id in playlists {
          assert Kept(liveSize, keepSize, hostname, id, playlists[id]);
        }
      }
      AddedContiguous(cs, c, liveSize, keepSize);
      cs := Update(cs, c, liveSize, keepSize);
      var txt := BuildPlaylist(id, cs);
      var p := Playlist(txt, cs);
      assert Kept(liveSize, keepSize, hostname, id, p);
      PutKept(liveSize, keepSize, hostname, playlists, id, p);
      playlists := playlists[id := p];
      return true;
    }

    /** `build_playlist(plst_id, plst)`: the head lines, then the two lines
        of each listed chunk, written in a loop. */
    method BuildPlaylist(id: string, cs: seq<Chunk>) returns (txt: string)
      requires liveSize > 0
      ensures txt == Render(hostname, id, PlaylistLines(liveSize, cs))
    {
      if cs == [] {
        return [];
      }
      var beg := 0;
      if |cs| > liveSize {
        beg := |cs| - liveSize;
      }
      var entries := [];
      var i := beg;
      while i < |cs|
        invariant beg <= i <= |cs|
        invariant entries == EntryLines(cs[beg..i])
      {
        ghost var done := cs[beg..i];
        TakeOneMore(cs, beg, i);
        EntryLinesSnoc(done, cs[i]);
        entries := entries + [ExtInf, Url(cs[i].seqNo)];
        i := i + 1;
      }
      assert cs[beg..i] == KeepNewest(cs, liveSize);
      txt := Render(hostname, id, HeadLines(cs[beg].seqNo) + entries);
    }

    /** `get_chunk(plst_id, seq)`: the first chunk with that number, if the
        playlist exists and holds one; in a valid storage, exactly when the
        number lies between its first and last, and then at that offset. */
    function GetChunk(id: string, s: int): (r: Option<Chunk>)
      reads this
      requires Valid()
      ensures id !in playlists ==> r.None?
      ensures id in playlists && playlists[id].chunks != [] ==>
        var cs := playlists[id].chunks;
        && (r.Some? <==> cs[0].seqNo <= s <= Last(cs).seqNo)
        && (r.Some? ==> r.value == cs[s - cs[0].seqNo])
    {
      if id !in playlists then None
      else
        var cs := playlists[id].chunks;
        assert Kept(liveSize, keepSize, hostname, id, playlists[id]);
        if cs != [] then
          FindContiguous(cs, s);
          Find(cs, s)
        else Find(cs, s)
    }

    /** `get_playlist(plst_id)`: the cached text, empty for an unknown id;
        in a valid storage, the playlist built from the current deque. */
    function GetPlaylist(id: string): (t: string)
      reads this
      requires Valid()
      ensures t == Render(hostname, id, PlaylistLines(liveSize, ChunksOf(playlists, id)))
    {
      if id in playlists then
        assert Kept(liveSize, keepSize, hostname, id, playlists[id]);
        playlists[id].cacheTxt
      else []
    }
  }
}
