/**
 * `hls_arhive_playlist_generator` (hls_archive_storage/hls_arhive_playlist_generator.cpp):
 * the playlist of a recorded time window, built from the chunks recorded in
 * it, with every time gap (before the first chunk, between two chunks and
 * after the last) filled greedily with dummy segments taken from a list of
 * dummies, longest first. Durations stay integer milliseconds.
 */
module ArchivePlaylist {

  /** `hls_chunk_info`: a recorded chunk, or a dummy. */
  datatype ChunkInfo = ChunkInfo(hlsId: string, seqNo: int, startMs: int, durationMs: int, path: string)

  /** A line, or pair of lines, the generator writes: a segment is the
      `#EXTINF` line with its duration and the line with its URI. */
  datatype Line =
    | ExtM3u | Version | TargetDuration | MediaSequence
    | Discontinuity
    | Segment(msecs: int, uri: string)
    | EndList

  /** `append_header`: `#EXTM3U`, version 3, target duration 11, media
      sequence 0. */
  const Header: seq<Line> := [ExtM3u, Version, TargetDuration, MediaSequence]

  /** `append_discontinuity_chunk`: a discontinuity marker, then the segment. */
  function Pair(msecs: int, uri: string): seq<Line> {
    [Discontinuity, Segment(msecs, uri)]
  }

  /** `count` discontinuity segments of the same dummy. */
  function Repeat(count: nat, msecs: int, uri: string): (r: seq<Line>)
    ensures |r| == 2 * count
  {
    if count == 0 then [] else Repeat(count - 1, msecs, uri) + Pair(msecs, uri)
  }

  /** The dummies can divide a gap: each lasts a positive time. */
  predicate PositiveDurations(ds: seq<ChunkInfo>) {
    forall k :: 0 <= k < |ds| ==> ds[k].durationMs > 0
  }

  function LastInfo(ds: seq<ChunkInfo>): ChunkInfo
    requires ds != []
  {
    ds[|ds| - 1]
  }

  /** The loop over the dummy list, after the dummies `ds`, on a gap of
      `msecs`: the segments written and the time still to cover. Each dummy
      in turn is written as many times as it fits whole in what is left; once
      nothing is left the loop stops. */
  function Greedy(msecs: int, ds: seq<ChunkInfo>, base: string): (r: (seq<Line>, int))
    requires PositiveDurations(ds)
    decreases |ds|
  {
    if ds == [] then ([], msecs)
    else
      var prev := Greedy(msecs, ds[..|ds| - 1], base);
      var d := LastInfo(ds);
      if prev.1 <= 0 then prev
      else
        var count := prev.1 / d.durationMs;
        (prev.0 + Repeat(count, d.durationMs, base + d.path), prev.1 - count * d.durationMs)
  }

  /** `append_dummy_chunk(msecs)`: nothing for a gap that is not positive;
      otherwise the greedy segments, one more segment of the last dummy for
      the remainder when there is one, and a closing discontinuity marker. */
  function DummyFill(msecs: int, ds: seq<ChunkInfo>, base: string): seq<Line>
    requires PositiveDurations(ds) && ds != []
  {
    if msecs <= 0 then []
    else
      var g := Greedy(msecs, ds, base);
      var rest := if g.1 > 0 then Pair(g.1, base + LastInfo(ds).path) else [];
      g.0 + rest + [Discontinuity]
  }

  /** The time the segments of some lines last. */
  function Total(ls: seq<Line>): int
    decreases |ls|
  {
    if ls == [] then 0
    else
      var l := ls[|ls| - 1];
      Total(ls[..|ls| - 1]) + (if l.Segment? then l.msecs else 0)
  }

  lemma {:induction false} TotalAppend(a: seq<Line>, b: seq<Line>)
    ensures Total(a + b) == Total(a) + Total(b)
    decreases |b|
  {
    if b == [] {
      assert a + b == a;
    } else {
      var b' := b[..|b| - 1];
      assert (a + b)[..|a + b| - 1] == a + b';
      assert (a + b)[|a + b| - 1] == b[|b| - 1];
      TotalAppend(a, b');
    }
  }

  lemma {:induction false} RepeatTotal(count: nat, msecs: int, uri: string)
    ensures Total(Repeat(count, msecs, uri)) == count * msecs
  {
    if count > 0 {
      RepeatTotal(count - 1, msecs, uri);
      TotalAppend(Repeat(count - 1, msecs, uri), Pair(msecs, uri));
      PairTotal(msecs, uri);
      assert (count - 1) * msecs + msecs == count * msecs;
    }
  }

  lemma PairTotal(msecs: int, uri: string)
    ensures Total(Pair(msecs, uri)) == msecs
  {
    var p := Pair(msecs, uri);
    assert p[..1] == [Discontinuity] && [Discontinuity][..0] == [];
  }

  /** Lines made of discontinuity segments only: a marker, then a segment of
      positive duration, again and again. */
  predicate Paired(ls: seq<Line>)
    decreases |ls|
  {
    ls == [] || (|ls| >= 2 && ls[0] == Discontinuity && ls[1].Segment? && ls[1].msecs > 0 && Paired(ls[2..]))
  }

  lemma {:induction false} PairedAppend(a: seq<Line>, b: seq<Line>)
    requires Paired(a) && Paired(b)
    ensures Paired(a + b)
    decreases |a|
  {
    if a == [] {
      assert a + b == b;
    } else {
      PairedAppend(a[2..], b);
      assert (a + b)[2..] == a[2..] + b;
      assert (a + b)[0] == a[0] && (a + b)[1] == a[1];
    }
  }

  lemma {:induction false} RepeatPaired(count: nat, msecs: int, uri: string)
    requires msecs > 0
    ensures Paired(Repeat(count, msecs, uri))
  {
    if count > 0 {
      RepeatPaired(count - 1, msecs, uri);
      assert Paired(Pair(msecs, uri)) by {
        assert Pair(msecs, uri)[2..] == [];
      }
      PairedAppend(Repeat(count - 1, msecs, uri), Pair(msecs, uri));
    }
  }

  /** The loop over all but the last dummy leaves a positive time or stops. */
  lemma GreedyLast(msecs: int, ds: seq<ChunkInfo>, base: string)
    requires PositiveDurations(ds) && ds != []
    ensures var init := ds[..|ds| - 1];
      var d := LastInfo(ds);
      && PositiveDurations(init) && d.durationMs > 0
      && var prev := Greedy(msecs, init, base);
      var count := prev.1 / d.durationMs;
      Greedy(msecs, ds, base) ==
        if prev.1 <= 0 then prev
        else (prev.0 + Repeat(count, d.durationMs, base + d.path), prev.1 - count * d.durationMs)
  {
    var init := ds[..|ds| - 1];
    assert forall k :: 0 <= k < |init| ==> init[k] == ds[k];
  }

  /** The greedy loop writes only discontinuity segments. */
  lemma {:induction false} GreedyPaired(msecs: int, ds: seq<ChunkInfo>, base: string)
    requires PositiveDurations(ds)
    ensures Paired(Greedy(msecs, ds, base).0)
    decreases |ds|
  {
    if ds != [] {
      var init := ds[..|ds| - 1];
      GreedyLast(msecs, ds, base);
      GreedyPaired(msecs, init, base);
      var prev := Greedy(msecs, init, base);
      var d := LastInfo(ds);
      if prev.1 > 0 {
        var count := prev.1 / d.durationMs;
        RepeatPaired(count, d.durationMs, base + d.path);
        PairedAppend(prev.0, Repeat(count, d.durationMs, base + d.path));
      }
    }
  }

  /** What the greedy segments last plus what is left is the gap; on a gap
      that is not negative, what is left is not negative and, once the last
      dummy has had its turn, shorter than it (the assert at line 122 of the
      generator). */
  lemma {:induction false} GreedyTotal(msecs: int, ds: seq<ChunkInfo>, base: string)
    requires PositiveDurations(ds)
    ensures var g := Greedy(msecs, ds, base);
      && Total(g.0) + g.1 == msecs
      && (msecs >= 0 ==> 0 <= g.1)
      && (msecs >= 0 && ds != [] ==> g.1 < LastInfo(ds).durationMs)
    decreases |ds|
  {
    if ds != [] {
      var init := ds[..|ds| - 1];
      GreedyLast(msecs, ds, base);
      GreedyTotal(msecs, init, base);
      var prev := Greedy(msecs, init, base);
      var d := LastInfo(ds);
      if prev.1 > 0 {
        var count := prev.1 / d.durationMs;
        var uri := base + d.path;
        RepeatTotal(count, d.durationMs, uri);
        TotalAppend(prev.0, Repeat(count, d.durationMs, uri));
        Remainder(prev.1, d.durationMs);
      }
    }
  }

  /** Truncating and Euclidean division agree on a positive dividend. */
  lemma Remainder(x: int, d: int)
    requires x > 0 && d > 0
    ensures 0 <= x / d && 0 <= x - x / d * d < d
  {
  }

  /** The dummy segments of a positive gap add up to exactly the gap (the
      assert at line 132 of the generator); each is preceded by a marker and
      lasts a positive time, and the fill ends with one more marker. A gap
      that is not positive gets no line. */
  lemma DummyFillSpec(msecs: int, ds: seq<ChunkInfo>, base: string)
    requires PositiveDurations(ds) && ds != []
    ensures var f := DummyFill(msecs, ds, base);
      && (msecs <= 0 <==> f == [])
      && Total(f) == (if msecs > 0 then msecs else 0)
      && (msecs > 0 ==> f[|f| - 1] == Discontinuity && Paired(f[..|f| - 1]))
  {
    if msecs > 0 {
      var g := Greedy(msecs, ds, base);
      GreedyPaired(msecs, ds, base);
      GreedyTotal(msecs, ds, base);
      var rest := if g.1 > 0 then Pair(g.1, base + LastInfo(ds).path) else [];
      if g.1 > 0 {
        PairTotal(g.1, base + LastInfo(ds).path);
      }
      assert Paired(rest) by {
        if g.1 > 0 {
          assert rest[2..] == [];
        }
      }
      TotalAppend(g.0, rest);
      TotalAppend(g.0 + rest, [Discontinuity]);
      PairedAppend(g.0, rest);
      var f := g.0 + rest + [Discontinuity];
      assert f[..|f| - 1] == g.0 + rest;
    }
  }

  /** The end of a recorded chunk. */
  function End(c: ChunkInfo): int {
    c.startMs + c.durationMs
  }

  /** A gap is filled only when it is positive (`append_dummy_chunk` would
      write nothing for the others anyway). */
  function GapFill(gap: int, ds: seq<ChunkInfo>, base: string): seq<Line>
    requires PositiveDurations(ds) && ds != []
  {
    if gap > 0 then DummyFill(gap, ds, base) else []
  }

  /** The loop over the recorded chunks, for the chunks `cs`: each chunk's
      segment, preceded by the fill of its gap after the previous chunk. */
  function Body(cs: seq<ChunkInfo>, ds: seq<ChunkInfo>, base: string): seq<Line>
    requires PositiveDurations(ds) && ds != []
    decreases |cs|
  {
    if cs == [] then []
    else
      var n := |cs|;
      var cur := cs[n - 1];
      var fill := if n > 1 then GapFill(cur.startMs - End(cs[n - 2]), ds, base) else [];
      Body(cs[..n - 1], ds, base) + fill + [Segment(cur.durationMs, base + cur.path)]
  }

  /** What lies between the header and the end marker when some chunk was
      recorded: the fill of the front gap, the chunks with their gaps filled,
      and the fill of the back gap. */
  function Recorded(cs: seq<ChunkInfo>, start: int, duration: int, base: string, ds: seq<ChunkInfo>): seq<Line>
    requires PositiveDurations(ds) && ds != [] && cs != []
  {
    var frontGap := cs[0].startMs - start;
    var backGap := (start + duration) - End(cs[|cs| - 1]);
    GapFill(frontGap, ds, base) + Body(cs, ds, base) + GapFill(backGap, ds, base)
  }

  /** `generate(id, start, duration, base)` on the chunks the repository
      returns for the window: the header; with no chunk, the fill of the
      whole window and no end marker; otherwise the recorded part and
      `#EXT-X-ENDLIST`. */
  function Generate(cs: seq<ChunkInfo>, start: int, duration: int, base: string, ds: seq<ChunkInfo>): seq<Line>
    requires PositiveDurations(ds) && ds != []
  {
    if cs == [] then Header + DummyFill(duration, ds, base)
    else Header + Recorded(cs, start, duration, base, ds) + [EndList]
  }

  /** The recorded chunks lie in the window one after the other: none
      before the start, none overlapping the previous, none past the end. */
  predicate InWindow(cs: seq<ChunkInfo>, start: int, duration: int) {
    && cs != []
    && start <= cs[0].startMs
    && (forall k :: 0 < k < |cs| ==> End(cs[k - 1]) <= cs[k].startMs)
    && End(cs[|cs| - 1]) <= start + duration
  }

  /** A gap that is not negative is filled for exactly its length. */
  lemma GapFillTotal(gap: int, ds: seq<ChunkInfo>, base: string)
    requires PositiveDurations(ds) && ds != [] && gap >= 0
    ensures Total(GapFill(gap, ds, base)) == gap
  {
    DummyFillSpec(gap, ds, base);
  }

  /** Chunks laid one after the other (gaps allowed) are covered, from the
      start of the first to the end of the last, by their segments and the
      fill of their gaps. */
  lemma {:induction false} BodyTotal(cs: seq<ChunkInfo>, ds: seq<ChunkInfo>, base: string)
    requires PositiveDurations(ds) && ds != [] && cs != []
    requires forall k :: 0 < k < |cs| ==> End(cs[k - 1]) <= cs[k].startMs
    ensures Total(Body(cs, ds, base)) == End(cs[|cs| - 1]) - cs[0].startMs
    decreases |cs|
  {
    var n := |cs|;
    var cur := cs[n - 1];
    var init := cs[..n - 1];
    var seg := [Segment(cur.durationMs, base + cur.path)];
    var fill := if n > 1 then GapFill(cur.startMs - End(cs[n - 2]), ds, base) else [];
    assert Body(cs, ds, base) == Body(init, ds, base) + fill + seg;
    TotalAppend(Body(init, ds, base) + fill, seg);
    TotalAppend(Body(init, ds, base), fill);
    assert Total(seg) == cur.durationMs by {
      assert seg[..0] == [];
    }
    if n > 1 {
      assert forall k :: 0 <= k < |init| ==> init[k] == cs[k];
      BodyTotal(init, ds, base);
      GapFillTotal(cur.startMs - End(cs[n - 2]), ds, base);
    } else {
      assert Body(init, ds, base) == [];
    }
  }

  /** A playlist always starts with the header, and it ends with
      `#EXT-X-ENDLIST` exactly when some chunk was recorded in the window. */
  lemma GenerateShape(cs: seq<ChunkInfo>, start: int, duration: int, base: string, ds: seq<ChunkInfo>)
    requires PositiveDurations(ds) && ds != []
    ensures var p := Generate(cs, start, duration, base, ds);
      && |p| >= 4 && p[..4] == Header
      && (p[|p| - 1] == EndList <==> cs != [])
  {
    var p := Generate(cs, start, duration, base, ds);
    if cs == [] {
      var f := DummyFill(duration, ds, base);
      DummyFillSpec(duration, ds, base);
      if f != [] {
        assert p[|p| - 1] == f[|f| - 1];
      }
    } else {
      assert p[..4] == Header;
    }
  }

  /** Lines without a segment last no time. */
  lemma {:induction false} NoSegmentTotal(ls: seq<Line>)
    requires forall k :: 0 <= k < |ls| ==> !ls[k].Segment?
    ensures Total(ls) == 0
    decreases |ls|
  {
    if ls != [] {
      var init := ls[..|ls| - 1];
      assert forall k :: 0 <= k < |init| ==> init[k] == ls[k];
      NoSegmentTotal(init);
    }
  }

  lemma HeaderTotal()
    ensures Total(Header) == 0 && Total([EndList]) == 0
  {
    NoSegmentTotal(Header);
    NoSegmentTotal([EndList]);
  }

  /** A playlist covers its window exactly: with no recorded chunk the
      dummies last the whole (positive) duration, and with chunks that lie in
      the window one after the other, the chunks and the dummies together
      last from the start to the end of the window. */
  lemma GenerateCovers(cs: seq<ChunkInfo>, start: int, duration: int, base: string, ds: seq<ChunkInfo>)
    requires PositiveDurations(ds) && ds != []
    requires cs == [] || InWindow(cs, start, duration)
    ensures Total(Generate(cs, start, duration, base, ds)) == if cs == [] && duration <= 0 then 0 else duration
  {
    HeaderTotal();
    if cs == [] {
      DummyFillSpec(duration, ds, base);
      TotalAppend(Header, DummyFill(duration, ds, base));
    } else {
      var r := Recorded(cs, start, duration, base, ds);
      RecordedTotal(cs, start, duration, base, ds);
      TotalAppend(Header, r);
      TotalAppend(Header + r, [EndList]);
    }
  }

  lemma RecordedTotal(cs: seq<ChunkInfo>, start: int, duration: int, base: string, ds: seq<ChunkInfo>)
    requires PositiveDurations(ds) && ds != [] && InWindow(cs, start, duration)
    ensures Total(Recorded(cs, start, duration, base, ds)) == duration
  {
    var front := GapFill(cs[0].startMs - start, ds, base);
    var back := GapFill((start + duration) - End(cs[|cs| - 1]), ds, base);
    var body := Body(cs, ds, base);
    GapFillTotal(cs[0].startMs - start, ds, base);
    GapFillTotal((start + duration) - End(cs[|cs| - 1]), ds, base);
    BodyTotal(cs, ds, base);
    TotalAppend(front, body);
    TotalAppend(front + body, back);
  }

  /** `append_dummy_chunk`: the loop over the dummies, each written `count`
      times in an inner loop, then the remainder and the closing marker. */
  method AppendDummyChunk(msecs: int, ds: seq<ChunkInfo>, base: string) returns (out: seq<Line>)
    requires PositiveDurations(ds) && ds != []
    ensures out == DummyFill(msecs, ds, base)
  {
    out := [];
    if msecs <= 0 {
      return;
    }
    var left;
    out, left := DummyLoop(msecs, ds, base);
    if left > 0 {
      out := out + Pair(left, base + LastInfo(ds).path);
    }
    out := out + [Discontinuity];
  }

  /** The loop over the dummies: each written as many times as it fits in
      what is left, until nothing is left. */
  method DummyLoop(msecs: int, ds: seq<ChunkInfo>, base: string) returns (out: seq<Line>, left: int)
    requires PositiveDurations(ds)
    ensures (out, left) == Greedy(msecs, ds, base)
  {
    out, left := [], msecs;
    var i := 0;
    while i < |ds|
      invariant 0 <= i <= |ds|
      invariant (out, left) == Greedy(msecs, ds[..i], base)
    {
      if left <= 0 {
        GreedyStops(msecs, ds, base, i);
        return;
      }
      var d := ds[i].durationMs;
      var uri := base + ds[i].path;
      var count := left / d;
      GreedyLast(msecs, ds[..i + 1], base);
      assert ds[..i + 1][..i] == ds[..i];
      out, left := WriteCount(out, left, d, uri, count);
      i := i + 1;
    }
    assert ds[..i] == ds;
  }

  /** The inner loop: `count` discontinuity segments of one dummy, each
      taken off what is left. */
  method WriteCount(out0: seq<Line>, left0: int, d: int, uri: string, count: int) returns (out: seq<Line>, left: int)
    requires count >= 0
    ensures out == out0 + Repeat(count, d, uri) && left == left0 - count * d
  {
    out, left := out0, left0;
    var j := 0;
    while j < count
      invariant 0 <= j <= count
      invariant out == out0 + Repeat(j, d, uri) && left == left0 - j * d
    {
      out := out + Pair(d, uri);
      left := left - d;
      j := j + 1;
    }
  }

  /** Once nothing is left, the later dummies write nothing. */
  lemma {:induction false} GreedyStops(msecs: int, ds: seq<ChunkInfo>, base: string, i: nat)
    requires PositiveDurations(ds) && i <= |ds|
    requires Greedy(msecs, ds[..i], base).1 <= 0
    ensures Greedy(msecs, ds, base) == Greedy(msecs, ds[..i], base)
    decreases |ds| - i
  {
    if i < |ds| {
      var next := ds[..i + 1];
      assert next[..i] == ds[..i];
      assert PositiveDurations(next) by {
        assert forall k :: 0 <= k < |next| ==> next[k] == ds[k];
      }
      assert Greedy(msecs, next, base) == Greedy(msecs, ds[..i], base);
      GreedyStops(msecs, ds, base, i + 1);
    } else {
      assert ds[..i] == ds;
    }
  }

  /** `generate`: the header, then the chunk loop between the two gap
      fills. */
  method GenerateText(cs: seq<ChunkInfo>, start: int, duration: int, base: string, ds: seq<ChunkInfo>)
    returns (out: seq<Line>)
    requires PositiveDurations(ds) && ds != []
    ensures out == Generate(cs, start, duration, base, ds)
  {
    out := Header;
    if cs == [] {
      var fill := AppendDummyChunk(duration, ds, base);
      out := out + fill;
      return;
    }
    var recorded := [];
    var frontGap := cs[0].startMs - start;
    if frontGap > 0 {
      recorded := AppendDummyChunk(frontGap, ds, base);
    }
    var body := ChunkLoop(cs, ds, base);
    recorded := recorded + body;
    var backGap := (start + duration) - (cs[|cs| - 1].startMs + cs[|cs| - 1].durationMs);
    if backGap > 0 {
      var fill := AppendDummyChunk(backGap, ds, base);
      recorded := recorded + fill;
    }
    out := out + recorded + [EndList];
  }

  /** The loop over the recorded chunks. */
  method ChunkLoop(cs: seq<ChunkInfo>, ds: seq<ChunkInfo>, base: string) returns (body: seq<Line>)
    requires PositiveDurations(ds) && ds != []
    ensures body == Body(cs, ds, base)
  {
    body := [];
    var i := 0;
    while i < |cs|
      invariant 0 <= i <= |cs|
      invariant body == Body(cs[..i], ds, base)
    {
      var fill := GapBefore(cs, i, ds, base);
      BodyStep(cs, ds, base, i);
      body := body + fill + [Segment(cs[i].durationMs, base + cs[i].path)];
      i := i + 1;
    }
    assert cs[..i] == cs;
  }

  /** The fill of the gap before chunk `i`, written when `i > 0` and the
      gap is positive. */
  method GapBefore(cs: seq<ChunkInfo>, i: nat, ds: seq<ChunkInfo>, base: string) returns (fill: seq<Line>)
    requires PositiveDurations(ds) && ds != [] && i < |cs|
    ensures fill == if i > 0 then GapFill(cs[i].startMs - End(cs[i - 1]), ds, base) else []
  {
    fill := [];
    if i > 0 {
      var gap := cs[i].startMs - (cs[i - 1].startMs + cs[i - 1].durationMs);
      if gap > 0 {
        fill := AppendDummyChunk(gap, ds, base);
      }
    }
  }

  lemma BodyStep(cs: seq<ChunkInfo>, ds: seq<ChunkInfo>, base: string, i: nat)
    requires PositiveDurations(ds) && ds != [] && i < |cs|
    ensures var fill := if i > 0 then GapFill(cs[i].startMs - End(cs[i - 1]), ds, base) else [];
      Body(cs[..i + 1], ds, base) == Body(cs[..i], ds, base) + fill + [Segment(cs[i].durationMs, base + cs[i].path)]
  {
    var next := cs[..i + 1];
    assert next[..i] == cs[..i];
    if i > 0 {
      assert next[i - 1] == cs[i - 1];
    }
  }
}
