/**
 * The deque of chunks a live playlist keeps (hls_live_storage/hls_live_storage.cpp
 * and the earlier copy in application.cpp): chunks numbered by consecutive
 * sequence numbers, gaps filled with dummy chunks, the oldest erased once
 * the deque is over its capacity.
 */
module ChunkWindow {
  import opened Common

  /** `chunk`: its sequence number, start time, duration and data. */
  datatype Chunk = Chunk(seqNo: int, startMs: int, durationMs: int, data: string)

  /** A default-constructed chunk given only a sequence number. */
  function Dummy(s: int): Chunk {
    Chunk(s, 0, 0, [])
  }

  /** Dummies numbered `from`, `from + 1`, ..., `from + n - 1`. */
  function Run(from: int, n: nat): (r: seq<Chunk>)
    ensures |r| == n
    ensures forall k :: 0 <= k < n ==> r[k] == Dummy(from + k)
  {
    seq(n, k requires 0 <= k < n => Dummy(from + k))
  }

  lemma RunCons(from: int, n: nat)
    ensures [Dummy(from)] + Run(from + 1, n) == Run(from, n + 1)
  {
  }

  lemma RunSnoc(from: int, n: nat)
    ensures Run(from, n) + [Dummy(from + n)] == Run(from, n + 1)
  {
  }

  /** Each chunk's number is one more than the one before it. */
  predicate Contiguous(cs: seq<Chunk>) {
    forall k :: 0 <= k < |cs| ==> cs[k].seqNo == cs[0].seqNo + k
  }

  function Last(cs: seq<Chunk>): Chunk
    requires cs != []
  {
    cs[|cs| - 1]
  }

  /** `chunks.erase(begin, begin + diff)` for `diff = size - cap` when that
      is positive: the newest `cap` chunks are kept. */
  function KeepNewest(cs: seq<Chunk>, cap: nat): (r: seq<Chunk>)
    ensures |r| == if |cs| > cap then cap else |cs|
    ensures cs == cs[..|cs| - |r|] + r
  {
    if |cs| > cap then cs[|cs| - cap..] else cs
  }

  /** The front-fill loop and `push_front(cnk)`: dummies for the numbers
      between the chunk and the first one, then the chunk, before the deque. */
  method PushFront(cs: seq<Chunk>, c: Chunk, frontGap: int) returns (r: seq<Chunk>)
    requires frontGap > 0
    ensures r == [c] + Run(c.seqNo + 1, frontGap - 1) + cs
  {
    r := cs;
    var i := frontGap - 1;
    while i > 0
      invariant 0 <= i <= frontGap - 1
      invariant r == Run(c.seqNo + i + 1, frontGap - 1 - i) + cs
    {
      RunCons(c.seqNo + i, frontGap - 1 - i);
      r := [Dummy(c.seqNo + i)] + r;
      i := i - 1;
    }
    r := [c] + r;
  }

  /** The back-fill loop: `n` dummies numbered from `from`, after the deque. */
  method PushBackRun(cs: seq<Chunk>, from: int, n: int) returns (r: seq<Chunk>)
    ensures r == cs + Run(from, if n > 0 then n else 0)
  {
    r := cs;
    var count := if n > 0 then n else 0;
    var i := 0;
    while i < count
      invariant 0 <= i <= count
      invariant r == cs + Run(from, i)
    {
      RunSnoc(from, i);
      r := r + [Dummy(from + i)];
      i := i + 1;
    }
  }

  /** The dummies and the chunk put before a contiguous deque keep it
      contiguous, from the chunk's number on. */
  lemma PrependContiguous(cs: seq<Chunk>, c: Chunk, frontGap: int)
    requires Contiguous(cs) && cs != [] && frontGap > 0 && cs[0].seqNo == c.seqNo + frontGap
    ensures Contiguous([c] + Run(c.seqNo + 1, frontGap - 1) + cs)
  {
    var r := [c] + Run(c.seqNo + 1, frontGap - 1) + cs;
    forall k | 0 <= k < |r|
      ensures r[k].seqNo == r[0].seqNo + k
    {
      if k >= frontGap {
        assert r[k] == cs[k - frontGap];
      }
    }
  }

  /** The dummies and the chunk put after a contiguous deque keep it
      contiguous, up to the chunk's number. */
  lemma AppendContiguous(cs: seq<Chunk>, c: Chunk, backGap: int)
    requires Contiguous(cs) && cs != [] && backGap >= 1 && c.seqNo == Last(cs).seqNo + backGap
    ensures Contiguous(cs + Run(Last(cs).seqNo + 1, backGap - 1) + [c])
  {
    var r := cs + Run(Last(cs).seqNo + 1, backGap - 1) + [c];
    forall k | 0 <= k < |r|
      ensures r[k].seqNo == r[0].seqNo + k
    {
      if k < |cs| {
        assert r[k] == cs[k];
      }
    }
  }

  /** In a contiguous deque, the slot `size - 1 + back_gap` the middle case
      overwrites is the one holding the chunk's own number, so overwriting
      it keeps the deque contiguous. */
  lemma ReplaceContiguous(cs: seq<Chunk>, c: Chunk)
    requires Contiguous(cs) && cs != []
    requires cs[0].seqNo <= c.seqNo < Last(cs).seqNo
    ensures var i := |cs| - 1 + (c.seqNo - Last(cs).seqNo);
      && 0 <= i < |cs| - 1 && cs[i].seqNo == c.seqNo
      && Contiguous(cs[i := c])
  {
  }

  /** Erasing the oldest chunks keeps the deque contiguous. */
  lemma KeepNewestContiguous(cs: seq<Chunk>, cap: nat)
    requires Contiguous(cs)
    ensures Contiguous(KeepNewest(cs, cap))
  {
    var r := KeepNewest(cs, cap);
    var d := |cs| - |r|;
    forall k | 0 <= k < |r|
      ensures r[k].seqNo == r[0].seqNo + k
    {
      assert r[k] == cs[d + k] && r[0] == cs[d];
    }
  }

  /** The newest `cap` chunks of a contiguous deque end with its last chunk
      and so start `|r| - 1` numbers before it. */
  lemma NewestFirst(cs: seq<Chunk>, cap: nat)
    requires Contiguous(cs) && cs != [] && cap > 0
    ensures var r := KeepNewest(cs, cap);
      && r != [] && Contiguous(r) && Last(r) == Last(cs)
      && r[0].seqNo == Last(cs).seqNo - |r| + 1
  {
    KeepNewestContiguous(cs, cap);
    var r := KeepNewest(cs, cap);
    assert r[|r| - 1] == cs[|cs| - 1];
  }

  /** `std::find_if` on the sequence number: the first chunk with number
      `s`, if any. */
  function Find(cs: seq<Chunk>, s: int): (r: Option<Chunk>)
    ensures r.None? <==> forall k :: 0 <= k < |cs| ==> cs[k].seqNo != s
    ensures r.Some? ==> r.value.seqNo == s && r.value in cs
  {
    if cs == [] then None
    else if cs[0].seqNo == s then Some(cs[0])
    else
      var r := Find(cs[1..], s);
      assert forall k :: 1 <= k < |cs| ==> cs[k] == cs[1..][k - 1];
      r
  }

  /** In a contiguous deque the chunk numbered `s` is found exactly when `s`
      lies between the first and last numbers, at offset `s - first`. */
  lemma {:induction false} FindContiguous(cs: seq<Chunk>, s: int)
    requires Contiguous(cs) && cs != []
    ensures Find(cs, s).Some? <==> cs[0].seqNo <= s <= Last(cs).seqNo
    ensures Find(cs, s).Some? ==> Find(cs, s) == Some(cs[s - cs[0].seqNo])
    decreases |cs|
  {
    if cs[0].seqNo != s && |cs| > 1 {
      var t := cs[1..];
      assert Contiguous(t) by {
        assert forall k :: 0 <= k < |t| ==> t[k] == cs[k + 1];
      }
      FindContiguous(t, s);
      assert t[0] == cs[1] && Last(t) == Last(cs);
      if cs[0].seqNo <= s <= Last(cs).seqNo {
        assert t[s - t[0].seqNo] == cs[s - cs[0].seqNo];
      }
    }
  }
}
