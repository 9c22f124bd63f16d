/**
 * The non-owning byte view `http::string` (http/string.h, http/string.cpp): a
 * start address in a buffer plus a length. The view is a plain value that the
 * source copies freely, so it is a datatype here; `off` plays the address.
 * The members that move the view in place (`trim`, `cut_by`) return the moved
 * view.
 */
module HttpString {
  import opened Common

  datatype View = View(buf: string, off: nat, len: nat)

  /** A view never reaches past the end of its buffer. */
  type Span = v: View | v.off + v.len <= |v.buf| witness View([], 0, 0)

  /** The default-constructed view `string()`: no buffer, no bytes. */
  const Null: Span := View([], 0, 0)

  /** The bytes the view covers. */
  function Bytes(s: Span): string {
    s.buf[s.off .. s.off + s.len]
  }

  /** `string(buff, size)` over a whole buffer. */
  function Whole(buf: string): (s: Span)
    ensures Bytes(s) == buf
  {
    View(buf, 0, |buf|)
  }

  /** `empty()`. */
  predicate Empty(s: Span)
    ensures Empty(s) <==> Bytes(s) == []
  {
    s.len == 0
  }

  /** `size()`. */
  function Size(s: Span): (n: nat)
    ensures n == |Bytes(s)|
  {
    s.len
  }

  /** `compare(str) == 0`: the view holds exactly the bytes of `lit`. */
  predicate Equals(s: Span, lit: string) {
    Bytes(s) == lit
  }

  /** `to_str()`. */
  function ToStr(s: Span): string {
    Bytes(s)
  }

  /** The position of the first `ch` in `t`, or -1 when `t` has none. */
  function IndexOf(t: string, ch: char): (r: int)
    ensures -1 <= r < |t|
    ensures r == -1 <==> ch !in t
    ensures r >= 0 ==> t[r] == ch && ch !in t[..r]
    decreases |t|
  {
    if t == [] then -1
    else if t[0] == ch then 0
    else
      var k := IndexOf(t[1..], ch);
      assert t == [t[0]] + t[1..];
      if k < 0 then -1
      else
        assert t[..k + 1] == [t[0]] + t[1..][..k];
        k + 1
  }

  /** A `ch` at `j` with none before it is the one `IndexOf` finds. */
  lemma {:induction false} IndexOfAt(t: string, ch: char, j: nat)
    requires j < |t| && t[j] == ch
    requires forall i :: 0 <= i < j ==> t[i] != ch
    ensures IndexOf(t, ch) == j
    decreases j
  {
    if j > 0 {
      IndexOfAt(t[1..], ch, j - 1);
    }
  }

  /** `find(ch)`: the smallest index holding `ch`, or -1. */
  method Find(s: Span, ch: char) returns (r: int)
    ensures -1 <= r < s.len
    ensures r >= 0 ==> Bytes(s)[r] == ch && forall j :: 0 <= j < r ==> Bytes(s)[j] != ch
    ensures r == -1 <==> ch !in Bytes(s)
    ensures r == IndexOf(Bytes(s), ch)
  {
    var i := 0;
    while i < s.len
      invariant 0 <= i <= s.len
      invariant forall j :: 0 <= j < i ==> Bytes(s)[j] != ch
    {
      if s.buf[s.off + i] == ch {
        assert Bytes(s)[i] == ch;
        assert ch !in Bytes(s)[..i];
        return i;
      }
      i := i + 1;
    }
    assert ch !in Bytes(s);
    return -1;
  }

  /** The view `trim()` leaves (see TrimStripsOnlySpaces). */
  function Trimmed(s: Span): (t: Span)
    ensures t.buf == s.buf && s.off <= t.off && t.off + t.len <= s.off + s.len
    decreases s.len
  {
    if s.len > 0 && s.buf[s.off] == ' ' then Trimmed(View(s.buf, s.off + 1, s.len - 1))
    else TrimmedRight(s)
  }

  /** The second loop of `trim()`: strip 0x20 bytes from the end only. */
  function TrimmedRight(s: Span): (t: Span)
    ensures t.buf == s.buf && t.off == s.off && t.len <= s.len
    decreases s.len
  {
    if s.len > 0 && s.buf[s.off + s.len - 1] == ' ' then TrimmedRight(View(s.buf, s.off, s.len - 1))
    else s
  }

  /** Every byte of `buf` in `[lo, hi)` is 0x20. */
  predicate AllSpaces(buf: string, lo: nat, hi: nat)
    requires lo <= hi <= |buf|
  {
    forall j :: lo <= j < hi ==> buf[j] == ' '
  }

  lemma {:induction false} TrimmedRightStripsOnlySpaces(s: Span)
    ensures var t := TrimmedRight(s);
      (t.len == 0 || s.buf[t.off + t.len - 1] != ' ') &&
      AllSpaces(s.buf, t.off + t.len, s.off + s.len)
    decreases s.len
  {
    if s.len > 0 && s.buf[s.off + s.len - 1] == ' ' {
      TrimmedRightStripsOnlySpaces(View(s.buf, s.off, s.len - 1));
    }
  }

  /** `trim()` leaves a sub-view of the same buffer with no 0x20 at either end,
      and every byte it dropped was a 0x20; the bytes it keeps are untouched. */
  lemma {:induction false} TrimStripsOnlySpaces(s: Span)
    ensures var t := Trimmed(s);
      && t.buf == s.buf && s.off <= t.off && t.off + t.len <= s.off + s.len
      && Bytes(t) == Bytes(s)[t.off - s.off .. t.off - s.off + t.len]
      && (t.len == 0 || (s.buf[t.off] != ' ' && s.buf[t.off + t.len - 1] != ' '))
      && AllSpaces(s.buf, s.off, t.off)
      && AllSpaces(s.buf, t.off + t.len, s.off + s.len)
  {
    var t := Trimmed(s);
    TrimmedEnds(s);
    SliceOfSlice(s.buf, s.off, s.off + s.len, t.off - s.off, t.off - s.off + t.len);
  }

  lemma {:induction false} TrimmedEnds(s: Span)
    ensures var t := Trimmed(s);
      && (t.len == 0 || (s.buf[t.off] != ' ' && s.buf[t.off + t.len - 1] != ' '))
      && AllSpaces(s.buf, s.off, t.off)
      && AllSpaces(s.buf, t.off + t.len, s.off + s.len)
    decreases s.len
  {
    var t := Trimmed(s);
    if s.len > 0 && s.buf[s.off] == ' ' {
      var next: Span := View(s.buf, s.off + 1, s.len - 1);
      TrimmedEnds(next);
      assert t == Trimmed(next);
      assert AllSpaces(s.buf, s.off + 1, t.off);
    } else {
      TrimmedRightStripsOnlySpaces(s);
      assert t == TrimmedRight(s);
    }
  }

  lemma SliceOfSlice(t: string, a: nat, b: nat, c: nat, d: nat)
    requires a <= b <= |t| && c <= d <= b - a
    ensures t[a..b][c..d] == t[a + c .. a + d]
  {
    assert forall k :: 0 <= k < d - c ==> t[a..b][c..d][k] == t[a + c .. a + d][k];
  }

  /** `trim()`: the two loops of the source, moving the start then the end. */
  method Trim(s: Span) returns (t: Span)
    ensures t == Trimmed(s)
  {
    t := s;
    while t.len > 0 && t.buf[t.off] == ' '
      invariant Trimmed(t) == Trimmed(s)
      decreases t.len
    {
      var next: Span := View(t.buf, t.off + 1, t.len - 1);
      assert Trimmed(t) == Trimmed(next);
      t := next;
    }
    assert Trimmed(t) == TrimmedRight(t);
    while t.len > 0 && t.buf[t.off + t.len - 1] == ' '
      invariant TrimmedRight(t) == Trimmed(s)
      decreases t.len
    {
      var next: Span := View(t.buf, t.off, t.len - 1);
      assert TrimmedRight(t) == TrimmedRight(next);
      t := next;
    }
  }

  /** `sub_to(ch)`: the bytes before the first `ch`; empty when the view is
      empty, starts with `ch`, or holds no `ch`. */
  function SubTo(s: Span, ch: char): (r: Span)
    ensures r == Null || (r.buf == s.buf && r.off == s.off && 0 < r.len < s.len)
  {
    if Empty(s) then Null
    else if s.buf[s.off] == ch then Null
    else
      var k := IndexOf(Bytes(s), ch);
      if k != -1 then View(s.buf, s.off, k) else Null
  }

  /** What `sub_to` returns: empty when the view is empty, starts with `ch` or
      holds no `ch`, otherwise exactly the bytes before the first `ch`. */
  lemma SubToSpec(s: Span, ch: char)
    ensures var r := SubTo(s, ch);
      && (Empty(s) || s.buf[s.off] == ch || ch !in Bytes(s) ==> r == Null)
      && (!Empty(s) && s.buf[s.off] != ch && ch in Bytes(s) ==>
            r.len > 0 && Bytes(r) + [ch] == Bytes(s)[..r.len + 1] && ch !in Bytes(r))
  {
    var r := SubTo(s, ch);
    if !Empty(s) && s.buf[s.off] != ch && ch in Bytes(s) {
      var k := IndexOf(Bytes(s), ch);
      assert r == View(s.buf, s.off, k);
      SubToFound(s, k, ch);
    }
  }

  /** The bytes before the first `ch` at `k`, followed by `ch`, open the view. */
  lemma SubToFound(s: Span, k: nat, ch: char)
    requires k < s.len && Bytes(s)[k] == ch && ch !in Bytes(s)[..k]
    ensures Bytes(View(s.buf, s.off, k)) + [ch] == Bytes(s)[..k + 1]
    ensures ch !in Bytes(View(s.buf, s.off, k))
  {
    SliceOfSlice(s.buf, s.off, s.off + s.len, 0, k + 1);
    SliceOfSlice(s.buf, s.off, s.off + s.len, 0, k);
    assert Bytes(s)[..k + 1] == Bytes(s)[..k] + [Bytes(s)[k]];
  }

  /** `cut_by(ch)`: returns `sub_to(ch)` together with the view as the call
      leaves it, advanced past the first `ch` when one was found. */
  function CutBy(s: Span, ch: char): (r: (Span, Span))
    ensures r.0 == Null || (r.0.buf == s.buf && r.0.off == s.off && r.0.len < s.len)
    ensures r.1.buf == s.buf && s.off <= r.1.off && r.1.off + r.1.len == s.off + s.len
  {
    var res := SubTo(s, ch);
    if !Empty(res) then
      (res, View(s.buf, s.off + res.len + 1, s.len - res.len - 1))
    else if s.len > 0 && s.buf[s.off] == ch then
      (res, View(s.buf, s.off + 1, s.len - 1))
    else
      (res, s)
  }

  /** What `cut_by` returns and leaves: when `ch` occurs, the bytes before its
      first occurrence and the bytes after it; otherwise nothing, and the view
      unchanged. */
  lemma CutBySpec(s: Span, ch: char)
    ensures var r := CutBy(s, ch);
      && (ch in Bytes(s) ==> Bytes(r.0) + [ch] + Bytes(r.1) == Bytes(s) && ch !in Bytes(r.0))
      && (ch !in Bytes(s) ==> Empty(r.0) && r.1 == s)
      && (s.len > 0 && s.buf[s.off] == ch ==> Empty(r.0) && Bytes(r.1) == Bytes(s)[1..])
  {
    SubToSpec(s, ch);
    if !Empty(SubTo(s, ch)) {
      CutFound(s, ch);
    } else if s.len > 0 && s.buf[s.off] == ch {
      CutLeading(s, ch);
    }
  }

  lemma CutFound(s: Span, ch: char)
    requires !Empty(SubTo(s, ch))
    ensures var r := CutBy(s, ch);
      && ch in Bytes(s) && s.buf[s.off] != ch
      && Bytes(r.0) + [ch] + Bytes(r.1) == Bytes(s) && ch !in Bytes(r.0)
  {
    var k := CutFoundAt(s, ch);
    CutJoins(s, ch, k);
  }

  /** The bytes before the first `ch` at `k`, `ch`, and the bytes after it
      make up the view. */
  lemma CutJoins(s: Span, ch: char, k: nat)
    requires 0 < k < s.len && s.off + s.len <= |s.buf|
    requires Bytes(s)[k] == ch && ch !in Bytes(s)[..k]
    ensures ch in Bytes(s) && s.buf[s.off] != ch
    ensures var before, after := View(s.buf, s.off, k), View(s.buf, s.off + k + 1, s.len - k - 1);
      Bytes(before) + [ch] + Bytes(after) == Bytes(s) && ch !in Bytes(before)
  {
    var b := Bytes(s);
    ThreeSlices(s.buf, s.off, k, s.len);
    var x, y := s.buf[s.off .. s.off + k], s.buf[s.off + k + 1 .. s.off + s.len];
    assert x == b[..k];
    assert x + [ch] + y == b;
    assert b[0] == s.buf[s.off];
  }

  /** Where the cut falls: at the first `ch`, which is not the first byte. */
  lemma CutFoundAt(s: Span, ch: char) returns (k: nat)
    requires !Empty(SubTo(s, ch))
    ensures 0 < k < s.len && s.off + s.len <= |s.buf|
    ensures k == IndexOf(Bytes(s), ch) && Bytes(s)[k] == ch && ch !in Bytes(s)[..k]
    ensures CutBy(s, ch) == (View(s.buf, s.off, k), View(s.buf, s.off + k + 1, s.len - k - 1))
  {
    k := IndexOf(Bytes(s), ch);
  }

  /** A slice is its first `n` bytes, the byte at `n` and the bytes after. */
  lemma ThreeSlices(buf: string, off: nat, n: nat, len: nat)
    requires n < len && off + len <= |buf|
    ensures buf[off .. off + len][..n] == buf[off .. off + n]
    ensures buf[off .. off + len][n] == buf[off + n]
    ensures buf[off .. off + n] + [buf[off + n]] + buf[off + n + 1 .. off + len] == buf[off .. off + len]
  {
    assert buf[off .. off + len] == buf[off .. off + n] + buf[off + n .. off + len];
    assert buf[off + n .. off + len] == [buf[off + n]] + buf[off + n + 1 .. off + len];
  }

  lemma CutLeading(s: Span, ch: char)
    requires s.len > 0 && s.buf[s.off] == ch
    ensures var r := CutBy(s, ch);
      && ch in Bytes(s)
      && Empty(r.0) && Bytes(r.1) == Bytes(s)[1..]
      && Bytes(r.0) + [ch] + Bytes(r.1) == Bytes(s)
  {
    var b := Bytes(s);
    var rest := View(s.buf, s.off + 1, s.len - 1);
    assert b[0] == ch;
    assert CutBy(s, ch) == (Null, rest);
    SliceOfSlice(s.buf, s.off, s.off + s.len, 1, s.len);
    assert Bytes(rest) == b[1..];
    assert b == [b[0]] + b[1..];
  }

  /** The bytes of `t` with every `ch` removed. */
  function Without(t: string, ch: char): string
    decreases |t|
  {
    if t == [] then [] else (if t[0] == ch then [] else [t[0]]) + Without(t[1..], ch)
  }

  lemma {:induction false} WithoutAppend(a: string, b: string, ch: char)
    ensures Without(a + b, ch) == Without(a, ch) + Without(b, ch)
    decreases |a|
  {
    if a == [] {
      assert a + b == b;
    } else {
      assert (a + b)[1..] == a[1..] + b;
      WithoutAppend(a[1..], b, ch);
    }
  }

  lemma {:induction false} WithoutAbsent(t: string, ch: char)
    requires ch !in t
    ensures Without(t, ch) == t
    decreases |t|
  {
    if t != [] {
      WithoutAbsent(t[1..], ch);
    }
  }

  /** The bytes of a sequence of views, one after the other. */
  function Concat(items: seq<Span>): string {
    if items == [] then [] else Bytes(items[0]) + Concat(items[1..])
  }

  /** Each item is a non-empty view into `buf` holding no `ch`. */
  predicate Pieces(items: seq<Span>, buf: string, ch: char) {
    forall k :: 0 <= k < |items| ==> items[k].buf == buf && items[k].len > 0 && ch !in Bytes(items[k])
  }

  /** `split(ch)` (declared in http/string.h, its body is not part of this
      model): the non-empty runs of bytes between occurrences of `ch`, in
      order, each a view into the same buffer. */
  function Split(s: Span, ch: char): (items: seq<Span>)
    ensures Pieces(items, s.buf, ch)
    ensures Concat(items) == Without(Bytes(s), ch)
    ensures items == [] <==> Without(Bytes(s), ch) == []
    decreases s.len
  {
    if s.len == 0 then []
    else if s.buf[s.off] == ch then
      var rest := View(s.buf, s.off + 1, s.len - 1);
      SplitLeadingDelimiter(s, rest, ch);
      Split(rest, ch)
    else
      var k := IndexOf(Bytes(s), ch);
      var n := if k < 0 then s.len else k;
      var item := View(s.buf, s.off, n);
      if k < 0 then
        SplitLastItem(s, item, ch);
        [item]
      else
        var rest := View(s.buf, s.off + n + 1, s.len - n - 1);
        var tail := Split(rest, ch);
        SplitFound(s, n, tail, ch);
        [item] + tail
  }

  lemma SplitFound(s: Span, n: nat, tail: seq<Span>, ch: char)
    requires n < s.len && s.buf[s.off] != ch && IndexOf(Bytes(s), ch) == n
    requires Pieces(tail, s.buf, ch)
    requires Concat(tail) == Without(Bytes(View(s.buf, s.off + n + 1, s.len - n - 1)), ch)
    ensures Pieces([View(s.buf, s.off, n)] + tail, s.buf, ch)
    ensures Concat([View(s.buf, s.off, n)] + tail) == Without(Bytes(s), ch) != []
  {
    FoundItem(s, n, ch);
    SplitItem(s, View(s.buf, s.off, n), View(s.buf, s.off + n + 1, s.len - n - 1), tail, ch);
  }

  /** The bytes before the first delimiter, when there are some, form an
      item without the delimiter that ends at one. */
  lemma FoundItem(s: Span, n: nat, ch: char)
    requires n < s.len && s.buf[s.off] != ch && IndexOf(Bytes(s), ch) == n
    ensures 0 < n && s.buf[s.off + n] == ch && ch !in Bytes(View(s.buf, s.off, n))
  {
    var b := Bytes(s);
    assert b[0] == s.buf[s.off];
    assert b[n] == s.buf[s.off + n];
    SliceOfSlice(s.buf, s.off, s.off + s.len, 0, n);
    assert Bytes(View(s.buf, s.off, n)) == b[..n];
  }

  lemma SplitLeadingDelimiter(s: Span, rest: Span, ch: char)
    requires s.len > 0 && s.buf[s.off] == ch && rest == View(s.buf, s.off + 1, s.len - 1)
    ensures Without(Bytes(s), ch) == Without(Bytes(rest), ch)
  {
    assert Bytes(s) == [ch] + Bytes(rest);
    WithoutAppend([ch], Bytes(rest), ch);
  }

  lemma SplitLastItem(s: Span, item: Span, ch: char)
    requires ch !in Bytes(s) && s.len > 0 && item == View(s.buf, s.off, s.len)
    ensures Pieces([item], s.buf, ch)
    ensures Concat([item]) == Without(Bytes(s), ch) != []
  {
    WithoutAbsent(Bytes(s), ch);
    assert Concat([item]) == Bytes(item) + Concat([]);
  }

  lemma SplitItem(s: Span, item: Span, rest: Span, tail: seq<Span>, ch: char)
    requires item.buf == s.buf && item.off == s.off && 0 < item.len < s.len
    requires s.buf[s.off + item.len] == ch && ch !in Bytes(item)
    requires rest == View(s.buf, s.off + item.len + 1, s.len - item.len - 1)
    requires Pieces(tail, s.buf, ch) && Concat(tail) == Without(Bytes(rest), ch)
    ensures Pieces([item] + tail, s.buf, ch)
    ensures Concat([item] + tail) == Without(Bytes(s), ch) != []
  {
    PiecesCons(item, tail, s.buf, ch);
    ItemLayout(s, item, rest, ch);
    WithoutSkipsDelimiter(Bytes(item), Bytes(rest), ch);
    ConcatCons(item, tail);
  }

  /** A view is its first item, the delimiter after it and the rest. */
  lemma ItemLayout(s: Span, item: Span, rest: Span, ch: char)
    requires item.buf == s.buf && item.off == s.off && 0 < item.len < s.len
    requires s.buf[s.off + item.len] == ch
    requires rest == View(s.buf, s.off + item.len + 1, s.len - item.len - 1)
    ensures Bytes(s) == Bytes(item) + ([ch] + Bytes(rest))
  {
    SliceSplit(s.buf, s.off, s.off + item.len, s.off + s.len);
  }

  lemma WithoutSkipsDelimiter(a: string, b: string, ch: char)
    requires ch !in a
    ensures Without(a + ([ch] + b), ch) == a + Without(b, ch)
  {
    WithoutAbsent(a, ch);
    WithoutAppend(a, [ch] + b, ch);
    WithoutAppend([ch], b, ch);
    assert [ch][1..] == [];
    assert Without([ch], ch) == [] + Without([], ch) == [];
    assert Without([ch] + b, ch) == Without(b, ch);
  }

  lemma SliceSplit(t: string, a: nat, m: nat, b: nat)
    requires a <= m < b <= |t|
    ensures t[a..b] == t[a..m] + ([t[m]] + t[m + 1..b])
  {
    assert t[a..b] == t[a..m] + t[m..b];
    assert t[m..b] == [t[m]] + t[m + 1..b];
  }

  lemma PiecesCons(item: Span, tail: seq<Span>, buf: string, ch: char)
    requires item.buf == buf && item.len > 0 && ch !in Bytes(item) && Pieces(tail, buf, ch)
    ensures Pieces([item] + tail, buf, ch)
  {
    forall k | 0 <= k < |[item] + tail|
      ensures ([item] + tail)[k].buf == buf && ([item] + tail)[k].len > 0 && ch !in Bytes(([item] + tail)[k])
    {
      if k > 0 {
        assert ([item] + tail)[k] == tail[k - 1];
      }
    }
  }

  lemma ConcatCons(item: Span, tail: seq<Span>)
    ensures Concat([item] + tail) == Bytes(item) + Concat(tail)
  {
    assert ([item] + tail)[1..] == tail;
  }

  /** What `to_int(ok)` computes: the accumulated value of the leading digits,
      and `ok` exactly when the view is non-empty and all digits. */
  function IntValue(t: string): (r: (nat, bool))
    ensures r.1 <==> |t| > 0 && AllDigits(t)
    ensures r.1 ==> r.0 == DecimalValue(t)
    ensures t == [] ==> r.0 == 0
  {
    var n := DigitRun(t);
    assert n == |t| ==> t[..n] == t;
    (DecimalValue(t[..n]), t != [] && n == |t|)
  }

  /** The length of the longest all-digit prefix of `t`. */
  function DigitRun(t: string): (n: nat)
    ensures n <= |t| && AllDigits(t[..n])
    ensures n < |t| ==> !IsDigit(t[n])
    decreases |t|
  {
    if t == [] || !IsDigit(t[0]) then 0
    else
      var n := DigitRun(t[1..]) + 1;
      assert t[..n] == [t[0]] + t[1..][..n - 1];
      n
  }

  /** `to_int(ok)`: the digit loop of the source. */
  method ToInt(s: Span) returns (value: nat, ok: bool)
    ensures ok <==> !Empty(s) && AllDigits(Bytes(s))
    ensures ok ==> value == DecimalValue(Bytes(s))
    ensures Empty(s) ==> value == 0
    ensures (value, ok) == IntValue(Bytes(s))
  {
    value := 0;
    if Empty(s) {
      ok := false;
      return;
    }
    ok := true;
    ghost var b := Bytes(s);
    var i := 0;
    while i < s.len
      invariant 0 <= i <= s.len
      invariant AllDigits(b[..i]) && value == DecimalValue(b[..i])
      invariant ok
    {
      var c := s.buf[s.off + i];
      assert c == b[i];
      if '0' <= c <= '9' {
        DecimalStep(b, i);
        value := value * 10 + (c as int - '0' as int);
      } else {
        ok := false;
        break;
      }
      i := i + 1;
    }
    assert i == s.len ==> b[..i] == b;
    DigitRunIsMaximal(b, i);
  }

  /** One more digit: the numeral grows by that digit, in the units place. */
  lemma DecimalStep(t: string, i: nat)
    requires i < |t| && AllDigits(t[..i]) && IsDigit(t[i])
    ensures AllDigits(t[..i + 1])
    ensures DecimalValue(t[..i + 1]) == DecimalValue(t[..i]) * 10 + DigitValue(t[i])
  {
    assert t[..i + 1][..i] == t[..i];
    assert t[..i + 1] == t[..i] + [t[i]];
  }

  lemma {:induction false} DigitRunIsMaximal(t: string, i: nat)
    requires i <= |t| && AllDigits(t[..i]) && (i < |t| ==> !IsDigit(t[i]))
    ensures DigitRun(t) == i
    decreases |t|
  {
    if i > 0 {
      assert t[1..][..i - 1] == t[1..i];
      assert t[0] == t[..i][0];
      DigitRunIsMaximal(t[1..], i - 1);
    }
  }
}
