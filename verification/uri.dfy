/**
 * The request-target decomposition `http::uri` (http/uri.cpp): the target is
 * trimmed, cut at the first '?', the path is split on '/' and the query on
 * '&', and each query pair is cut at its first '='.
 */
module Uri {
  import opened Common
  import opened HttpString
  /** One query item: the bytes before the first '=' of a pair and the
      bytes after it, both views into the target. */
  datatype Query = Query(key: Span, value: Span)

  /** What the constructor leaves in `_is_valid`, `_path_items` and
      `_query_items`. */
  datatype Parsed = Parsed(valid: bool, path: seq<Span>, query: seq<Query>)

  /** The target after `trim()`. */
  function Target(buf: string): Span {
    Trimmed(Whole(buf))
  }

  /** The view the constructor splits on '/': the bytes before the first '?'
      or, when that cut is empty, the rest the cut leaves. */
  function PathPart(buf: string): Span {
    var cut := CutBy(Target(buf), '?');
    if Empty(cut.0) then cut.1 else cut.0
  }

  /** The view the constructor splits on '&': what follows the first '?',
      kept only when the bytes before it are not empty. */
  function QueryPart(buf: string): Span {
    var cut := CutBy(Target(buf), '?');
    if Empty(cut.0) then Null else cut.1
  }

  /** How the target falls apart at its first '?': without one, it is all
      path; a leading '?' is dropped and the rest is path; otherwise the path
      is the non-empty run before the '?' and the query the run after it. */
  lemma TargetParts(buf: string)
    ensures var t := Bytes(Target(buf));
      var p := Bytes(PathPart(buf));
      var q := Bytes(QueryPart(buf));
      && ('?' !in t ==> p == t && q == [])
      && (t != [] && t[0] == '?' ==> p == t[1..] && q == [])
      && (t != [] && t[0] != '?' && '?' in t ==> p + ['?'] + q == t && '?' !in p && p != [])
  {
    var s := Target(buf);
    CutBySpec(s, '?');
    if Bytes(s) != [] {
      assert Bytes(s)[0] == s.buf[s.off];
    }
  }

  /** The '&'-separated pairs of a non-empty query; when the split yields
      nothing, the whole query is the one pair. */
  function Pairs(q: Span): (pairs: seq<Span>)
    ensures Empty(q) <==> pairs == []
    ensures forall k :: 0 <= k < |pairs| ==> !Empty(pairs[k])
  {
    if Empty(q) then []
    else
      var parts := Split(q, '&');
      if parts == [] then [q] else parts
  }

  /** A pair cut at its first '='. */
  function Item(p: Span): Query {
    var kv := CutBy(p, '=');
    Query(kv.0, kv.1)
  }

  function Items(pairs: seq<Span>): (cuts: seq<Query>)
    ensures |cuts| == |pairs|
  {
    seq(|pairs|, k requires 0 <= k < |pairs| => Item(pairs[k]))
  }

  /** A cut pair is kept when neither side is empty. */
  predicate Good(q: Query) {
    q.key.len > 0 && q.value.len > 0
  }

  /** A kept item is the pair split at an '=' that the key does not hold. */
  lemma GoodItemSplitsPair(p: Span)
    requires Good(Item(p))
    ensures Bytes(Item(p).key) + "=" + Bytes(Item(p).value) == Bytes(p)
    ensures '=' !in Bytes(Item(p).key)
  {
    CutBySpec(p, '=');
  }

  /** Every cut pair is kept. */
  predicate AllGood(cuts: seq<Query>) {
    forall k :: 0 <= k < |cuts| ==> Good(cuts[k])
  }

  lemma AllGoodSnoc(cuts: seq<Query>, q: Query)
    requires AllGood(cuts) && Good(q)
    ensures AllGood(cuts + [q])
  {
    assert forall k :: 0 <= k < |cuts| ==> (cuts + [q])[k] == cuts[k];
  }

  /** The constructor's loop over the cut pairs: items are kept in order up
      to the first pair that is not good, which fails the whole target. */
  function ParsePairs(cuts: seq<Query>): (r: (seq<Query>, bool))
    ensures r.1 <==> AllGood(cuts)
    ensures r.1 ==> r.0 == cuts
    ensures r.0 <= cuts
    ensures AllGood(r.0)
  {
    if cuts == [] then ([], true)
    else if Good(cuts[0]) then
      var rest := ParsePairs(cuts[1..]);
      assert forall k :: 1 <= k < |cuts| ==> cuts[k] == cuts[1..][k - 1];
      ([cuts[0]] + rest.0, rest.1)
    else ([], false)
  }
  /** The three fields as the constructor leaves them: invalid with no items
      when the path part is empty, invalid with the path items when those are
      empty, otherwise the outcome of the pair loop. */
  function ParseTarget(buf: string): Parsed {
    if Empty(PathPart(buf)) then Parsed(false, [], [])
    else
      var path := Split(PathPart(buf), '/');
      if path == [] then Parsed(false, path, [])
      else
        var items := ParsePairs(Items(Pairs(QueryPart(buf))));
        Parsed(items.1, path, items.0)
  }

  /** A target is valid exactly when its path part holds a byte other than
      '/' and every query pair has a non-empty key and value; then the path
      items are that path part without its '/' bytes, and the query items are
      the cut pairs in order. */
  lemma ParseTargetSpec(buf: string)
    ensures var r := ParseTarget(buf);
      var pairs := Pairs(QueryPart(buf));
      && (r.valid <==> Without(Bytes(PathPart(buf)), '/') != [] &&
                       forall k :: 0 <= k < |pairs| ==> Good(Items(pairs)[k]))
      && (r.valid ==> Concat(r.path) == Without(Bytes(PathPart(buf)), '/') && r.query == Items(pairs))
      && r.query <= Items(pairs)
      && Pieces(r.path, Target(buf).buf, '/')
  {
    if Empty(PathPart(buf)) {
      assert Bytes(PathPart(buf)) == [];
    }
  }

  /** An empty or all-blank target is never valid. */
  lemma BlankTargetInvalid(buf: string)
    requires Bytes(Target(buf)) == []
    ensures !ParseTarget(buf).valid && ParseTarget(buf).path == []
  {
    TargetParts(buf);
  }

  /** The constructor's loop over the pairs, in order: each pair is cut at
      its first '=' and kept, until a pair with an empty side stops it. */
  method CutPairs(quaries: seq<Span>) returns (items: seq<Query>, ok: bool)
    ensures (items, ok) == ParsePairs(Items(quaries))
  {
    ghost var cuts := Items(quaries);
    items := [];
    var i := 0;
    while i < |quaries|
      invariant 0 <= i <= |quaries|
      invariant items == cuts[..i]
      invariant AllGood(items)
    {
      var q := Item(quaries[i]);
      ItemsAt(quaries, i);
      if !Empty(q.key) && !Empty(q.value) {
        TakeOneMore(cuts, i);
        AllGoodSnoc(items, q);
        items := items + [q];
      } else {
        ParsePairsStops(cuts, i);
        return items, false;
      }
      i := i + 1;
    }
    assert cuts[..i] == cuts;
    return items, true;
  }

  lemma ItemsAt(pairs: seq<Span>, i: nat)
    requires i < |pairs|
    ensures Items(pairs)[i] == Item(pairs[i])
  {
  }

  lemma TakeOneMore(cuts: seq<Query>, i: nat)
    requires i < |cuts|
    ensures cuts[..i + 1] == cuts[..i] + [cuts[i]]
  {
  }

  lemma {:induction false} ParsePairsStops(cuts: seq<Query>, i: nat)
    requires i < |cuts| && !Good(cuts[i])
    requires AllGood(cuts[..i])
    ensures ParsePairs(cuts) == (cuts[..i], false)
    decreases i
  {
    if i > 0 {
      var head := cuts[..i];
      assert Good(head[0]);
      assert cuts[1..][..i - 1] == head[1..];
      assert AllGood(head[1..]) by {
        assert forall k :: 0 <= k < i - 1 ==> head[1..][k] == head[k + 1];
      }
      ParsePairsStops(cuts[1..], i - 1);
      assert head == [cuts[0]] + cuts[1..][..i - 1];
    }
  }

  /** `find_query_item(key)`: the value of the first item whose key is
      exactly `key`, or the empty view when there is none. */
  function FindQueryItem(items: seq<Query>, key: string): (v: Span)
    ensures (forall k :: 0 <= k < |items| ==> Bytes(items[k].key) != key) ==> v == Null
    ensures v != Null ==> exists k :: 0 <= k < |items| && Bytes(items[k].key) == key && items[k].value == v
  {
    if items == [] then Null
    else if Bytes(items[0].key) == key then items[0].value
    else
      var v := FindQueryItem(items[1..], key);
      assert forall k :: 1 <= k < |items| ==> items[k] == items[1..][k - 1];
      v
  }

  /** The item `FindQueryItem` returns comes before every other item with the
      same key. */
  lemma {:induction false} FindQueryItemFirst(items: seq<Query>, key: string, i: nat)
    requires i < |items| && Bytes(items[i].key) == key
    requires forall k :: 0 <= k < i ==> Bytes(items[k].key) != key
    ensures FindQueryItem(items, key) == items[i].value
    decreases i
  {
    if i > 0 {
      FindQueryItemFirst(items[1..], key, i - 1);
    }
  }

  class Uri {
    var isValid: bool
    var pathItems: seq<Span>
    var queryItems: seq<Query>

    /** `uri(buff, size)`. */
    constructor (buf: string)
      ensures Parsed(isValid, pathItems, queryItems) == ParseTarget(buf)
    {
      isValid := false;
      pathItems := [];
      queryItems := [];
      new;
      var str := Trim(Whole(buf));
      assert str == Target(buf);
      var cut := CutBy(str, '?');
      var pathStr := cut.0;
      str := cut.1;
      var queryStr := Null;
      if Empty(pathStr) {
        if !Empty(str) {
          pathStr := str;
          queryStr := Null;
        } else {
          return;
        }
      } else if !Empty(str) {
        queryStr := str;
      }
      assert !Empty(pathStr);
      assert pathStr == PathPart(buf);
      assert Empty(queryStr) <==> Empty(QueryPart(buf));
      assert !Empty(queryStr) ==> queryStr == QueryPart(buf);
      ghost var pairs := Pairs(QueryPart(buf));
      assert Empty(queryStr) ==> pairs == [];

      pathItems := Split(pathStr, '/');
      if pathItems == [] {
        return;
      }

      if !Empty(queryStr) {
        var quaries := Split(queryStr, '&');
        if quaries == [] {
          quaries := quaries + [queryStr];
        }
        assert quaries == pairs;
        var ok;
        queryItems, ok := CutPairs(quaries);
        if !ok {
          return;
        }
      } else {
        assert ParsePairs(Items(pairs)) == ([], true);
      }

      isValid := true;
    }

    /** `is_valid()`. */
    function IsValid(): (b: bool)
      reads this
      ensures b == isValid
    {
      isValid
    }
  }
}
