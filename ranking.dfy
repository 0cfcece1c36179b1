/** Ranking in `_synthesize_answer` (backend/agent.py): Python's
    `sorted(results, key=len(content), reverse=True)` is a stable sort on
    content length, longest first; the first seven documents are kept. */
module Ranking {
  import opened Search

  /** How many ranked documents go into the context. */
  const MaxSources: nat := 7

  function Min(a: nat, b: nat): nat {
    if a <= b then a else b
  }

  /** The sort key: the length of the document's content. */
  function Depth(d: Doc): nat {
    |d.content|
  }

  /** Longest content first. */
  predicate Descending(s: seq<Doc>) {
    forall i, j :: 0 <= i < j < |s| ==> Depth(s[i]) >= Depth(s[j])
  }

  /** The documents of `s` whose content has length `n`, in their order in `s`. */
  function WithDepth(s: seq<Doc>, n: nat): seq<Doc>
    decreases |s|
  {
    if s == [] then []
    else (if Depth(s[0]) == n then [s[0]] else []) + WithDepth(s[1..], n)
  }

  /** A document at least as long as the head of a descending list can go in front of it. */
  lemma ConsDescending(y: Doc, r: seq<Doc>)
    requires Descending(r)
    requires r == [] || Depth(y) >= Depth(r[0])
    ensures Descending([y] + r)
  {
  }

  /** Places `x` in a descending list before every document whose content is
      no longer than its own. */
  function InsertByDepth(x: Doc, r: seq<Doc>): (r': seq<Doc>)
    requires Descending(r)
    ensures |r'| == |r| + 1
    ensures r'[0] == x || (r != [] && r'[0] == r[0])
    ensures Descending(r')
    ensures multiset(r') == multiset(r) + multiset{x}
    decreases |r|
  {
    if r == [] || Depth(x) >= Depth(r[0]) then
      ConsDescending(x, r);
      [x] + r
    else
      var rest := InsertByDepth(x, r[1..]);
      assert r == [r[0]] + r[1..];
      ConsDescending(r[0], rest);
      assert multiset([r[0]] + rest) == multiset{r[0]} + multiset(rest);
      [r[0]] + rest
  }

  /** `sorted(docs, key=depth, reverse=True)`, as an insertion sort. */
  function SortByDepth(s: seq<Doc>): (r: seq<Doc>)
    ensures |r| == |s|
    ensures Descending(r)
    ensures multiset(r) == multiset(s)
    decreases |s|
  {
    if s == [] then []
    else
      assert s == [s[0]] + s[1..];
      InsertByDepth(s[0], SortByDepth(s[1..]))
  }

  lemma {:induction false} InsertKeepsOrderOfEquals(x: Doc, r: seq<Doc>, n: nat)
    requires Descending(r)
    ensures WithDepth(InsertByDepth(x, r), n) == (if Depth(x) == n then [x] else []) + WithDepth(r, n)
    decreases |r|
  {
    if r == [] || Depth(x) >= Depth(r[0]) {
      assert ([x] + r)[1..] == r;
    } else {
      var rest := InsertByDepth(x, r[1..]);
      InsertKeepsOrderOfEquals(x, r[1..], n);
      assert ([r[0]] + rest)[1..] == rest;
    }
  }

  /** The sort is stable: documents with equally long content keep their relative order. */
  lemma {:induction false} SortIsStable(s: seq<Doc>, n: nat)
    ensures WithDepth(SortByDepth(s), n) == WithDepth(s, n)
    decreases |s|
  {
    if s != [] {
      SortIsStable(s[1..], n);
      InsertKeepsOrderOfEquals(s[0], SortByDepth(s[1..]), n);
    }
  }

  /** `sorted_results[:7]`. */
  function TopSources(s: seq<Doc>): (r: seq<Doc>)
    ensures |r| <= MaxSources
    ensures r == [] <==> s == []
  {
    SortByDepth(s)[..Min(MaxSources, |s|)]
  }

  /** In a descending list, nothing after position `m` is longer than anything before it. */
  lemma DescendingSplit(r: seq<Doc>, m: nat)
    requires Descending(r) && m <= |r|
    ensures forall d, e :: d in r[..m] && e in r[m..] ==> Depth(e) <= Depth(d)
  {
    forall d, e | d in r[..m] && e in r[m..] ensures Depth(e) <= Depth(d) {
      var i :| 0 <= i < m && r[..m][i] == d;
      var j :| 0 <= j < |r| - m && r[m..][j] == e;
      assert r[i] == d && r[m + j] == e;
    }
  }

  /** The selection keeps min(7, n) documents of the input, longest first. */
  lemma TopSourcesAreRanked(s: seq<Doc>)
    ensures |TopSources(s)| == Min(MaxSources, |s|)
    ensures Descending(TopSources(s))
    ensures multiset(TopSources(s)) <= multiset(s)
  {
    var r := SortByDepth(s);
    var m := Min(MaxSources, |s|);
    assert r == r[..m] + r[m..];
    assert multiset(r) == multiset(r[..m]) + multiset(r[m..]);
  }

  /** No document left out of the selection has longer content than one that was kept. */
  lemma TopSourcesAreLongest(s: seq<Doc>)
    ensures forall d, e :: d in multiset(TopSources(s)) && e in multiset(s) - multiset(TopSources(s)) ==>
              Depth(e) <= Depth(d)
  {
    var r := SortByDepth(s);
    var m := Min(MaxSources, |s|);
    var top, rest := r[..m], r[m..];
    assert multiset(s) - multiset(top) == multiset(rest) by {
      assert r == top + rest;
      assert multiset(r) == multiset(top) + multiset(rest);
    }
    DescendingSplit(r, m);
    forall d, e | d in multiset(top) && e in multiset(rest) ensures Depth(e) <= Depth(d) {
      assert d in top && e in rest;
    }
  }
}
