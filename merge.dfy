/** Merging the per-sub-question result lists and deduplicating them by url,
    as `research` in backend/agent.py does: a flattening comprehension, then a
    dict comprehension keyed by url whose `.values()` are kept. */
module Merge {
  import opened Search

  // ------------------------------------------------------------ flatten

  /** `[item for sublist in lists for item in sublist]`. */
  function Flatten(lists: seq<seq<Doc>>): (r: seq<Doc>)
    ensures forall i, d :: 0 <= i < |lists| && d in lists[i] ==> d in r
    ensures forall d :: d in r ==> exists i :: 0 <= i < |lists| && d in lists[i]
    decreases |lists|
  {
    if lists == [] then []
    else
      var r := lists[0] + Flatten(lists[1..]);
      assert forall i :: 1 <= i < |lists| ==> lists[i] == lists[1..][i - 1];
      r
  }

  function TotalLength(lists: seq<seq<Doc>>): nat
    decreases |lists|
  {
    if lists == [] then 0 else |lists[0]| + TotalLength(lists[1..])
  }

  /** Flattening keeps every document: its length is the sum of the list lengths. */
  lemma {:induction false} FlattenLength(lists: seq<seq<Doc>>)
    ensures |Flatten(lists)| == TotalLength(lists)
    decreases |lists|
  {
    if lists != [] {
      FlattenLength(lists[1..]);
    }
  }

  /** Flattening keeps list order: the lists of a prefix come before those of the rest. */
  lemma {:induction false} FlattenAppend(a: seq<seq<Doc>>, b: seq<seq<Doc>>)
    ensures Flatten(a + b) == Flatten(a) + Flatten(b)
    decreases |a|
  {
    if a == [] {
      assert a + b == b;
    } else {
      assert (a + b)[1..] == a[1..] + b;
      FlattenAppend(a[1..], b);
    }
  }

  /** When every list is empty, so is the merge. */
  lemma {:induction false} FlattenOfEmpties(lists: seq<seq<Doc>>)
    requires forall k :: 0 <= k < |lists| ==> lists[k] == []
    ensures Flatten(lists) == []
    decreases |lists|
  {
    if lists != [] {
      FlattenOfEmpties(lists[1..]);
    }
  }

  // ------------------------------------------------------------ urls and positions

  /** The set of urls of a document list. */
  function Urls(s: seq<Doc>): set<string>
    decreases |s|
  {
    if s == [] then {} else Urls(s[..|s| - 1]) + {s[|s| - 1].url}
  }

  /** A url belongs to `Urls(s)` exactly when some document of `s` carries it. */
  lemma {:induction false} UrlsIff(s: seq<Doc>, u: string)
    ensures u in Urls(s) <==> exists k :: 0 <= k < |s| && s[k].url == u
    decreases |s|
  {
    if s != [] {
      var p := s[..|s| - 1];
      UrlsIff(p, u);
      if u in Urls(p) {
        var k :| 0 <= k < |p| && p[k].url == u;
        assert s[k].url == u;
      }
      if exists k :: 0 <= k < |s| && s[k].url == u {
        var k :| 0 <= k < |s| && s[k].url == u;
        if k < |p| { assert p[k].url == u; }
      }
    }
  }

  /** Position of the first document of `s` with url `u`. */
  function FirstAt(s: seq<Doc>, u: string): (k: nat)
    requires u in Urls(s)
    ensures k < |s| && s[k].url == u
    ensures forall j :: 0 <= j < k ==> s[j].url != u
    decreases |s|
  {
    var p := s[..|s| - 1];
    if u in Urls(p) then
      var k := FirstAt(p, u);
      assert s[k] == p[k];
      k
    else
      UrlsIff(p, u);
      assert forall j :: 0 <= j < |p| ==> s[j] == p[j];
      |s| - 1
  }

  /** Position of the last document of `s` with url `u`. */
  function LastAt(s: seq<Doc>, u: string): (k: nat)
    requires u in Urls(s)
    ensures k < |s| && s[k].url == u
    ensures forall j :: k < j < |s| ==> s[j].url != u
    decreases |s|
  {
    var p := s[..|s| - 1];
    if s[|s| - 1].url == u then |s| - 1
    else
      var k := LastAt(p, u);
      assert s[k] == p[k];
      k
  }

  // ------------------------------------------------------------ the url dict

  /** A Python dict from url to document: its keys in insertion order and its entries. */
  datatype UrlDict = UrlDict(keys: seq<string>, entries: map<string, Doc>)

  /** Every key in the order list has an entry. */
  predicate KeysHaveEntries(d: UrlDict) {
    forall k :: 0 <= k < |d.keys| ==> d.keys[k] in d.entries
  }

  /** `d[doc['url']] = doc`: a new url is appended to the key order, a known url
      keeps its place and gets the new document. */
  function Store(d: UrlDict, doc: Doc): UrlDict {
    if doc.url in d.entries then UrlDict(d.keys, d.entries[doc.url := doc])
    else UrlDict(d.keys + [doc.url], d.entries[doc.url := doc])
  }

  /** `{r['url']: r for r in s}`. */
  function Index(s: seq<Doc>): (d: UrlDict)
    ensures KeysHaveEntries(d)
    decreases |s|
  {
    if s == [] then UrlDict([], map[]) else Store(Index(s[..|s| - 1]), s[|s| - 1])
  }

  /** `list(d.values())`: the entries in key order. */
  function Values(d: UrlDict): seq<Doc>
    requires KeysHaveEntries(d)
  {
    seq(|d.keys|, k requires 0 <= k < |d.keys| => d.entries[d.keys[k]])
  }

  /** `list({r['url']: r for r in s}.values())`. */
  function Dedup(s: seq<Doc>): (r: seq<Doc>)
    ensures forall k :: 0 <= k < |r| ==> r[k] in s
  {
    IndexValues(s);
    Values(Index(s))
  }

  /** Appending a document does not move the first occurrence of a url already present. */
  lemma FirstAtSnoc(s: seq<Doc>, u: string)
    requires s != [] && u in Urls(s[..|s| - 1])
    ensures u in Urls(s) && FirstAt(s, u) == FirstAt(s[..|s| - 1], u)
  {
  }

  /** The keys of the dict are the urls of the list, each in the key order. */
  lemma {:induction false} IndexKeys(s: seq<Doc>)
    ensures Index(s).entries.Keys == Urls(s)
    ensures forall u :: u in Index(s).entries ==> u in Index(s).keys
    decreases |s|
  {
    if s != [] {
      IndexKeys(s[..|s| - 1]);
    }
  }

  /** Appending a document with another url does not move the last occurrence of `u`. */
  lemma LastAtOfSnoc(s: seq<Doc>, u: string)
    requires s != [] && u in Urls(s)
    ensures s[|s| - 1].url != u ==> u in Urls(s[..|s| - 1]) && s[LastAt(s, u)] == s[..|s| - 1][LastAt(s[..|s| - 1], u)]
    ensures s[|s| - 1].url == u ==> LastAt(s, u) == |s| - 1
  {
  }

  /** Each url is stored with the last document carrying it. */
  lemma {:induction false} IndexValues(s: seq<Doc>)
    ensures Index(s).entries.Keys == Urls(s)
    ensures forall u :: u in Index(s).entries ==> Index(s).entries[u] == s[LastAt(s, u)]
    decreases |s|
  {
    IndexKeys(s);
    if s != [] {
      var p, x := s[..|s| - 1], s[|s| - 1];
      IndexValues(p);
      var e, e' := Index(p).entries, Index(s).entries;
      assert e' == e[x.url := x];
      forall u | u in e' ensures e'[u] == s[LastAt(s, u)] {
        LastAtOfSnoc(s, u);
        if u != x.url {
          assert e'[u] == e[u];
        }
      }
    }
  }

  /** The key order is the order of first occurrence. */
  lemma {:induction false} IndexOrder(s: seq<Doc>)
    ensures Index(s).entries.Keys == Urls(s)
    ensures forall i, j :: 0 <= i < j < |Index(s).keys| ==>
              FirstAt(s, Index(s).keys[i]) < FirstAt(s, Index(s).keys[j])
    decreases |s|
  {
    IndexKeys(s);
    if s != [] {
      var p, x := s[..|s| - 1], s[|s| - 1];
      IndexOrder(p);
      IndexKeys(p);
      var d, d' := Index(p), Index(s);
      forall i, j | 0 <= i < j < |d'.keys| ensures FirstAt(s, d'.keys[i]) < FirstAt(s, d'.keys[j]) {
        assert d'.keys[i] == d.keys[i];
        FirstAtSnoc(s, d.keys[i]);
        if j < |d.keys| {
          assert d'.keys[j] == d.keys[j];
          FirstAtSnoc(s, d.keys[j]);
        } else {
          assert x.url !in Urls(p) && d'.keys[j] == x.url;
        }
      }
    }
  }

  /** The `k`-th kept document is the last one carrying the `k`-th key. */
  lemma DedupAt(s: seq<Doc>, k: nat)
    requires k < |Dedup(s)|
    ensures Index(s).keys[k] in Urls(s)
    ensures Dedup(s)[k].url == Index(s).keys[k]
    ensures Dedup(s)[k] == s[LastAt(s, Index(s).keys[k])]
  {
    IndexValues(s);
  }

  /** Deduplication by url:
      - the urls of the result are pairwise distinct;
      - the result carries exactly the urls of the merged list;
      - the document kept for a url is the last one carrying it;
      - the result lists the urls in order of their first occurrence. */
  lemma DedupSpec(s: seq<Doc>)
    ensures forall i, j :: 0 <= i < j < |Dedup(s)| ==> Dedup(s)[i].url != Dedup(s)[j].url
    ensures Urls(Dedup(s)) == Urls(s)
    ensures forall i :: 0 <= i < |Dedup(s)| ==>
              Dedup(s)[i].url in Urls(s) && Dedup(s)[i] == s[LastAt(s, Dedup(s)[i].url)]
    ensures forall i, j :: 0 <= i < j < |Dedup(s)| ==>
              Dedup(s)[i].url in Urls(s) && Dedup(s)[j].url in Urls(s) &&
              FirstAt(s, Dedup(s)[i].url) < FirstAt(s, Dedup(s)[j].url)
  {
    var d, r := Index(s), Dedup(s);
    IndexOrder(s);
    forall i | 0 <= i < |r| ensures r[i].url in Urls(s) && r[i] == s[LastAt(s, r[i].url)] {
      DedupAt(s, i);
    }
    forall i, j | 0 <= i < j < |r|
      ensures r[i].url in Urls(s) && r[j].url in Urls(s) && FirstAt(s, r[i].url) < FirstAt(s, r[j].url)
    {
      DedupAt(s, i);
      DedupAt(s, j);
    }
    forall u ensures u in Urls(r) <==> u in Urls(s) {
      UrlsIff(r, u);
      if u in Urls(s) {
        IndexKeys(s);
        var k :| 0 <= k < |d.keys| && d.keys[k] == u;
        DedupAt(s, k);
      }
    }
  }

  /** A list whose urls are already distinct is left as it is. */
  /** Storing a new url appends its document to the dict's values. */
  lemma ValuesOfNewKey(d: UrlDict, x: Doc)
    requires KeysHaveEntries(d) && x.url !in d.entries
    ensures KeysHaveEntries(Store(d, x))
    ensures Values(Store(d, x)) == Values(d) + [x]
  {
    var d' := Store(d, x);
    assert d' == UrlDict(d.keys + [x.url], d.entries[x.url := x]);
    forall k | 0 <= k < |d.keys| ensures Values(d')[k] == Values(d)[k] {
      assert d.keys[k] != x.url;
    }
  }

  lemma {:induction false} DedupOfDistinct(s: seq<Doc>)
    requires forall i, j :: 0 <= i < j < |s| ==> s[i].url != s[j].url
    ensures Dedup(s) == s
    decreases |s|
  {
    if s != [] {
      var p, x := s[..|s| - 1], s[|s| - 1];
      DedupOfDistinct(p);
      IndexKeys(p);
      assert x.url !in Index(p).entries by {
        UrlsIff(p, x.url);
      }
      ValuesOfNewKey(Index(p), x);
      assert s == p + [x];
    }
  }

  /** Deduplication never adds documents. */
  lemma {:induction false} DedupShorter(s: seq<Doc>)
    ensures |Dedup(s)| <= |s|
    decreases |s|
  {
    if s != [] {
      DedupShorter(s[..|s| - 1]);
    }
  }

  /** Deduplicating twice is deduplicating once. */
  lemma DedupIdempotent(s: seq<Doc>)
    ensures Dedup(Dedup(s)) == Dedup(s)
  {
    DedupSpec(s);
    DedupOfDistinct(Dedup(s));
  }
}
