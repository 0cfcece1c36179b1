/** The research pipeline of backend/agent.py: decompose the user's question
    into at most three sub-questions, search each, merge and deduplicate the
    documents by url, rank them and render the seven longest into a numbered
    context for the answer prompt. The text generator is a function parameter;
    its failure shows up as the empty string it returns. */
module Agent {
  import opened Text
  import opened Search
  import opened Merge
  import opened Ranking

  /** The most sub-questions a decomposition keeps. */
  const MaxSubQuestions: nat := 3
  /** The most content characters of one document put in the context. */
  const MaxContentChars: nat := 4000
  /** The answer given when no document was found. */
  const NoSourcesAnswer: string := "I couldn't find any relevant sources."

  /** The agent: its text generator and its search client. */
  datatype ResearchAgent = ResearchAgent(generate: string -> string, searchClient: Client)

  /** What `research` returns. */
  datatype ResearchResult = ResearchResult(answer: string, sources: seq<Doc>)

  // ------------------------------------------------------------ prompts

  // The wording of the two prompts is not modelled; only where the query
  // and the context sit in them.
  const DecompositionLead: string := "Break the user question into 3 distinct sub-questions, one per line.\nUser Question: "
  const DecompositionTail: string := "\nReturn only the sub-questions."
  const SynthesisLead: string := "Answer the user question from the sources, citing them as [Source N].\nUser Question: "
  const SynthesisMiddle: string := "\nAvailable Sources:\n"
  const SynthesisTail: string := "\nYour Answer:"

  /** The decomposition prompt embeds the user's question verbatim. */
  function DecompositionPrompt(userQuery: string): (p: string)
    ensures OccursAt(p, userQuery, |DecompositionLead|)
  {
    var p := DecompositionLead + userQuery + DecompositionTail;
    assert p[|DecompositionLead|..|DecompositionLead| + |userQuery|] == userQuery;
    p
  }

  /** The synthesis prompt embeds the user's question and the context verbatim. */
  function SynthesisPrompt(userQuery: string, context: string): (p: string)
    ensures OccursAt(p, userQuery, |SynthesisLead|)
    ensures OccursAt(p, context, |SynthesisLead| + |userQuery| + |SynthesisMiddle|)
  {
    var p := SynthesisLead + userQuery + SynthesisMiddle + context + SynthesisTail;
    var c := |SynthesisLead| + |userQuery| + |SynthesisMiddle|;
    assert p[|SynthesisLead|..|SynthesisLead| + |userQuery|] == userQuery;
    assert p[c..c + |context|] == context;
    p
  }

  // ------------------------------------------------------------ decomposition

  /** `[q.strip() for q in lines if q.strip()]`. */
  function NonBlank(lines: seq<string>): (qs: seq<string>)
    ensures |qs| <= |lines|
    ensures forall k :: 0 <= k < |qs| ==> qs[k] != "" && IsStripped(qs[k])
    decreases |lines|
  {
    if lines == [] then []
    else
      var q := Strip(lines[0]);
      (if q != "" then [q] else []) + NonBlank(lines[1..])
  }

  /** Stripping adds no character, so lines without a line break keep none. */
  lemma {:induction false} NonBlankKeepsNoBreaks(lines: seq<string>)
    requires forall k :: 0 <= k < |lines| ==> '\n' !in lines[k]
    ensures forall k :: 0 <= k < |NonBlank(lines)| ==> '\n' !in NonBlank(lines)[k]
    decreases |lines|
  {
    if lines != [] {
      NonBlankKeepsNoBreaks(lines[1..]);
      var q := Strip(lines[0]);
      assert '\n' !in q;
      assert NonBlank(lines) == (if q != "" then [q] else []) + NonBlank(lines[1..]);
    }
  }

  /** The stripped, non-blank lines of a response, in response order; there
      are none exactly when the response is all whitespace, the empty string of
      a failed generation included. */
  function ResponseLines(response: string): (qs: seq<string>)
    ensures qs == [] <==> AllSpace(response)
  {
    NonBlankEmptyIff(SplitLines(response));
    JoinAllSpaceIff(SplitLines(response));
    JoinOfSplit(response);
    NonBlank(SplitLines(response))
  }

  /** `_decompose_query`: the first three stripped non-blank lines of the
      generator's answer, or the user's question alone if there are none. */
  function Decompose(generate: string -> string, userQuery: string): (qs: seq<string>)
    ensures 1 <= |qs| <= MaxSubQuestions
  {
    var queries := ResponseLines(generate(DecompositionPrompt(userQuery)));
    if queries == [] then [userQuery] else queries[..Min(MaxSubQuestions, |queries|)]
  }

  /** Every line is whitespace only. */
  predicate BlankLines(lines: seq<string>)
    decreases |lines|
  {
    lines == [] || (AllSpace(lines[0]) && BlankLines(lines[1..]))
  }

  lemma {:induction false} NonBlankEmptyIff(lines: seq<string>)
    ensures NonBlank(lines) == [] <==> BlankLines(lines)
    decreases |lines|
  {
    if lines != [] {
      var q, rest := Strip(lines[0]), NonBlank(lines[1..]);
      NonBlankEmptyIff(lines[1..]);
      assert NonBlank(lines) == (if q != "" then [q] else []) + rest;
    }
  }

  lemma {:induction false} JoinAllSpaceIff(ls: seq<string>)
    requires |ls| >= 1
    ensures AllSpace(JoinLines(ls)) <==> BlankLines(ls)
    decreases |ls|
  {
    if |ls| == 1 {
      assert BlankLines(ls[1..]);
    } else {
      JoinAllSpaceIff(ls[1..]);
      var a, b := ls[0], JoinLines(ls[1..]);
      var j := a + "\n" + b;
      assert JoinLines(ls) == j;
      assert forall k :: 0 <= k < |a| ==> j[k] == a[k];
      assert forall k :: 0 <= k < |b| ==> j[|a| + 1 + k] == b[k];
      if AllSpace(a) && AllSpace(b) {
        forall k | 0 <= k < |j| ensures IsSpace(j[k]) {
          if k < |a| { } else if k == |a| { } else { assert j[k] == b[k - |a| - 1]; }
        }
      }
    }
  }

  /** A blank response (or the empty string a failed generation returns) falls
      back to the user's question alone. */
  lemma DecomposeFallback(generate: string -> string, userQuery: string)
    requires AllSpace(generate(DecompositionPrompt(userQuery)))
    ensures Decompose(generate, userQuery) == [userQuery]
  {
  }

  /** With a usable response, the sub-questions are its first three usable
      lines, in response order: each non-empty, stripped, without a line break. */
  lemma DecomposeLines(generate: string -> string, userQuery: string)
    requires !AllSpace(generate(DecompositionPrompt(userQuery)))
    ensures var qs := Decompose(generate, userQuery);
            var lines := ResponseLines(generate(DecompositionPrompt(userQuery)));
            && |qs| == Min(MaxSubQuestions, |lines|)
            && qs <= lines
            && forall k :: 0 <= k < |qs| ==> qs[k] != "" && IsStripped(qs[k]) && '\n' !in qs[k]
  {
    NonBlankKeepsNoBreaks(SplitLines(generate(DecompositionPrompt(userQuery))));
  }

  lemma {:induction false} NonBlankOfClean(qs: seq<string>)
    requires forall k :: 0 <= k < |qs| ==> qs[k] != "" && IsStripped(qs[k])
    ensures NonBlank(qs) == qs
    decreases |qs|
  {
    if qs != [] {
      StripOfStripped(qs[0]);
      NonBlankOfClean(qs[1..]);
      assert [qs[0]] + qs[1..] == qs;
    }
  }

  lemma Regroup(x: seq<string>, y: seq<string>, z: seq<string>)
    ensures x + (y + z) == (x + y) + z
  {
  }

  /** The first line is filtered on its own, ahead of the rest. */
  lemma NonBlankCons(l: string, rest: seq<string>)
    ensures NonBlank([l] + rest) == NonBlank([l]) + NonBlank(rest)
  {
    assert ([l] + rest)[0] == l && ([l] + rest)[1..] == rest && [l][1..] == [];
  }

  /** The filter works line by line: the kept lines of `a + b` are those of `a`
      followed by those of `b`. */
  lemma {:induction false} NonBlankAppend(a: seq<string>, b: seq<string>)
    ensures NonBlank(a + b) == NonBlank(a) + NonBlank(b)
    decreases |a|
  {
    if a == [] {
      assert a + b == b;
    } else {
      var l, rest := a[0], a[1..];
      assert NonBlank(a + b) == NonBlank([l]) + NonBlank(rest + b) by {
        assert a + b == [l] + (rest + b);
        NonBlankCons(l, rest + b);
      }
      assert NonBlank(a) == NonBlank([l]) + NonBlank(rest) by {
        assert a == [l] + rest;
        NonBlankCons(l, rest);
      }
      NonBlankAppend(rest, b);
      Regroup(NonBlank([l]), NonBlank(rest), NonBlank(b));
    }
  }

  /** One line contributes nothing when it is blank and its stripped form otherwise. */
  lemma NonBlankSingle(l: string)
    ensures NonBlank([l]) == if AllSpace(l) then [] else [Strip(l)]
  {
    assert [l][1..] == [];
  }

  /** `"  a ".strip()` is `"a"`. */
  lemma StripExampleA()
    ensures Strip("  a ") == "a"
  {
    assert TextStart("a ") == 0;
    assert " a "[1..] == "a ";
    assert TextStart(" a ") == 1;
    assert "  a "[1..] == " a ";
    assert TextStart("  a ") == 2;
    assert "  a "[..3] == "  a";
    assert TextEnd("  a ") == 3;
    assert "  a "[2..3] == "a";
  }

  /** `" b\t".strip()` is `"b"`. */
  lemma StripExampleB()
    ensures Strip(" b\t") == "b"
  {
    assert " b\t"[1..] == "b\t";
    assert TextStart(" b\t") == 1;
    assert " b\t"[..2] == " b";
    assert TextEnd(" b\t") == 2;
    assert " b\t"[1..2] == "b";
  }

  /** The padded example response splits into its three lines. */
  lemma SplitExample()
    ensures SplitLines("  a \n\n b\t") == ["  a ", "", " b\t"]
  {
    var ls := ["  a ", "", " b\t"];
    assert ls[1..] == ["", " b\t"] && ls[1..][1..] == [" b\t"];
    assert JoinLines(ls) == "  a \n\n b\t";
    SplitOfJoin(ls);
  }

  /** The three example lines keep `"a"` and `"b"`. */
  lemma NonBlankExample()
    ensures NonBlank(["  a ", "", " b\t"]) == ["a", "b"]
  {
    var ls := ["  a ", "", " b\t"];
    StripExampleA();
    StripExampleB();
    assert Strip("") == "";
    assert ls[1..] == ["", " b\t"] && ls[1..][1..] == [" b\t"] && ls[1..][1..][1..] == [];
    assert NonBlank([" b\t"]) == ["b"];
    assert NonBlank(["", " b\t"]) == ["b"];
  }

  /** A response with padded and blank lines: `"  a \n\n b\t"` gives `["a", "b"]`. */
  lemma ResponseLinesExample()
    ensures ResponseLines("  a \n\n b\t") == ["a", "b"]
  {
    SplitExample();
    NonBlankExample();
  }

  /** Sub-questions as a well-behaved generator writes them: each non-empty,
      without outer whitespace and on a line of its own. */
  predicate CleanLines(qs: seq<string>) {
    forall k :: 0 <= k < |qs| ==> qs[k] != "" && IsStripped(qs[k]) && '\n' !in qs[k]
  }

  /** Clean lines joined by line breaks read back as themselves. */
  lemma ResponseLinesOfJoin(qs: seq<string>)
    requires |qs| >= 1
    requires CleanLines(qs)
    ensures ResponseLines(JoinLines(qs)) == qs
  {
    SplitOfJoin(qs);
    NonBlankOfClean(qs);
  }

  /** A response whose usable lines are `qs` gives their first three. */
  lemma DecomposeOfLines(generate: string -> string, userQuery: string, qs: seq<string>)
    requires qs != [] && ResponseLines(generate(DecompositionPrompt(userQuery))) == qs
    ensures Decompose(generate, userQuery) == qs[..Min(MaxSubQuestions, |qs|)]
  {
  }

  /** A generator that answers with clean sub-questions, one per line, gets
      back the first three of them. */
  lemma DecomposeRoundTrip(generate: string -> string, userQuery: string, qs: seq<string>)
    requires |qs| >= 1
    requires CleanLines(qs)
    requires generate(DecompositionPrompt(userQuery)) == JoinLines(qs)
    ensures Decompose(generate, userQuery) == qs[..Min(MaxSubQuestions, |qs|)]
  {
    ResponseLinesOfJoin(qs);
    DecomposeOfLines(generate, userQuery, qs);
  }

  // ------------------------------------------------------------ context

  /** `content[:n]`. */
  function Clip(content: string, n: nat): (r: string)
    ensures |r| == Min(n, |content|)
    ensures r <= content
  {
    content[..Min(n, |content|)]
  }

  /** The block for the `n`-th ranked source. */
  function Block(n: nat, d: Doc): (b: string)
    ensures "Source " + NatToString(n) + ": " <= b
    ensures |b| >= 2 && b[|b| - 2..] == "\n\n"
  {
    "Source " + NatToString(n) + ": " + d.title + "\nURL: " + d.url
    + "\nContent: " + Clip(d.content, MaxContentChars) + "\n\n"
  }

  /** The blocks of `docs`, numbered from 1, one after the other. */
  function Context(docs: seq<Doc>): (c: string)
    ensures c == "" <==> docs == []
    decreases |docs|
  {
    if docs == [] then "" else Context(docs[..|docs| - 1]) + Block(|docs|, docs[|docs| - 1])
  }

  /** The context of the first documents is the start of the whole context. */
  lemma {:induction false} ContextPrefix(docs: seq<Doc>, i: nat)
    requires i <= |docs|
    ensures Context(docs[..i]) <= Context(docs)
    decreases |docs| - i
  {
    if i < |docs| {
      ContextPrefix(docs, i + 1);
      assert docs[..i + 1][..i] == docs[..i];
    } else {
      assert docs[..i] == docs;
    }
  }

  /** Rendering one more document appends its block. */
  lemma ContextSnoc(docs: seq<Doc>, i: nat)
    requires i < |docs|
    ensures Context(docs[..i + 1]) == Context(docs[..i]) + Block(i + 1, docs[i])
  {
    assert docs[..i + 1][..i] == docs[..i] && docs[..i + 1][i] == docs[i];
  }

  /** Text that follows a prefix of `whole` occurs in `whole` right after it. */
  lemma OccursAfterPrefix(whole: string, before: string, b: string)
    requires before + b <= whole
    ensures OccursAt(whole, b, |before|)
  {
    assert whole[|before|..|before| + |b|] == (before + b)[|before|..];
  }

  /** Source `i + 1` of the context is the block of the `i`-th document: the
      numbering that `[Source N]` citations refer to. */
  lemma ContextHoldsBlock(docs: seq<Doc>, i: nat)
    requires i < |docs|
    ensures OccursAt(Context(docs), Block(i + 1, docs[i]), |Context(docs[..i])|)
  {
    ContextPrefix(docs, i + 1);
    ContextSnoc(docs, i);
    OccursAfterPrefix(Context(docs), Context(docs[..i]), Block(i + 1, docs[i]));
  }

  /** The rendering loop of `_synthesize_answer` over the first seven sorted
      results. */
  method BuildContext(sortedResults: seq<Doc>) returns (context: string)
    ensures context == Context(sortedResults[..Min(MaxSources, |sortedResults|)])
    ensures context == "" <==> sortedResults == []
  {
    var top := sortedResults[..Min(MaxSources, |sortedResults|)];
    context := "";
    for i := 0 to |top|
      invariant context == Context(top[..i])
    {
      var result := top[i];
      var content := result.content[..Min(MaxContentChars, |result.content|)];
      var block := "Source " + NatToString(i + 1) + ": " + result.title + "\nURL: " + result.url
                   + "\nContent: " + content + "\n\n";
      assert block == Block(i + 1, top[i]);
      assert top[..i + 1][..i] == top[..i];
      assert Context(top[..i + 1]) == Context(top[..i]) + block;
      context := context + block;
    }
    assert top[..|top|] == top;
    if top != [] {
      ContextPrefix(top, 1);
      assert top[..1][..0] == [];
      assert |Context(top[..1])| > 0;
    }
  }

  // ------------------------------------------------------------ synthesis

  /** The answer `_synthesize_answer` gives: the fixed reply without sources,
      otherwise the generator's text for the prompt over the top-seven context. */
  function SynthesizedAnswer(generate: string -> string, userQuery: string, docs: seq<Doc>): (a: string)
    ensures docs == [] ==> a == NoSourcesAnswer
    ensures docs != [] ==> a == generate(SynthesisPrompt(userQuery, Context(TopSources(docs))))
  {
    if docs == [] then NoSourcesAnswer
    else generate(SynthesisPrompt(userQuery, Context(TopSources(docs))))
  }

  /** `_synthesize_answer`. Without documents the generator is never consulted. */
  method Synthesize(generate: string -> string, userQuery: string, searchResults: seq<Doc>) returns (answer: string)
    ensures searchResults == [] ==> answer == NoSourcesAnswer
    ensures searchResults != [] ==>
              answer == generate(SynthesisPrompt(userQuery, Context(TopSources(searchResults))))
    ensures answer == SynthesizedAnswer(generate, userQuery, searchResults)
  {
    if searchResults == [] {
      return NoSourcesAnswer;
    }
    var sortedResults := SortByDepth(searchResults);
    var context := BuildContext(sortedResults);
    answer := generate(SynthesisPrompt(userQuery, context));
  }

  // ------------------------------------------------------------ research

  /** One search per sub-question, with the default limit, results in
      sub-question order (the order `asyncio.gather` keeps). */
  function Retrieve(c: Client, searchQueries: seq<string>): (lists: seq<seq<Doc>>)
    ensures |lists| == |searchQueries|
  {
    seq(|searchQueries|, k requires 0 <= k < |searchQueries| => Search.Search(c, searchQueries[k], DefaultMaxResults))
  }

  /** `research`: the sources are the deduplicated merge of the per-sub-question
      results, each url once, and the answer is the synthesis over exactly those
      sources. */
  method Research(agent: ResearchAgent, userQuery: string) returns (result: ResearchResult)
    ensures var merged := Flatten(Retrieve(agent.searchClient, Decompose(agent.generate, userQuery)));
            && result.sources == Dedup(merged)
            && Urls(result.sources) == Urls(merged)
            && |result.sources| <= |merged|
    ensures forall i, j :: 0 <= i < j < |result.sources| ==> result.sources[i].url != result.sources[j].url
    ensures result.answer == SynthesizedAnswer(agent.generate, userQuery, result.sources)
    ensures result.sources == [] ==> result.answer == NoSourcesAnswer
  {
    var searchQueries := Decompose(agent.generate, userQuery);
    var resultsList := Retrieve(agent.searchClient, searchQueries);
    var searchResults := Flatten(resultsList);
    var uniqueResults := Dedup(searchResults);
    DedupSpec(searchResults);
    DedupShorter(searchResults);
    var answer := Synthesize(agent.generate, userQuery, uniqueResults);
    result := ResearchResult(answer, uniqueResults);
  }

  /** When every search comes back empty, there are no sources and the answer
      is the fixed reply. */
  lemma NothingFoundAnswer(generate: string -> string, userQuery: string, lists: seq<seq<Doc>>)
    requires forall k :: 0 <= k < |lists| ==> lists[k] == []
    ensures Dedup(Flatten(lists)) == []
    ensures SynthesizedAnswer(generate, userQuery, Dedup(Flatten(lists))) == NoSourcesAnswer
  {
    FlattenOfEmpties(lists);
    assert Index([]) == UrlDict([], map[]);
  }
}
