# Research assistant pipeline, modelled in Dafny

This project models the research pipeline of the research-assistant backend.
`ResearchAgent.research` takes one user question and answers it in four steps:

1. It asks a text generator for at most three sub-questions.
2. It searches each sub-question through the Tavily search client.
3. It merges the result lists and deduplicates the documents by url.
4. It ranks the documents by content length, longest first, and renders the
   top seven into a numbered "Source N" context. The generator then writes the
   answer from that context.

It also models the search client: the routing of a query to page extraction,
site mapping or plain web search, the fixed result limits, the formatting of
provider records into documents `{url, title, content}`, and the rule that a
failing provider call gives no documents.

Files (one module each):

- `wrappers.dfy`: `Option` and `Result`.
- `text.dfy`: the parts of Python's `str` that the pipeline uses, on ASCII:
  `strip()`, `lower()`, substring `in`, `split('\n')` and `str(n)`.
- `search.dfy`: `backend/search.py`.
- `merge.dfy`: the flatten and the url-keyed dict of `research`.
- `ranking.dfy`: the stable sort by content length and the top-seven cut.
- `agent.dfy`: decomposition, context rendering, synthesis and `research`.

The text generator is a function parameter `generate: string -> string`. A
failed generation is the empty string it returns. The provider SDK
(`Provider.search`, `Provider.extract`) and the URL pattern search
(`Client.findUrls`) are function-typed fields of the search client. A provider
call that raises is the `Raised` response. The concurrent fan-out over
sub-questions is a sequence comprehension: `asyncio.gather` returns results in
task order, and that order is all the pipeline depends on.

The two `for ... append` loops of the search client and the context-rendering
loop of `_synthesize_answer` are methods (`Search.FormatResults`,
`Search.FormatExtracted`, `Agent.BuildContext`). Each is proved equal to a
function (`SearchDocs`, `ExtractedDocs`, `Context`), and the functions that
cannot call a method (`Search.Search` and its paths, `Agent.SynthesizedAnswer`)
use those. Python's `sorted(..., reverse=True)` is stable, so it is modelled as
a stable insertion sort, longest content first.

Two behaviours of the code are easy to misread, and the model states them as
the code has them:

- The url dict comprehension keeps each url at the position where it first
  appears, but stores with it the last document seen with that url.
  `Merge.DedupSpec` states exactly this.
- The answer is the generator's text verbatim. When generation fails that text
  is the empty string, so the answer can be empty. `Agent.Synthesize` states
  what the code does.

## Model

| member | source | states |
|---|---|---|
| `Text.Strip` | backend/agent.py:55 | `q.strip()`: the result has no whitespace at either end; it is empty exactly when the line is all whitespace; it contains only characters of the line |
| `Text.StripRemovesOuterSpace` | backend/agent.py:55 | the stripped line occurs in the line, with only whitespace before and after it |
| `Text.StripOfStripped` | backend/agent.py:55 | stripping a line with no whitespace at either end leaves it unchanged |
| `Text.SplitLines` | backend/agent.py:55 | `response.split('\n')` gives at least one piece, and no piece contains a line break |
| `Text.JoinOfSplit` | backend/agent.py:55 | joining the pieces of the split with line breaks gives back the response |
| `Text.SplitOfJoin` | backend/agent.py:55 | splitting the join of line-break-free pieces gives back the pieces |
| `Text.Lower` | backend/search.py:19-22 | `query.lower()` keeps the length of the query |
| `Text.LowerIdempotent` | backend/search.py:19-22 | lowering a lowered query changes nothing |
| `Text.ContainsIff` | backend/search.py:19-22 | the substring test `t in s` holds exactly when `t` occurs at some position of `s` |
| `Text.NatToString` | backend/agent.py:73 | the `{i+1}` of a block label is a non-empty run of decimal digits with no leading zero |
| `Text.ParseOfNatToString` | backend/agent.py:73 | the label's digits read back as the source number |
| `Search.NewClient` | backend/search.py:9-13 | construction fails with the missing-key error exactly when the API key is unset or empty; otherwise the client is connected with that key |
| `Search.RouteOf` | backend/search.py:15-25 | a query whose lower-case form has "http" or "www." goes to extraction; otherwise one with "site:" or "website" goes to the map path; otherwise plain search; the URL test comes first |
| `Search.RouteIgnoresCase` | backend/search.py:19-22 | a query and its lower-case form take the same path |
| `Search.HttpRoutesToExtract` | backend/search.py:19-20 | "http" in any letter case anywhere in the query sends it to extraction, even when it also names a site |
| `Search.FormatResults` | backend/search.py:81-89 | one document per record, in order; url, title and content each come from the record, or are "" when the record has no such key |
| `Search.FormatExtracted` | backend/search.py:60-69 | one document per record, in order; url defaults to "", title to "Extracted Content"; content is `raw_content` if present, else `content`, else "" |
| `Search.LimitOnlyOnPlainPath` | backend/search.py:75-79 | the map path searches with 5 whatever the caller asked; so does the extract path when the query holds no URL; only plain search passes the caller's limit on |
| `Search.UseSearch` | backend/search.py:27-46 | a raised search gives `[]`; a returned one gives one document per record of its 'results' entry, in order |
| `Search.UseExtract` | backend/search.py:48-73 | with no URL found in the query it is a plain search with limit 5; otherwise a raised extract gives `[]` and a returned one gives one extracted document per record, in order |
| `Search.UseMap` | backend/search.py:75-79 | the map path gives what the extract path gives for a query with no URL in it; a raised search gives `[]` |
| `Search.Search` | backend/search.py:15-25 | plain search passes the caller's limit to the provider; the map path and the extract path without a URL search with limit 5 |
| `Search.ProviderFailureGivesNoDocs` | backend/search.py:27-79 | a provider search or extract call that raises gives `[]` for the query on every path, including the map path and the fallback search of the extract path |
| `Search.ResponseGivesItsRecords` | backend/search.py:27-79 | on every path a successful call gives exactly its records, formatted in order, including the map path and the fallback search of the extract path; a response without a 'results' entry gives `[]` |
| `Merge.Flatten` | backend/agent.py:21 | a document is in the merged list exactly when it is in one of the result lists |
| `Merge.FlattenLength` | backend/agent.py:21 | the merged list has as many documents as all result lists together |
| `Merge.FlattenAppend` | backend/agent.py:21 | merging keeps sub-question order and in-list order |
| `Merge.FlattenOfEmpties` | backend/agent.py:21 | empty result lists merge to the empty list |
| `Merge.UrlsIff` | backend/agent.py:24 | a url is among the urls of a list exactly when some document of the list carries it |
| `Merge.FirstAt` | backend/agent.py:24 | the position of the first document with a url: it carries the url, and no earlier document does |
| `Merge.LastAt` | backend/agent.py:24 | the position of the last document with a url: it carries the url, and no later document does |
| `Merge.Index` | backend/agent.py:24 | every key in the dict's insertion order has an entry |
| `Merge.IndexKeys` | backend/agent.py:24 | the dict's keys are the urls of the merged list, each in the insertion order |
| `Merge.IndexValues` | backend/agent.py:24 | the dict stores each url with the last document that carries it |
| `Merge.IndexOrder` | backend/agent.py:24 | the dict's insertion order is the order of each url's first occurrence |
| `Merge.Dedup` | backend/agent.py:24 | every kept document is one of the merged documents |
| `Merge.DedupSpec` | backend/agent.py:24 | deduplicated urls are pairwise distinct and are exactly the merged urls; each kept document is the last with its url; urls appear in order of first occurrence |
| `Merge.DedupOfDistinct` | backend/agent.py:24 | a list whose urls are already distinct comes through unchanged |
| `Merge.DedupIdempotent` | backend/agent.py:24 | deduplicating twice is the same as deduplicating once |
| `Merge.DedupShorter` | backend/agent.py:24 | deduplication never adds documents |
| `Ranking.InsertByDepth` | backend/agent.py:66 | inserting into a list sorted longest-first keeps it sorted and adds exactly the one document |
| `Ranking.SortByDepth` | backend/agent.py:66 | the sorted list is a permutation of the input (same length, same multiset), with content lengths non-increasing |
| `Ranking.SortIsStable` | backend/agent.py:66 | documents whose content has the same length keep their input order |
| `Ranking.TopSources` | backend/agent.py:66-69 | at most seven documents are kept, and none only when there are no documents |
| `Ranking.TopSourcesAreRanked` | backend/agent.py:69 | `sorted_results[:7]` keeps min(7, n) of the input's documents, longest first |
| `Ranking.TopSourcesAreLongest` | backend/agent.py:66-69 | no document left out of the top seven has longer content than one kept |
| `Agent.DecompositionPrompt` | backend/agent.py:37-53 | the decomposition prompt embeds the user's question verbatim |
| `Agent.SynthesisPrompt` | backend/agent.py:75-90 | the synthesis prompt embeds the user's question and the context verbatim |
| `Agent.NonBlank` | backend/agent.py:55 | the kept lines are non-empty and stripped, and are no more than the input lines |
| `Agent.NonBlankAppend` | backend/agent.py:55 | the filter works line by line: the kept lines of two runs of lines are those of the first followed by those of the second |
| `Agent.NonBlankSingle` | backend/agent.py:55 | a blank line contributes nothing and any other line contributes its stripped form |
| `Agent.NonBlankKeepsNoBreaks` | backend/agent.py:55 | kept lines hold no line break when the input lines hold none |
| `Agent.ResponseLines` | backend/agent.py:55-57 | a response has no usable line exactly when it is all whitespace, the empty string included |
| `Agent.ResponseLinesExample` | backend/agent.py:55 | the response `"  a \n\n b\t"` gives the sub-questions `["a", "b"]` |
| `Agent.Decompose` | backend/agent.py:34-59 | decomposition gives between one and three sub-questions |
| `Agent.DecomposeFallback` | backend/agent.py:57-58 | a blank response, including the "" of a failed generation, gives exactly `[user_query]` |
| `Agent.DecomposeLines` | backend/agent.py:55-59 | otherwise the sub-questions are the first min(3, n) usable lines in response order, each non-empty, stripped and free of line breaks |
| `Agent.DecomposeRoundTrip` | backend/agent.py:54-59 | a generator that answers with clean sub-questions one per line gets back the first three of them |
| `Agent.Clip` | backend/agent.py:72 | `content[:4000]` is the first min(4000, length) characters of the content |
| `Agent.Block` | backend/agent.py:73 | a block starts with its "Source N: " label and ends with a blank line |
| `Agent.Context` | backend/agent.py:68-73 | the context is empty exactly when there are no documents |
| `Agent.ContextPrefix` | backend/agent.py:68-73 | the context is built by appending: the blocks of the first documents are the start of the whole context |
| `Agent.ContextHoldsBlock` | backend/agent.py:73 | block "Source i+1" renders the i-th ranked document and sits right after the blocks before it |
| `Agent.BuildContext` | backend/agent.py:68-73 | the rendering loop over the first seven sorted results yields their numbered blocks in order; it is empty exactly when there are no results |
| `Agent.SynthesizedAnswer` | backend/agent.py:61-93 | with no documents the answer is the fixed reply; otherwise it is the generator's text for the prompt over the context of the top seven |
| `Agent.Synthesize` | backend/agent.py:61-93 | with no documents the answer is "I couldn't find any relevant sources." and the generator is not consulted; otherwise it is the generator's text for the prompt over the top-seven context |
| `Agent.Retrieve` | backend/agent.py:17-18 | one result list per sub-question, in sub-question order |
| `Agent.Research` | backend/agent.py:10-32 | the sources are the deduplicated merge of the per-sub-question results, with distinct urls and the same url set; the answer is the synthesis over exactly those sources |
| `Agent.NothingFoundAnswer` | backend/agent.py:62-63 | when every search comes back empty there are no sources and the answer is the fixed reply |

## Left out

- The Tavily SDK and the OpenAI/OpenRouter client are not modelled. They are foreign network libraries. They appear as function-typed fields and parameters, and the model uses only their failure contracts (`Raised` becomes `[]`, failed generation is `""`).
- The URL regular expression of `_use_extract` is not modelled. It is the uninterpreted `Client.findUrls`.
- `asyncio.gather` and `asyncio.to_thread` are not modelled. Only the order of results matters, and it is modelled.
- The wording of the two prompts is left out. Only the places of the question and the context in them are kept.
- Python's Unicode `lower()` and `strip()` are left out. The model lowers ASCII letters only and strips the ASCII characters that `str.isspace()` accepts.
- Dictionary values that are not strings are left out. This includes a `None` content from the generator or a provider. Records are maps from string to string.
- `print` logging is left out.
- Construction of the text-generation client (backend/llm.py) is not part of this model. The agent is given its generator.
- The HTTP layer (backend/main.py), the React front end and the live-API test scripts are not part of this model.
- Agent.Synthesize: the generator is a deterministic function here, so the promise that the generator is not called without documents is stated as the answer not depending on it.
