/** The document-retrieval client of backend/search.py: it routes a query to
    content extraction, site mapping or plain web search, and turns the
    provider's raw records into documents `{url, title, content}`. The provider
    SDK and the URL pattern search are fields of `Client`, left uninterpreted. */
module Search {
  import opened Wrappers
  import opened Text

  /** A retrieved document. */
  datatype Doc = Doc(url: string, title: string, content: string)

  /** A raw provider record: a Python dict with string keys and values. */
  type Record = map<string, string>

  /** What one provider call gives back: it raised, or it returned a response
      whose 'results' entry may be missing. */
  datatype Response = Raised | Returned(results: Option<seq<Record>>)

  /** The two calls the client makes on the provider SDK. */
  datatype Provider = Provider(search: (string, int) -> Response, extract: seq<string> -> Response)

  /** A configured search client: the provider connection, and the `re.findall`
      of the URL pattern over a query. */
  datatype Client = Client(provider: Provider, findUrls: string -> seq<string>)

  /** The limit used when no caller limit applies. */
  const DefaultMaxResults: int := 5
  /** The title given to an extracted page that has none. */
  const ExtractedTitle: string := "Extracted Content"
  const MissingKeyError: string := "TAVILY_API_KEY environment variable not set"

  /** Python's `record.get(key, default)`. */
  function Get(record: Record, key: string, default: string): string {
    if key in record then record[key] else default
  }

  // ------------------------------------------------------------ construction

  /** Building the client from the environment: an unset or empty API key is an error. */
  function NewClient(apiKey: Option<string>, connect: string -> Provider,
                     findUrls: string -> seq<string>): (r: Result<Client, string>)
    ensures r.Failure? <==> apiKey == None || apiKey == Some("")
    ensures r.Failure? ==> r.error == MissingKeyError
    ensures r.Success? ==> r.value.provider == connect(apiKey.value) && r.value.findUrls == findUrls
  {
    match apiKey
    case None => Failure(MissingKeyError)
    case Some(key) => if key == "" then Failure(MissingKeyError) else Success(Client(connect(key), findUrls))
  }

  // ------------------------------------------------------------ routing

  datatype Route = ExtractRoute | MapRoute | SearchRoute

  /** The query names a page: its lower-case form contains "http" or "www.". */
  predicate NamesUrl(query: string) {
    Contains(Lower(query), "http") || Contains(Lower(query), "www.")
  }

  /** The query is about one website: its lower-case form contains "site:" or "website". */
  predicate NamesSite(query: string) {
    Contains(Lower(query), "site:") || Contains(Lower(query), "website")
  }

  /** The branch `search` takes for a query; the URL test is tried first. */
  function RouteOf(query: string): (r: Route)
    ensures r == ExtractRoute <==> NamesUrl(query)
    ensures r == MapRoute <==> !NamesUrl(query) && NamesSite(query)
    ensures r == SearchRoute <==> !NamesUrl(query) && !NamesSite(query)
  {
    if NamesUrl(query) then ExtractRoute
    else if NamesSite(query) then MapRoute
    else SearchRoute
  }

  /** Routing looks only at the lower-case form of the query. */
  lemma RouteIgnoresCase(query: string)
    ensures RouteOf(Lower(query)) == RouteOf(query)
  {
    LowerIdempotent(query);
  }

  /** A query holding "http" in any letter case at position `i` goes to extraction,
      whatever else it holds. */
  lemma {:induction false} HttpRoutesToExtract(query: string, i: nat)
    requires i + 4 <= |query|
    requires Lower(query[i..i + 4]) == "http"
    ensures RouteOf(query) == ExtractRoute
  {
    LowerSlice(query, i, i + 4);
    assert OccursAt(Lower(query), "http", i);
    ContainsIff(Lower(query), "http");
  }

  // ------------------------------------------------------------ formatting

  /** The document `_format_results` makes of one search record. */
  function SearchDoc(record: Record): Doc {
    Doc(Get(record, "url", ""), Get(record, "title", ""), Get(record, "content", ""))
  }

  /** The document the extract path makes of one extracted record: the raw page
      text is preferred to the summary. */
  function ExtractedDoc(record: Record): Doc {
    Doc(Get(record, "url", ""), Get(record, "title", ExtractedTitle),
        Get(record, "raw_content", Get(record, "content", "")))
  }

  /** The records of a search response, formatted one by one in order. */
  function SearchDocs(records: seq<Record>): (docs: seq<Doc>) {
    seq(|records|, k requires 0 <= k < |records| => SearchDoc(records[k]))
  }

  /** The records of an extract response, formatted one by one in order. */
  function ExtractedDocs(records: seq<Record>): (docs: seq<Doc>) {
    seq(|records|, k requires 0 <= k < |records| => ExtractedDoc(records[k]))
  }

  /** `_format_results`: one document per record, in order; each field is the
      record's entry for it, or "" when the record has none. */
  method FormatResults(results: seq<Record>) returns (formatted: seq<Doc>)
    ensures |formatted| == |results|
    ensures forall k :: 0 <= k < |results| ==>
      && (formatted[k].url == if "url" in results[k] then results[k]["url"] else "")
      && (formatted[k].title == if "title" in results[k] then results[k]["title"] else "")
      && (formatted[k].content == if "content" in results[k] then results[k]["content"] else "")
    ensures formatted == SearchDocs(results)
  {
    formatted := [];
    for i := 0 to |results|
      invariant |formatted| == i
      invariant forall k :: 0 <= k < i ==> formatted[k] == SearchDoc(results[k])
    {
      var result := results[i];
      formatted := formatted + [Doc(Get(result, "url", ""), Get(result, "title", ""), Get(result, "content", ""))];
    }
  }

  /** The formatting loop of `_use_extract`: one document per record, in order;
      the url defaults to "", the title to "Extracted Content", and the content
      is the raw page text if present, else the summary, else "". */
  method FormatExtracted(results: seq<Record>) returns (formatted: seq<Doc>)
    ensures |formatted| == |results|
    ensures forall k :: 0 <= k < |results| ==>
      && (formatted[k].url == if "url" in results[k] then results[k]["url"] else "")
      && (formatted[k].title == if "title" in results[k] then results[k]["title"] else ExtractedTitle)
      && (formatted[k].content ==
            if "raw_content" in results[k] then results[k]["raw_content"]
            else if "content" in results[k] then results[k]["content"]
            else "")
    ensures formatted == ExtractedDocs(results)
  {
    formatted := [];
    for i := 0 to |results|
      invariant |formatted| == i
      invariant forall k :: 0 <= k < i ==> formatted[k] == ExtractedDoc(results[k])
    {
      var result := results[i];
      formatted := formatted + [Doc(Get(result, "url", ""), Get(result, "title", ExtractedTitle),
                                    Get(result, "raw_content", Get(result, "content", "")))];
    }
  }

  // ------------------------------------------------------------ the three paths

  /** `_use_search`: one provider search; a raised call gives no documents,
      a returned one gives one document per record, in record order. */
  function UseSearch(c: Client, query: string, maxResults: int): (r: seq<Doc>)
    ensures c.provider.search(query, maxResults) == Raised ==> r == []
    ensures c.provider.search(query, maxResults).Returned? ==>
              var records := c.provider.search(query, maxResults).results.GetOr([]);
              |r| == |records| && forall k :: 0 <= k < |records| ==> r[k] == SearchDoc(records[k])
  {
    match c.provider.search(query, maxResults)
    case Raised => []
    case Returned(results) => SearchDocs(results.GetOr([]))
  }

  /** `_use_extract`: extraction of the URLs found in the query, or a plain
      search with the default limit when it holds none. */
  function UseExtract(c: Client, query: string): (r: seq<Doc>)
    ensures c.findUrls(query) == [] ==> r == UseSearch(c, query, DefaultMaxResults)
    ensures c.findUrls(query) != [] && c.provider.extract(c.findUrls(query)) == Raised ==> r == []
    ensures c.findUrls(query) != [] && c.provider.extract(c.findUrls(query)).Returned? ==>
              var records := c.provider.extract(c.findUrls(query)).results.GetOr([]);
              |r| == |records| && forall k :: 0 <= k < |records| ==> r[k] == ExtractedDoc(records[k])
  {
    var urls := c.findUrls(query);
    if urls == [] then UseSearch(c, query, DefaultMaxResults)
    else
      match c.provider.extract(urls)
      case Raised => []
      case Returned(results) => ExtractedDocs(results.GetOr([]))
  }

  /** `_use_map`: a plain search that always asks for five results, so it gives
      what the extract path gives for a query in which no URL is found. */
  function UseMap(c: Client, query: string): (r: seq<Doc>)
    ensures c.findUrls(query) == [] ==> r == UseExtract(c, query)
    ensures c.provider.search(query, DefaultMaxResults) == Raised ==> r == []
  {
    UseSearch(c, query, DefaultMaxResults)
  }

  /** `SearchClient.search`: the caller's limit matters only on the plain path. */
  function Search(c: Client, query: string, maxResults: int): (r: seq<Doc>)
    ensures RouteOf(query) == SearchRoute ==> r == UseSearch(c, query, maxResults)
    ensures RouteOf(query) == MapRoute ==> r == UseSearch(c, query, DefaultMaxResults)
    ensures RouteOf(query) == ExtractRoute && c.findUrls(query) == [] ==> r == UseSearch(c, query, DefaultMaxResults)
  {
    match RouteOf(query)
    case ExtractRoute => UseExtract(c, query)
    case MapRoute => UseMap(c, query)
    case SearchRoute => UseSearch(c, query, maxResults)
  }

  // ------------------------------------------------------------ properties

  /** The caller's limit reaches the provider only on the plain-search path;
      the map path and the extract path without URLs search with five. */
  lemma LimitOnlyOnPlainPath(c: Client, query: string, maxResults: int)
    ensures RouteOf(query) == MapRoute ==> Search(c, query, maxResults) == UseSearch(c, query, DefaultMaxResults)
    ensures RouteOf(query) == ExtractRoute && c.findUrls(query) == [] ==>
              Search(c, query, maxResults) == UseSearch(c, query, DefaultMaxResults)
    ensures RouteOf(query) != SearchRoute ==> Search(c, query, maxResults) == Search(c, query, DefaultMaxResults)
    ensures RouteOf(query) == SearchRoute ==> Search(c, query, maxResults) == UseSearch(c, query, maxResults)
  {
  }

  /** A provider call that raises yields no documents for that query, on every path. */
  lemma ProviderFailureGivesNoDocs(c: Client, query: string, maxResults: int)
    ensures RouteOf(query) == SearchRoute && c.provider.search(query, maxResults) == Raised ==>
              Search(c, query, maxResults) == []
    ensures RouteOf(query) == MapRoute && c.provider.search(query, DefaultMaxResults) == Raised ==>
              Search(c, query, maxResults) == []
    ensures RouteOf(query) == ExtractRoute && c.findUrls(query) != [] && c.provider.extract(c.findUrls(query)) == Raised ==>
              Search(c, query, maxResults) == []
    ensures RouteOf(query) == ExtractRoute && c.findUrls(query) == [] && c.provider.search(query, DefaultMaxResults) == Raised ==>
              Search(c, query, maxResults) == []
  {
  }

  /** A successful provider call yields exactly its records, formatted in order;
      a response without a 'results' entry yields no documents. */
  lemma ResponseGivesItsRecords(c: Client, query: string, maxResults: int, results: Option<seq<Record>>)
    ensures RouteOf(query) == SearchRoute && c.provider.search(query, maxResults) == Returned(results) ==>
              |Search(c, query, maxResults)| == |results.GetOr([])| &&
              forall k :: 0 <= k < |results.GetOr([])| ==> Search(c, query, maxResults)[k] == SearchDoc(results.value[k])
    ensures RouteOf(query) == ExtractRoute && c.findUrls(query) != [] && c.provider.extract(c.findUrls(query)) == Returned(results) ==>
              |Search(c, query, maxResults)| == |results.GetOr([])| &&
              forall k :: 0 <= k < |results.GetOr([])| ==> Search(c, query, maxResults)[k] == ExtractedDoc(results.value[k])
    ensures (RouteOf(query) == MapRoute || (RouteOf(query) == ExtractRoute && c.findUrls(query) == [])) &&
            c.provider.search(query, DefaultMaxResults) == Returned(results) ==>
              |Search(c, query, maxResults)| == |results.GetOr([])| &&
              forall k :: 0 <= k < |results.GetOr([])| ==> Search(c, query, maxResults)[k] == SearchDoc(results.value[k])
  {
  }
}
