/** The repository-search client: the query and URL builders, the `fetcher` that folds
    one HTTP outcome into `{data, error}`, and the two searches built on them.
    The network is a parameter: `respond(url)` is what fetching `url` produced. */
module Github {
  import opened Wrappers
  import Strings
  import UrlComponent

  const ApiBase := "https://api.github.com"
  const SearchEndpoint := ApiBase + "/search/repositories"
  const DefaultSort := "stars"
  /** The search qualifier that filters on a language. */
  const LanguageQualifier := "language:"
  const FetchFailed := "An error occurred while fetching data from GitHub."
  const NetworkFailed := "An unexpected error occurred. Please check your network connection."
  /** One week in milliseconds. */
  const WeekMillis := 7 * 24 * 60 * 60 * 1000

  datatype Owner = Owner(login: string, avatarUrl: string)

  datatype Repo = Repo(
    id: int,
    name: string,
    fullName: string,
    htmlUrl: string,
    description: Option<string>,
    stars: int,
    forks: int,
    language: Option<string>,
    owner: Owner,
    createdAt: string)

  /** What `response.json()` yields: it throws on a body that is not JSON, and `null` is valid JSON. */
  datatype Json<T> = Malformed | Null | Value(value: T)

  /** The JSON body of an error response; `message` is `None` when absent. */
  datatype ErrorBody = ErrorBody(message: Option<string>)

  /** What one request produced: `fetch` threw, or it answered with an OK status, or with another one. */
  datatype HttpOutcome<T> = Unreachable | Ok(body: Json<T>) | NotOk(errorBody: Json<ErrorBody>)

  datatype Fetched<T> = Fetched(data: Option<T>, error: Option<string>)

  /** `fetcher`: every outcome becomes a `{data, error}` pair; nothing is raised. A JSON `null`
      error body makes reading its `message` throw, which lands in the catch-all like a network failure. */
  function Fetcher<T>(o: HttpOutcome<T>): (f: Fetched<T>)
    ensures f.error.None? <==> o.Ok? && !o.body.Malformed?
    ensures f.error.Some? ==> f.data.None? && f.error.value != ""
    ensures f.data.Some? <==> o.Ok? && o.body.Value?
    ensures f.data.Some? ==> f.data.value == o.body.value
    ensures o.NotOk? && o.errorBody.Value? ==>
      f.error == Some(if o.errorBody.value.message.GetOr("") != "" then o.errorBody.value.message.value else FetchFailed)
    ensures o.Unreachable? || (o.Ok? && o.body.Malformed?) || (o.NotOk? && !o.errorBody.Value?) ==>
      f.error == Some(NetworkFailed)
  {
    match o
    case Unreachable => Fetched(None, Some(NetworkFailed))
    case Ok(body) =>
      (match body
       case Malformed => Fetched(None, Some(NetworkFailed))
       case Null => Fetched(None, None)
       case Value(v) => Fetched(Some(v), None))
    case NotOk(errorBody) =>
      (match errorBody
       case Value(e) =>
         var message := e.message.GetOr("");
         Fetched(None, Some(if message != "" then message else FetchFailed))
       case _ => Fetched(None, Some(NetworkFailed)))
  }

  /** The search payload; `items` is `None` when absent. */
  datatype SearchPayload = SearchPayload(items: Option<seq<Repo>>)

  datatype SearchResult = SearchResult(repos: seq<Repo>, error: Option<string>)

  /** `{ repos: data?.items || [], error }`. */
  function Collect(f: Fetched<SearchPayload>): (r: SearchResult)
    ensures r.error == f.error
    ensures f.data.Some? && f.data.value.items.Some? ==> r.repos == f.data.value.items.value
    ensures r.repos != [] ==> f.data.Some? && f.data.value.items == Some(r.repos)
  {
    if f.data.Some? && f.data.value.items.Some? then SearchResult(f.data.value.items.value, f.error)
    else SearchResult([], f.error)
  }

  /** What both searches return for one outcome. */
  function Normalise(o: HttpOutcome<SearchPayload>): (r: SearchResult)
    ensures r.error.Some? ==> r.repos == [] && r.error.value != ""
    ensures r.error.None? <==> o.Ok? && !o.body.Malformed?
    ensures o.Ok? && o.body.Value? && o.body.value.items.Some? ==> r.repos == o.body.value.items.value
  {
    Collect(Fetcher(o))
  }

  /** The `q` value: the free text, then `+language:` and the language when one is given. */
  function SearchQuery(query: string, language: string): (q: string)
    ensures query <= q
    ensures language == "" ==> q == query
    ensures language != "" ==> q[|query|..] == "+" + LanguageQualifier + language
  {
    if language != "" then query + "+" + LanguageQualifier + language else query
  }

  /** The arguments of `searchRepos`; `None` is an omitted optional argument. */
  datatype SearchArgs = SearchArgs(query: string, sort: Option<string>, language: Option<string>)

  /** The search URL exactly as the source writes it: every part inserted verbatim. It starts with
      the endpoint and the free text and ends with the sort (`stars` when omitted), descending order
      and twelve results per page. */
  function SearchUrl(args: SearchArgs): (url: string)
    ensures SearchEndpoint + "?q=" + args.query <= url
    ensures var tail := args.sort.GetOr(DefaultSort) + "&order=desc&per_page=12";
            |tail| <= |url| && url[|url| - |tail|..] == tail
  {
    SearchEndpoint + "?q=" + SearchQuery(args.query, args.language.GetOr(""))
      + "&sort=" + args.sort.GetOr(DefaultSort) + "&order=desc&per_page=12"
  }

  /** Omitted arguments mean sort `stars` and no language filter. */
  lemma SearchUrlDefaults(query: string)
    ensures SearchUrl(SearchArgs(query, None, None)) == SearchUrl(SearchArgs(query, Some("stars"), Some("")))
    ensures SearchUrl(SearchArgs(query, None, None))
      == SearchEndpoint + "?q=" + query + "&sort=" + "stars" + "&order=desc&per_page=12"
  {
  }

  /** As written, a `#` in the language ends what is sent: it opens the URL fragment, which a
      request never carries, so the filter is cut short and the sort, order and page size are lost. */
  lemma SharpCutsSearchUrl(query: string, sort: Option<string>, lang: string, more: string)
    requires '#' !in query + lang
    ensures Strings.BeforeFirst(SearchUrl(SearchArgs(query, sort, Some(lang + "#" + more))), '#')
      == SearchEndpoint + "?q=" + query + "+" + LanguageQualifier + lang
  {
    var sent := SearchEndpoint + "?q=" + query + "+" + LanguageQualifier + lang;
    var rest := more + "&sort=" + sort.GetOr(DefaultSort) + "&order=desc&per_page=12";
    SearchUrlAroundSharp(query, sort, lang, more);
    SentHasNoHash(query, lang);
    Strings.SplitAtFirst(sent, '#', rest);
  }

  /** The verbatim URL for a language holding a `#`, split around that `#`. */
  lemma SearchUrlAroundSharp(query: string, sort: Option<string>, lang: string, more: string)
    ensures SearchUrl(SearchArgs(query, sort, Some(lang + "#" + more)))
      == (SearchEndpoint + "?q=" + query + "+" + LanguageQualifier + lang) + ['#']
         + (more + "&sort=" + sort.GetOr(DefaultSort) + "&order=desc&per_page=12")
  {
  }

  lemma SentHasNoHash(query: string, lang: string)
    requires '#' !in query + lang
    ensures '#' !in SearchEndpoint + "?q=" + query + "+" + LanguageQualifier + lang
  {
    LiteralsHaveNoHash();
    assert '#' !in LanguageQualifier;
  }

  /** `C#`, from the fixed filter list, is sent as `C`. */
  lemma SharpLanguageCut()
    ensures Strings.BeforeFirst(SearchUrl(SearchArgs("react", None, Some("C#"))), '#')
      == SearchEndpoint + "?q=" + "react" + "+" + LanguageQualifier + "C"
  {
    assert "C#" == "C" + "#" + "";
    SharpCutsSearchUrl("react", None, "C", "");
  }

  /** As written, the `q` value built for a language ending in `++` decodes with a space for each
      `+`, the text and the rest of the filter unchanged. (A `&` or `#` in the text would further cut
      what a server receives; see `SharpCutsSearchUrl` for `#`.) */
  lemma PlusReadsAsSpace(query: string, lang: string)
    requires '%' !in query + lang && '+' !in query + lang
    ensures UrlComponent.Decode(SearchQuery(query, lang + "++")) == query + " " + LanguageQualifier + lang + "  "
  {
    var tail := LanguageQualifier + lang + ['+', '+'];
    assert SearchQuery(query, lang + "++") == query + (['+'] + tail);
    UrlComponent.DecodeLiteralThen(query, ['+'] + tail);
    UrlComponent.DecodePlusThen(tail);
    assert tail == (LanguageQualifier + lang) + (['+'] + ['+']);
    UrlComponent.DecodeLiteralThen(LanguageQualifier + lang, ['+'] + ['+']);
    UrlComponent.DecodePlusThen(['+']);
    UrlComponent.DecodePlusThen([]);
    assert ['+'] + [] == ['+'];
  }

  /** `C++`, from the fixed filter list, reaches a server as `C` followed by two spaces. */
  lemma PlusLanguageMangled()
    ensures UrlComponent.Decode(SearchQuery("react", "C++")) == "react" + " " + LanguageQualifier + "C" + "  "
  {
    assert "C++" == "C" + "++";
    PlusReadsAsSpace("react", "C");
  }

  /** The `q` value with the free text and the language percent-encoded. */
  function EncodedQuery(query: string, language: string): (q: string)
    ensures '&' !in q && '#' !in q
  {
    if language != "" then UrlComponent.Encode(query) + "+" + LanguageQualifier + UrlComponent.Encode(language)
    else UrlComponent.Encode(query)
  }

  /** A server reads the encoded `q` back as the free text, then ` language:` and the language. */
  lemma EncodedQueryReadsBack(query: string, language: string)
    ensures UrlComponent.Decode(EncodedQuery(query, language))
      == if language != "" then query + " " + LanguageQualifier + language else query
  {
    if language != "" {
      UrlComponent.DecodeEncodedJoin(query, LanguageQualifier, language);
    } else {
      UrlComponent.DecodeEncode(query);
    }
  }

  lemma LiteralsHaveNoHash()
    ensures '#' !in SearchEndpoint && '#' !in "?q=" && '#' !in "&sort=" && '#' !in "&order=desc&per_page=12"
  {
    assert '#' !in ApiBase;
    assert '#' !in "/search/repositories";
  }

  /** The search URL with the free text, the sort and the language percent-encoded. */
  function EncodedSearchUrl(args: SearchArgs): (url: string)
    ensures '#' !in url
  {
    var q := EncodedQuery(args.query, args.language.GetOr(""));
    var s := UrlComponent.Encode(args.sort.GetOr(DefaultSort));
    LiteralsHaveNoHash();
    SearchEndpoint + "?q=" + q + "&sort=" + s + "&order=desc&per_page=12"
  }

  /** Where no part holds a reserved character, the encoded URL is the source's URL. */
  lemma EncodedSearchUrlAgrees(args: SearchArgs)
    requires UrlComponent.Plain(args.query)
    requires UrlComponent.Plain(args.sort.GetOr(DefaultSort))
    requires UrlComponent.Plain(args.language.GetOr(""))
    ensures EncodedSearchUrl(args) == SearchUrl(args)
  {
    assert EncodedQuery(args.query, args.language.GetOr("")) == SearchQuery(args.query, args.language.GetOr(""));
  }

  /** The encoded URL carries the free text, the language filter and the sort intact: no part of it
      is cut off as a fragment, neither value holds a parameter separator, and both decode back. */
  lemma EncodedSearchUrlReadsBack(args: SearchArgs)
    ensures var q := EncodedQuery(args.query, args.language.GetOr(""));
            var s := UrlComponent.Encode(args.sort.GetOr(DefaultSort));
            && EncodedSearchUrl(args) == SearchEndpoint + "?q=" + q + "&sort=" + s + "&order=desc&per_page=12"
            && '&' !in q && '&' !in s
            && UrlComponent.Decode(q)
               == (if args.language.GetOr("") != "" then args.query + " " + LanguageQualifier + args.language.value
                   else args.query)
            && UrlComponent.Decode(s) == args.sort.GetOr(DefaultSort)
  {
    EncodedQueryReadsBack(args.query, args.language.GetOr(""));
    UrlComponent.DecodeEncode(args.sort.GetOr(DefaultSort));
  }

  /** `searchRepos`: one request, for the search URL as the source builds it, normalised. */
  function SearchRepos(args: SearchArgs, respond: string -> HttpOutcome<SearchPayload>): (r: SearchResult)
    ensures r == Normalise(respond(SearchUrl(args)))
    ensures r.error.Some? ==> r.repos == [] && r.error.value != ""
  {
    Normalise(respond(SearchUrl(args)))
  }

  /** The corrected `searchRepos`: one request, for the encoded search URL, normalised. It makes the
      same request as `SearchRepos` whenever no part holds a reserved character. */
  function EncodedSearchRepos(args: SearchArgs, respond: string -> HttpOutcome<SearchPayload>): (r: SearchResult)
    ensures r == Normalise(respond(EncodedSearchUrl(args)))
    ensures r.error.Some? ==> r.repos == [] && r.error.value != ""
    ensures (UrlComponent.Plain(args.query) && UrlComponent.Plain(args.sort.GetOr(DefaultSort))
             && UrlComponent.Plain(args.language.GetOr(""))) ==> r == SearchRepos(args, respond)
  {
    if UrlComponent.Plain(args.query) && UrlComponent.Plain(args.sort.GetOr(DefaultSort))
       && UrlComponent.Plain(args.language.GetOr(""))
    then EncodedSearchUrlAgrees(args); Normalise(respond(EncodedSearchUrl(args)))
    else Normalise(respond(EncodedSearchUrl(args)))
  }

  /** The trending URL; `iso` stands for `toISOString` and `nowMs` for the clock. It is the search
      for repositories created after the date part of `now` minus 604 800 000 ms, by stars,
      without a language filter. */
  function TrendingUrl(nowMs: int, iso: int -> string): (url: string)
    ensures var day := Strings.BeforeFirst(iso(nowMs - 604800000), 'T');
            && 'T' !in day && day <= iso(nowMs - 604800000)
            && url == SearchUrl(SearchArgs("created:>" + day, Some("stars"), None))
  {
    SearchEndpoint + "?q=" + "created:>" + Strings.BeforeFirst(iso(nowMs - WeekMillis), 'T')
      + "&sort=" + "stars" + "&order=desc&per_page=12"
  }

  /** `getTrendingRepos`: one request, for the trending URL, normalised. */
  function GetTrendingRepos(nowMs: int, iso: int -> string, respond: string -> HttpOutcome<SearchPayload>): (r: SearchResult)
    ensures r == Normalise(respond(TrendingUrl(nowMs, iso)))
    ensures r.error.Some? ==> r.repos == [] && r.error.value != ""
  {
    Normalise(respond(TrendingUrl(nowMs, iso)))
  }
}
