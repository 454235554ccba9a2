/** The explorer page: its state (repositories shown, search text, language filter, sort, error),
    the handlers that change it, and the choice of what the main area shows.
    A handler runs as one atomic step: it issues its search, and the result, a parameter standing
    for the network, is applied at once. */
module Explorer {
  import opened Wrappers
  import Strings
  import UrlComponent
  import Github

  /** The language filter buttons. */
  const Languages: seq<string> := ["JavaScript", "Python", "Java", "TypeScript", "Go", "Rust", "C++", "PHP", "C#", "Swift"]

  /** The values of the sort selector. */
  const SortOptions: seq<string> := ["stars", "forks", "updated", "help-wanted-issues"]

  /** Two of the filter buttons are the languages that the verbatim search URL mangles: `C#` is sent
      as `C`, and `C++` reaches a server as `C` and two spaces. */
  lemma ListedLanguagesMangled()
    ensures Languages[8] == "C#" && Languages[6] == "C++"
    ensures Strings.BeforeFirst(Github.SearchUrl(Github.SearchArgs("react", None, Some(Languages[8]))), '#')
      == Github.SearchEndpoint + "?q=" + "react" + "+" + Github.LanguageQualifier + "C"
    ensures UrlComponent.Decode(Github.SearchQuery("react", Languages[6]))
      == "react" + " " + Github.LanguageQualifier + "C" + "  "
  {
    var sharp, plus := Languages[8], Languages[6];
    assert sharp == "C#" && plus == "C++";
    Github.SharpLanguageCut();
    Github.PlusLanguageMangled();
  }

  /** The sort a page starts with is the first option of the selector. */
  lemma DefaultSortListed()
    ensures SortOptions[0] == Github.DefaultSort
  {
  }

  /** Clicking the active language clears the filter; clicking another one selects it. */
  function ToggledLanguage(active: string, clicked: string): (r: string)
    ensures r == "" || r == clicked
    ensures r == clicked <==> clicked != active || clicked == ""
  {
    if clicked == active then "" else clicked
  }

  /** Two clicks on one language restore the filter when it was off or on that language,
      and clear it when it was on another one. */
  lemma ToggleTwice(active: string, lang: string)
    ensures ToggledLanguage(ToggledLanguage(active, lang), lang) == (if active == "" || active == lang then active else "")
  {
  }

  datatype Shown = Shown(repos: seq<Github.Repo>, error: Option<string>)

  /** A search result applied once the handler has cleared the error: an error message is stored and
      the repositories stay; otherwise the repositories are replaced and no error remains. */
  function Absorb(repos: seq<Github.Repo>, r: Github.SearchResult): (s: Shown)
    ensures s.error != Some("")
    ensures s.error.Some? <==> r.error.GetOr("") != ""
    ensures s.error.Some? ==> s.error == r.error && s.repos == repos
    ensures s.error.None? ==> s.repos == r.repos
  {
    if r.error.GetOr("") != "" then Shown(repos, r.error) else Shown(r.repos, None)
  }

  /** For a result of `searchRepos`, whose error is never empty and comes with no repositories,
      an error keeps the old repositories and a success shows exactly the result's. */
  lemma AbsorbSearchResult(repos: seq<Github.Repo>, args: Github.SearchArgs,
                           respond: string -> Github.HttpOutcome<Github.SearchPayload>)
    ensures var r := Github.SearchRepos(args, respond);
            Absorb(repos, r) == (if r.error.Some? then Shown(repos, r.error) else Shown(r.repos, None))
  {
  }

  datatype View = Skeleton | ErrorAlert(message: string) | Grid(repos: seq<Github.Repo>) | NoRepositoriesFound

  /** The main area: the skeleton while a search is pending, else the error, else the grid when there
      are repositories, else "No Repositories Found". */
  function ViewOf(pending: bool, error: Option<string>, repos: seq<Github.Repo>): (v: View)
    ensures v == Skeleton <==> pending
    ensures v.ErrorAlert? <==> !pending && error.GetOr("") != ""
    ensures v.ErrorAlert? ==> v.message == error.value
    ensures v.Grid? <==> !pending && error.GetOr("") == "" && repos != []
    ensures v.Grid? ==> v.repos == repos
  {
    if pending then Skeleton
    else if error.GetOr("") != "" then ErrorAlert(error.value)
    else if repos != [] then Grid(repos)
    else NoRepositoriesFound
  }

  /** Once a handler's search has been applied, the page shows that search's error, or else its
      repositories, or else that none were found; the previous repositories never show. */
  lemma ViewAfterSearch(repos: seq<Github.Repo>, r: Github.SearchResult)
    ensures var s := Absorb(repos, r);
            ViewOf(false, s.error, s.repos)
              == if r.error.GetOr("") != "" then ErrorAlert(r.error.value)
                 else if r.repos != [] then Grid(r.repos)
                 else NoRepositoriesFound
  {
  }

  class GithubExplorer {
    var repos: seq<Github.Repo>
    var query: string
    var activeLanguage: string
    var sort: string
    var error: Option<string>

    /** A stored error is never the empty text. */
    ghost predicate Valid()
      reads this
    {
      error != Some("")
    }

    /** The state a page starts in: the trending list and its error, if any. */
    constructor (initialRepos: seq<Github.Repo>, initialError: Option<string>)
      ensures Valid()
      ensures repos == initialRepos && query == "react" && activeLanguage == "" && sort == "stars"
      ensures error == if initialError.GetOr("") != "" then initialError else None
    {
      repos := initialRepos;
      query := "react";
      activeLanguage := "";
      sort := "stars";
      error := if initialError.GetOr("") != "" then initialError else None;
    }

    /** What the main area shows. With the invariant, an error shows exactly when one is stored. */
    function View(pending: bool): (v: View)
      reads this
      ensures v == Skeleton <==> pending
      ensures Valid() ==> (v.ErrorAlert? <==> !pending && error.Some?)
      ensures v.ErrorAlert? ==> Some(v.message) == error
      ensures v.Grid? ==> v.repos == repos
      ensures v == NoRepositoriesFound <==> !pending && error.GetOr("") == "" && repos == []
    {
      ViewOf(pending, error, repos)
    }

    /** The search box: typing sets the text, and the clear button sets "". */
    method SetQuery(text: string)
      modifies this
      ensures Valid() <==> old(Valid())
      ensures query == text
      ensures repos == old(repos) && activeLanguage == old(activeLanguage) && sort == old(sort) && error == old(error)
    {
      query := text;
    }

    /** Applies `result` to a state whose error was just cleared. */
    method Apply(result: Github.SearchResult)
      requires error == None
      modifies this
      ensures Valid()
      ensures Shown(repos, error) == Absorb(old(repos), result)
      ensures query == old(query) && activeLanguage == old(activeLanguage) && sort == old(sort)
    {
      if result.error.GetOr("") != "" {
        error := result.error;
      } else {
        repos := result.repos;
      }
    }

    /** `handleSearch`: nothing at all for an empty search text; otherwise the search for the current
        text, sort and language. */
    method HandleSearch(search: Github.SearchArgs -> Github.SearchResult) returns (request: Option<Github.SearchArgs>)
      requires Valid()
      modifies this
      ensures Valid()
      ensures query == old(query) && activeLanguage == old(activeLanguage) && sort == old(sort)
      ensures request.None? <==> old(query) == ""
      ensures request.None? ==> repos == old(repos) && error == old(error)
      ensures request.Some? ==>
        && request.value == Github.SearchArgs(query, Some(sort), Some(activeLanguage))
        && Shown(repos, error) == Absorb(old(repos), search(request.value))
    {
      if query == "" {
        return None;
      }
      error := None;
      var args := Github.SearchArgs(query, Some(sort), Some(activeLanguage));
      Apply(search(args));
      request := Some(args);
    }

    /** `handleLanguageChange`: toggles the filter, then searches with the new filter. */
    method HandleLanguageChange(lang: string, search: Github.SearchArgs -> Github.SearchResult)
      returns (request: Github.SearchArgs)
      requires Valid()
      modifies this
      ensures Valid()
      ensures activeLanguage == ToggledLanguage(old(activeLanguage), lang)
      ensures query == old(query) && sort == old(sort)
      ensures request == Github.SearchArgs(query, Some(sort), Some(activeLanguage))
      ensures Shown(repos, error) == Absorb(old(repos), search(request))
    {
      error := None;
      var newLang := if lang == activeLanguage then "" else lang;
      activeLanguage := newLang;
      request := Github.SearchArgs(query, Some(sort), Some(newLang));
      Apply(search(request));
    }

    /** `handleSortChange`: stores the new sort, then searches with it. */
    method HandleSortChange(newSort: string, search: Github.SearchArgs -> Github.SearchResult)
      returns (request: Github.SearchArgs)
      requires Valid()
      modifies this
      ensures Valid()
      ensures sort == newSort
      ensures query == old(query) && activeLanguage == old(activeLanguage)
      ensures request == Github.SearchArgs(query, Some(newSort), Some(activeLanguage))
      ensures Shown(repos, error) == Absorb(old(repos), search(request))
    {
      error := None;
      sort := newSort;
      request := Github.SearchArgs(query, Some(newSort), Some(activeLanguage));
      Apply(search(request));
    }
  }
}
