# GitHub trend explorer: the decision logic, in Dafny

The web front end lists trending GitHub repositories, lets a user search, filter by language and sort, and asks a hosted language model for a summary of a repository's README. Almost all of it is network calls and rendering. This project models the deterministic logic around those calls and proves what it promises:

- **Search client** (`Github`, in `github.dfy`). It builds the search query and the request URLs for searches and for the trending list. `fetcher` folds every HTTP outcome into a `{data, error}` pair, whose error is the server's own `message` or one of two fixed messages, and the searches turn that pair into `{repos, error}`. Each network answer is a value of `HttpOutcome`. The network itself is a parameter `respond: string -> HttpOutcome<…>`, so the lemmas can say which URL was requested.
- **Summary action** (`Actions`, in `actions.dfy`). It validates the form, fetches the README, rejects a missing or short README, truncates it to 10 000 characters and calls the model. Every path ends in exactly one of `Summary(text)` or `Failure(message)`. The README request, the model and zod's URL check are parameters. The action returns the external calls it made, in order, so "no request was made" and "the model was not called" can be stated.
- **Repository card** (`RepositoryCard`, in `repository_card.dfy`). It holds the `timeAgo` cascade on integer milliseconds, the dialog's choice between summary, error and nothing, and the summary form's fields.
- **Explorer page** (`Explorer`, in `github_explorer.dfy`). It is a class `GithubExplorer` with the page's state fields `repos`, `query`, `activeLanguage`, `sort` and `error`. Its handlers are methods that take the search as a parameter. A pure function picks what the main area shows.
- Helpers: `Wrappers` (Option), `Strings` (`split(c)[0]`, `substring(0, n)`, and the decimal text of an integer with its parser), and `UrlComponent` (percent-encoding and decoding, used by the corrected search URL below).

Where the intended contract and the code differ, the model follows the code. The one addition is the corrected search request under "## Findings", which is a separate member (`Github.EncodedSearchRepos`) beside the verbatim one (`Github.SearchRepos`). Otherwise:

- `getReadmeContent` is meant never to raise. But it reads the body with an un-awaited `return res.text()` inside its `try` (src/app/actions.ts:22), so a failure to read the body escapes its `catch`. `getSummaryAction`'s catch-all then reports the generic message. See `Actions.GetReadmeContent` and `Actions.UnreadableReadme`.
- `!readmeContent` treats an empty README as missing, not as too short.
- An error body that is the JSON value `null` makes `errorData.message` throw. That lands in `fetcher`'s catch with the network message (`Github.Fetcher`).
- A search result always carries both fields. `repos` is empty whenever `error` is set, but an empty `repos` with no error is also possible.
- With an empty language the query is the user's text unchanged. That text may itself contain `language:`.

`timeAgo` divides integers by positive constants. For whole seconds, `seconds / 31536000 > 1` holds exactly when `seconds > 31536000`, and `Math.floor` of that quotient equals Dafny's `/`. The model's integer arithmetic is exact when |now − created| is below 2^53 ms (about 9.007 × 10^15 ms), where every millisecond count is held exactly as a JavaScript number. With the real clock and a valid `Date` the span stays below that. Above 2^53 ms an odd span is rounded, and `Math.floor` can give one more than the model. `RepositoryCard.ElapsedSeconds` itself accepts any integer.

## Model

| member | source | states |
|---|---|---|
| `Strings.BeforeFirst` | src/lib/github.ts:30 | `split('T')[0]` is the longest prefix without a `T`. A `T` follows it unless it is the whole string. |
| `Strings.Take` | src/app/actions.ts:63 | `substring(0, n)` is a prefix of length min(length, n). |
| `Strings.IntText` | src/components/repository-card.tsx:69-78 | JavaScript's text of an integral Number has at least one character, starts with `-` exactly for a negative value, and holds no space. |
| `Strings.IntTextRoundTrip` | src/components/repository-card.tsx:69-78 | The decimal text of an integer (a minus sign when negative, no leading zero) reads back as that integer. |
| `Github.Fetcher` | src/lib/github.ts:5-27 | The error is null exactly for an OK response with a JSON body. Otherwise data is null and the error is never empty. On a non-OK response the error is the body's non-empty `message`, else the fixed GitHub message. A throw, a non-JSON body or a `null` error body gives the fixed network message. |
| `Github.Collect` | src/lib/github.ts:34 | `repos` is `data.items` when both are present, otherwise empty. The error passes through. |
| `Github.Normalise` | src/lib/github.ts:33-34 | A set error comes with no repositories and is never empty. The error is null exactly for an OK response with a JSON body. |
| `Github.SearchQuery` | src/lib/github.ts:46-49 | With a language, `q` is the text followed by `+language:` and the language. Without one, `q` is the text. |
| `Github.SearchUrl` | src/lib/github.ts:50 | The verbatim URL starts with the search endpoint, `?q=` and the text. It ends with the sort (`stars` when omitted), then `&order=desc&per_page=12`. |
| `Github.SearchUrlDefaults` | src/lib/github.ts:37-50 | An omitted sort and language give the same URL as sort `stars` with no language: the endpoint, `?q=` and the text, then `&sort=stars&order=desc&per_page=12`. |
| `Github.SharpCutsSearchUrl` | src/lib/github.ts:46-50 | As written, a `#` in the language ends what is sent. The request carries only the text and the language up to the `#`, with no sort, order or page size. |
| `Github.SharpLanguageCut` | src/components/github-explorer.tsx:17 | The listed language `C#` is sent as a filter on `C`. |
| `Github.PlusReadsAsSpace` | src/lib/github.ts:46-49 | As written, the `q` value built for a language ending in `++` decodes with two spaces in their place, and with the text and the rest of the filter unchanged. This holds for every text and language without `%` or `+`. It is about `q` as built, before the URL is split at any `&` or `#`. |
| `Github.PlusLanguageMangled` | src/lib/github.ts:46-49 | The listed language `C++` reaches a server as `C` and two spaces. |
| `Github.EncodedQuery` | src/lib/github.ts:46-49 | Corrected `q`: no `&` and no `#` in it. |
| `Github.EncodedQueryReadsBack` | src/lib/github.ts:46-49 | The corrected `q` decodes to the text, then ` language:` and the language (or just the text when there is no language). |
| `Github.EncodedSearchUrl` | src/lib/github.ts:50 | The corrected URL has no `#`, so nothing of it is cut off as a fragment. |
| `Github.EncodedSearchUrlAgrees` | src/lib/github.ts:37-50 | The corrected URL equals the source's URL whenever the text, the sort and the language hold none of `%`, `&`, `#` or `+`. |
| `Github.EncodedSearchUrlReadsBack` | src/lib/github.ts:50 | The corrected URL has the fixed shape. Both values are free of `&` and decode back to the query with its filter and to the sort. |
| `Github.SearchRepos` | src/lib/github.ts:37-54 | One request, for the verbatim search URL, normalised. An error comes with no repositories and is never empty. |
| `Github.EncodedSearchRepos` | src/lib/github.ts:37-54 | The corrected search: one request, for the encoded URL, normalised. An error comes with no repositories. Where the text, sort and language hold none of `%`, `&`, `#`, `+`, the result is `searchRepos`'s. |
| `Github.TrendingUrl` | src/lib/github.ts:30-31 | The trending URL is the search for `created:>D`, by stars, with no language. D is the part before `T` of the ISO text of now minus 604 800 000 ms. |
| `Github.GetTrendingRepos` | src/lib/github.ts:29-35 | One request for the trending URL, normalised. An error comes with no repositories. |
| `Actions.Validate` | src/app/actions.ts:34-48 | The input is valid exactly when `repoUrl` is present and a URL and `owner` and `repoName` are present and non-empty. The validated request carries those three values. |
| `Actions.ReadmeUrl` | src/app/actions.ts:8 | The README endpoint is `https://api.github.com/repos/`, the owner and `/`, and it ends with the repository name and `/readme`. |
| `Actions.GetReadmeContent` | src/app/actions.ts:7-27 | Null for a thrown request or a non-OK status. The text for an OK body. It raises exactly when the OK body cannot be read. |
| `Actions.Summarise` | src/app/actions.ts:63-74 | One model call, with the URL and the first min(length, 10 000) characters. The result is a summary exactly when the model's output has a non-empty summary, and then it is that text. A missing or empty summary gives the "could not generate" message. A model that raises or gives no output gives the generic message. |
| `Actions.GetSummaryAction` | src/app/actions.ts:30-79 | A summary is non-empty. Every error is one of the five fixed messages. "Invalid input." occurs exactly when validation fails, and then no call is made. Otherwise the first call is the README request for `owner`/`repoName`. The model is called only second, with 100 to 10 000 characters. A summary is the model's own output. |
| `Actions.InvalidInputMakesNoCalls` | src/app/actions.ts:46-48 | Invalid input gives exactly "Invalid input." and makes no calls. |
| `Actions.MissingReadme` | src/app/actions.ts:53-57 | A failed README request or an empty README gives the not-found message. The model is not called. |
| `Actions.ShortReadme` | src/app/actions.ts:59-61 | A README of 1 to 99 characters gives the too-short message. The model is not called. |
| `Actions.LongReadmeReachesModel` | src/app/actions.ts:63-74 | A README of 100 or more characters reaches the model as its first min(length, 10 000) characters, with `repoUrl` unchanged. The outcome then follows the model's reply. |
| `Actions.UnreadableReadme` | src/app/actions.ts:22 | An unreadable README body gives the generic unexpected-error message. The model is not called. |
| `RepositoryCard.ElapsedSeconds` | src/components/repository-card.tsx:67 | The whole seconds between the two instants, rounded down for negative differences too. |
| `RepositoryCard.Bucket` | src/components/repository-card.tsx:68-78 | The unit is the first, largest first, whose threshold is strictly exceeded, and no larger unit's is. The count is floor(seconds / unit). It is at least 1 for every unit but seconds and at most 12 months, 30 days, 24 hours or 60 minutes or seconds. |
| `RepositoryCard.BucketUnitUnique` | src/components/repository-card.tsx:68-77 | Exactly one unit meets those two conditions. |
| `RepositoryCard.StrictThresholds` | src/components/repository-card.tsx:68-78 | Exactly 31 536 000 s gives 12 months and 31 536 001 s gives 1 year. Exactly 60 s gives 60 seconds, and a negative difference is counted in seconds. |
| `RepositoryCard.Render` | src/components/repository-card.tsx:69-78 | "N <unit> ago" reads back as its count and unit. |
| `RepositoryCard.TimeAgo` | src/components/repository-card.tsx:66-79 | `timeAgo`'s text is the count, a space, the plural unit and " ago", and it reads back as the cascade's count and unit. |
| `RepositoryCard.CardStateOf` | src/components/repository-card.tsx:53 | The action's `{summary}` or `{error}` as the card's state, with the absent field empty. |
| `RepositoryCard.DialogBodyOf` | src/components/repository-card.tsx:140-149 | The summary when it is non-empty. Otherwise the error when it is non-empty. Otherwise nothing. |
| `RepositoryCard.SummaryForm` | src/components/repository-card.tsx:158-161 | The form submits `repoUrl = html_url`, `owner = owner.login` and `repoName = name`. |
| `RepositoryCard.FormShown` | src/components/repository-card.tsx:157 | The form shows exactly when the dialog shows no summary. |
| `RepositoryCard.InitialCard` | src/components/repository-card.tsx:53 | Before any submission the dialog shows nothing, and the form shows. |
| `RepositoryCard.SubmissionFromCard` | src/components/repository-card.tsx:140-164 | After any submission the dialog shows a summary or an error, never nothing. The form goes away exactly when a summary came back. The card's fields pass validation exactly when its URL is a URL and its owner and name are non-empty. |
| `Explorer.ListedLanguagesMangled` | src/components/github-explorer.tsx:17 | The filter list holds `C#` and `C++`. Through the verbatim URL, `C#` is sent as `C`, and `C++` reaches a server as `C` and two spaces. |
| `Explorer.ToggledLanguage` | src/components/github-explorer.tsx:66 | Clicking the active language clears the filter. Clicking another selects it. |
| `Explorer.ToggleTwice` | src/components/github-explorer.tsx:64-67 | Two clicks on one language restore a filter that was off or on that language, and clear one that was on another language. |
| `Explorer.Absorb` | src/components/github-explorer.tsx:55-60 | An error result is stored and leaves the repositories unchanged. Otherwise the repositories are replaced and no error remains. An empty error is never stored. |
| `Explorer.AbsorbSearchResult` | src/components/github-explorer.tsx:54-60 | For a result of `searchRepos`, the error is applied exactly when one is set. |
| `Explorer.ViewOf` | src/components/github-explorer.tsx:151-188 | Skeleton while pending. Otherwise the alert for a non-empty error. Otherwise the grid for non-empty repositories. Otherwise "No Repositories Found". |
| `Explorer.ViewAfterSearch` | src/components/github-explorer.tsx:151-188 | After a handler's search, the page shows that search's error, or its repositories, or "none found". The old repositories never show. |
| `Explorer.GithubExplorer.View` | src/components/github-explorer.tsx:151-188 | With the state invariant, the alert shows exactly when not pending and an error is stored. The alert carries that error and the grid the stored repositories. "No Repositories Found" shows exactly when not pending, with no error and no repositories. |
| `Explorer.GithubExplorer.constructor` | src/components/github-explorer.tsx:32-36 | Initial state: `repos` are the initial ones, `query` is "react", no language, sort `stars`, and the error is the initial one or null. |
| `Explorer.GithubExplorer.SetQuery` | src/components/github-explorer.tsx:110-114 | Typing, or the clear button with "", changes the search text and nothing else. The state invariant holds afterwards exactly when it held before. |
| `Explorer.GithubExplorer.Apply` | src/components/github-explorer.tsx:55-60 | Applies a result to a state whose error was cleared, as `Absorb` says. |
| `Explorer.GithubExplorer.HandleSearch` | src/components/github-explorer.tsx:50-62 | An empty text changes nothing and issues no request. Otherwise it issues one request with the current text, sort and language, and applies the result. |
| `Explorer.GithubExplorer.HandleLanguageChange` | src/components/github-explorer.tsx:64-77 | Toggles the filter. The request uses the new filter with the current text and sort. |
| `Explorer.GithubExplorer.HandleSortChange` | src/components/github-explorer.tsx:79-91 | Stores the new sort. The request uses it with the current text and filter. |

## Findings

| source | as written | input that shows it | evidently intended | confidence | as-written member | corrected member |
|---|---|---|---|---|---|---|
| src/lib/github.ts:46-50 | The language goes into the URL unencoded, and `#` starts the URL fragment, which is never sent. | The filter button `C#` (src/components/github-explorer.tsx:17) builds `…?q=react+language:C#&sort=stars&order=desc&per_page=12`. The request carries `q=react+language:C`: it filters on C and loses the sort, order and page size. | The request filters on `C#` and keeps its sort, order and page size. | not executed; high | `Github.SharpLanguageCut` | `Github.EncodedSearchUrlReadsBack` |
| src/lib/github.ts:46-49 | The language goes into `q` unencoded, and `+` in a query string means a space. | The filter button `C++` builds `q=react+language:C++`, which a server reads as `react language:C  `. | The query reads `react language:C++`. | not executed; medium | `Github.PlusLanguageMangled` | `Github.EncodedQueryReadsBack` |

In the corrected member, the text, the language and the sort are percent-encoded where they hold `%`, `&`, `#` or `+`. `Github.EncodedSearchUrl` equals the source's URL for every input without those characters. `Github.EncodedSearchRepos` requests it. `Github.SearchRepos` keeps the source's verbatim request.

## Left out

- Network I/O: `fetch`, the `Accept` and `User-Agent` headers, and the one-hour `revalidate` caching. Each answer is an `HttpOutcome` or `ReadmeResponse` value.
- The hosted model prompt (src/ai/flows/summarize-repository.ts). It has no logic of its own and is a parameter returning a `ModelReply`. The 150-word limit is only an instruction in the prompt.
- zod's URL syntax check. It is the parameter `isUrl`. A form field that is a file rather than text reads as absent.
- Github.Fetcher: an error body whose `message` is not a string is modelled as one with no `message`.
- Logging: the `console.error` calls (src/app/actions.ts:19, 24, 76) have no effect on any result.
- The wall clock, date parsing and `toISOString`. These are the parameters `nowMs`, `createdMs` and `iso`. An unparsable creation date (`NaN`) is not modelled.
- Concurrency: `startTransition`, the pending flag and the race between searches in flight, where the last response wins. Each handler is one atomic step, and the pending flag is a parameter of the view.
- Rendering: JSX, toasts (the `useEffect` notifications), animations, `toLocaleString` counts, the description and language badges, the button labels, and the logo (src/components/logo.tsx). src/app/page.tsx only passes the trending result to the page.
- String lengths: JavaScript counts UTF-16 code units, and the model counts characters of `seq<char>`.
- Integer text: JavaScript writes integral Numbers of magnitude 10^21 or more in exponent form. Elapsed times are far below that, so the decimal form is modelled.
