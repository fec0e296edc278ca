# gsv (GitHub search vehicle): a Dafny model of its search core

gsv searches code on GitHub from the command line. It comes in two versions,
and this project models the core of each:

- **The Rust command line (`src/main.rs`).** It reads a configuration with
  a base URL, a token and optional default organisations. It builds the
  search string: the command-line terms followed by one `org:<name>`
  qualifier per default organisation, joined by spaces. It requests
  `<url>/search/code?q=<encoded search string>`, and then keeps following
  the first `rel="next"` target of each response's `Link` header.
- **The JavaScript API client (`lib/github-client.js`).** A `Client` whose
  constructor fills in defaults. `getSelf` and `getOrgs` are requests
  without a query. `search` builds the same kind of `q` string. `request`
  does three things:
  - it builds the URL and the merged headers;
  - it turns any status above 399 into an error that carries the status
    and the raw body;
  - otherwise it resolves with the decoded body, plus the status and the
    headers.

The project has six modules:

- `Wrappers`: `Option` and `Result`.
- `Text`:
  - the Rust string operations the parser relies on: `split` on a
    character, `join`, `trim` (over the Unicode `White_Space` set) and
    `rfind`;
  - the decimal rendering of a status.
- `SearchQuery`: the search string that both clients build.
- `LinkHeader`: how `main.rs` reads a `Link` header. It proves two
  directions:
  - properties of the parser on arbitrary header text, including the
    panic raised by an invalid slice;
  - a round trip: a header formatted from well-formed links parses back
    to exactly the targets that carry ` rel="next"`, in order.
- `GsvSearch`: the configuration, the search URL and the request headers,
  and the page loop of `github_search`.
  - **The loop as a function and a method.** `Crawl` is a functional
    reference definition of the loop, built from `TurnAt`, which describes one
    turn of it. `FollowPages` is the imperative
    `loop`, proved equal to `Crawl`. The lemmas about `Crawl` state what
    the loop does over chains of pages.
  - **The network.** It is an input to the model: a map from URL to the
    page the server answers with (status, `link` header, decoded body).
  - **Termination.** The loop has no guard against a page that links back
    to an earlier one, so it runs with a fuel bound on the number of
    requests.
- `GitHubClient`: the JavaScript `Client` class, with its `const` fields
  set once by its constructor.

Two points where the code does less than a paginating search client is
expected to do. In both, the model follows the code:

- **The last page.** The expected behaviour is that every page's items
  end up in the output, the last page included. The Rust loop decodes a page's body only after it has
  taken a `next` URL from that page (`src/main.rs:112-120`). So the page
  that ends the loop is never printed, and a single-page search prints
  nothing. `Crawl` keeps this behaviour. The Findings section sets it
  beside the evidently intended loop.
- **Relations, errors and the result.** There is no general map of link
  relations, no typed error taxonomy, no `totalCount` and no distinct
  pagination-aborted error. It
  looks only for a parameter written exactly ` rel="next"`. Its errors
  are a status message, a transport error or a decoding error. Results
  are printed as they arrive, so a failure part-way leaves the earlier
  pages printed (`GsvSearch.FailureMidPagination`).

## Model

| member | source | states |
|---|---|---|
| Text.Split | src/main.rs:96-97 | Splitting on a character always yields at least one piece, even for empty text. |
| Text.SplitPiecesAvoidSeparator | src/main.rs:96-97 | No piece of a split contains the separator. |
| Text.Join | src/main.rs:72 | No pieces join to the empty string, and a join starts with its first piece; `JoinSplit` and `SplitJoin` show it is the inverse of `Split`. |
| Text.JoinSplit | src/main.rs:96-97 | Joining the pieces of a split with the separator gives back the original text. |
| Text.SplitJoin | src/main.rs:69-72 | Splitting the join of one or more separator-free pieces gives exactly those pieces. |
| Text.TrimStart | src/main.rs:98 | The result is a suffix of the input, every removed character is white space, and the result does not start with white space. |
| Text.TrimEnd | src/main.rs:98 | The result is a prefix of the input, every removed character is white space, and the result does not end with white space. |
| Text.IsWhitespace | src/main.rs:98 | The characters `trim` removes: the Unicode `White_Space` set of `char::is_whitespace`. It has no contract of its own; `TrimStart`, `TrimEnd` and `TrimPadded` state what trimming with it does. |
| Text.Trim | src/main.rs:98 | The trimmed segment is no longer than the input, neither starts nor ends with white space, and is a contiguous slice of the input with only white space before and after it (`TrimmedAt`). |
| Text.TrimPadded | src/main.rs:98 | Trimming white-space padding off a segment that has no white space at either end yields the segment. |
| Text.LastIndexOf | src/main.rs:99-102 | `rfind` finds nothing exactly when the character is absent; otherwise it returns the position of that character, and no later position holds it. |
| Text.Decimal | lib/github-client.js:52 | The status in the error message is rendered as decimal digits that stand for exactly that status, with no leading zero. |
| SearchQuery.OrgFilters | lib/github-client.js:34 | There is one qualifier per organisation, in order, and the qualifier at position i is `org:` followed by the i-th name. |
| SearchQuery.Compose | lib/github-client.js:32-35 | No terms and no filters give the empty query; a single term or filter is the query itself. |
| SearchQuery.ComposeKeepsOrder | src/main.rs:69-72 | When no term or filter contains a space, splitting the query on spaces gives back the terms followed by the filters. |
| SearchQuery.OrgFiltersAreTokens | src/main.rs:61 | A space-free organisation name gives a space-free qualifier. |
| SearchQuery.ComposeExample | lib/github-client.js:32-35 | `foo` with organisations `acme` and `wombat` gives `foo org:acme org:wombat`. |
| LinkHeader.TargetOf | src/main.rs:98-103 | There is no target exactly when the segment has no `>`; the slice panics exactly when there is a `>` but the last one is at index 0, or the first character is more than one byte; otherwise the target is the text between index 1 and the last `>`. |
| LinkHeader.ParseEntry | src/main.rs:96-109 | The `filter_map` closure. It has no contract of its own; `EntryContributesOnlyWithNext` restates its three outcomes, and `LinkRoundTrip` states what it does with a well-formed link. |
| LinkHeader.EntryContributesOnlyWithNext | src/main.rs:97-109 | Restating `ParseEntry`: an entry yields a URL exactly when its first segment has a valid target and one of its later segments equals ` rel="next"`; the URL is that target; the entry panics exactly when the slice is invalid, whatever its parameters. |
| LinkHeader.EntryWithoutTarget | src/main.rs:99-102 | An entry whose trimmed first segment has no `>` is skipped. |
| LinkHeader.Collect | src/main.rs:96-110 | Collecting never yields more URLs than there are entries. |
| LinkHeader.NextLinks | src/main.rs:96-110 | A header yields at most one URL per `,`-separated entry. |
| LinkHeader.NextLinksPanicIff | src/main.rs:96-110 | A header panics exactly when one of its `,`-separated entries panics. |
| LinkHeader.CollectPanicsIff | src/main.rs:96-110 | The whole header panics exactly when some entry panics, including an entry after a qualifying one. |
| LinkHeader.FirstQualifyingEntryWins | src/main.rs:110-115 | Without a panic, the first URL collected is the one from the first qualifying entry, and that is the URL the loop follows. |
| LinkHeader.NoPanicFound | src/main.rs:96-110 | When no entry panics, the header yields a list of URLs. |
| LinkHeader.NoQualifyingEntry | src/main.rs:110-114 | When every entry is skipped, the list is empty, so the loop stops. |
| LinkHeader.NextTargets | src/main.rs:104-109 | The reference list of the targets that carry ` rel="next"` is no longer than the list of links. |
| LinkHeader.TargetOfBracketed | src/main.rs:99-103 | The slice of `<t>` is `t` when `t` has no `>`. |
| LinkHeader.LinkRoundTrip | src/main.rs:97-109 | A formatted well-formed link, with or without a leading space, yields its target exactly when it carries ` rel="next"`; any other relation is skipped. |
| LinkHeader.HeaderRoundTrip | src/main.rs:96-110 | A header formatted from any list of well-formed links, the empty list included, parses to exactly the targets that carry ` rel="next"`, in header order. |
| LinkHeader.GitHubFirstPage | src/main.rs:96-115 | `<next>; rel="next", <last>; rel="last"` yields only `next`. |
| LinkHeader.UnspacedNextIgnored | src/main.rs:104-109 | `rel="next"` without its leading space is not recognised. |
| LinkHeader.LoneBracketPanics | src/main.rs:99-103 | An entry whose first segment is just `>` makes the slice `[1..0]` panic, whatever the parameters are. |
| GsvSearch.Config.Orgs | src/main.rs:57-65 | With no defaults table or no organisation list the result is empty; otherwise there is one `org:<name>` per name, in order. |
| GsvSearch.SearchParams | src/main.rs:69-72 | No parameters and no organisations give the empty search string. |
| GsvSearch.SearchParamsKeepOrder | src/main.rs:69-72 | For space-free parameters and organisation names, the search string splits back into the parameters followed by the qualifiers. |
| GsvSearch.SearchUrl | src/main.rs:74 | The first URL is the configured base URL followed by `/search/code?q=` and the encoded search string. |
| GsvSearch.RequestHeaders | src/main.rs:84-87 | The headers `github_search` sets on a request are exactly `user-agent`, `accept` and `authorization`: the fixed user agent, the text-match media type and `token <token>`. |
| GsvSearch.TurnAt | src/main.rs:83-120 | One turn of the loop goes on exactly when the page leads to its first `next` URL, and then with that page's results; a status other than 200 stops it with that status; a 200 page without a `next` link stops it normally, and only such a page does; a URL the transport cannot fetch stops it with a transport error naming that URL; a `link` header whose parse panics stops it with a panic; a page with a `next` URL whose body does not decode stops it with an invalid-body error. |
| GsvSearch.Crawl | src/main.rs:81-131 | The reference definition of the loop, built from `TurnAt`. It has no contract of its own; `CrawlBounds`, `CrawlFollowsChain`, `CrawlPrintsAllButLast` and `PaginationCompletes` state what it does. |
| GsvSearch.CrawlBounds | src/main.rs:81-131 | The loop never makes more requests than the bound; when it makes any, the first is the start URL; when it is stopped by the bound, it made exactly that many requests. |
| GsvSearch.ReadPage | src/main.rs:83-120 | One turn of the loop (request, status check, `link` header, then body) ends or goes on exactly as `TurnAt` says: a transport failure, a non-200 status, a missing header, a panicking parse, an empty `next` list or an undecodable body each end it, and otherwise it goes on to the first `next` URL with that page's results. |
| GsvSearch.PrintResults | src/main.rs:122-130 | A page's results are printed after the earlier ones, in page order. |
| GsvSearch.FollowPages | src/main.rs:81-131 | The imperative loop requests, prints and ends exactly as `Crawl` says. |
| GsvSearch.GitHubSearch | src/main.rs:68-134 | The search starts at `<url>/search/code?q=<encoded search string>` and then behaves as `Crawl` with the `Link` reading of `LinkHeader`. |
| GsvSearch.NotOkStops | src/main.rs:90-92 | Any status other than 200 ends the search with that status after one request, and nothing of that page is printed. |
| GsvSearch.LastPageNotRead | src/main.rs:94-118 | A page with no `link` header, or none with a `next` entry, ends the search without printing that page. |
| GsvSearch.CrawlContinues | src/main.rs:112-120 | A run that goes past its first page does so through that page's first `next` URL; that page's results come first. |
| GsvSearch.FollowStep | src/main.rs:112-130 | A page that answers 200 with a `next` link and a decodable body is followed by the search from its first `next` URL, after that page's results. |
| GsvSearch.CrawlFollowsChain | src/main.rs:81-131 | Every run requests a chain: each URL is the first `next` link of the one before. |
| GsvSearch.CrawlPrintsAllButLast | src/main.rs:112-130 | Every run prints the results of all its requested pages except the last, in order; when stopped by the bound, it prints all of them. |
| GsvSearch.ChainCrawl | src/main.rs:81-131 | Following a chain requests it, prints every page but the last, and then continues as a search from the last URL. |
| GsvSearch.PaginationCompletes | src/main.rs:81-131 | For pages P1..Pn linked in a chain, with Pn the last, the search requests exactly P1..Pn, prints P1..Pn-1 in order and ends normally. |
| GsvSearch.FailureMidPagination | src/main.rs:81-131 | A failing status part-way through ends the search with that status, after the earlier pages have been printed. |
| GsvSearch.SelfLinkNeverEnds | src/main.rs:81-115 | A page whose `next` link is itself is requested again until the bound stops the loop. |
| GsvSearch.MoreFuelSameOutcome | src/main.rs:81-131 | A run that ends before the bound ends the same way with any larger bound. |
| GsvSearch.SinglePageLost | src/main.rs:112-120 | One page with a result and no `link` header: the program prints nothing, while the intended loop prints the result. |
| GsvSearch.CrawlEveryPage | src/main.rs:112-130 | The intended loop, which prints each page before inspecting its links, never exceeds the bound and starts at the start URL. |
| GsvSearch.EveryPagePrinted | src/main.rs:112-130 | Under the intended loop, a chain P1..Pn ending at a last page prints the results of all of P1..Pn, in order. |
| GitHubClient.ReadResponse | lib/github-client.js:50-61 | A status above 399 is an error carrying that status and the raw body; any other status is a success exactly when the body decodes to an object or array, and then carries the decoded body, the status and the headers; a body that does not decode is an error, and one that decodes to `null` or a primitive is a `TypeError`; a failed fetch is an error. The error for a status above 399 has the message `expected response.status to be <400, got ` followed by the status in decimal. |
| GitHubClient.ErrorStatusSkipsDecode | lib/github-client.js:50-57 | A status above 399 never looks at the JSON decoder. |
| GitHubClient.Client.constructor | lib/github-client.js:11-16 | `url` and `token` are stored as given; a missing `defaults` becomes an empty object; a missing `username` becomes `(anon)`. |
| GitHubClient.Client.UserAgent | lib/github-client.js:45 | The user agent starts with `gsv cli (github search vehicle`, ends with `)`, and between them holds `, user=<username>` when the username is non-empty and nothing otherwise. |
| GitHubClient.Client.UserAgentNamesUser | lib/github-client.js:45 | The user agent contains `, user=<username>` exactly when the username is non-empty. |
| GitHubClient.Client.Headers | lib/github-client.js:43-47 | The headers are `authorization` and `user-agent` plus every caller header; a caller header wins over a default of the same name; a default is used when the caller does not give one. |
| GitHubClient.Client.RequestUrl | lib/github-client.js:41-42 | The URL is base plus path, followed by `?` and the query exactly when the stringified query is non-empty. |
| GitHubClient.Client.Prepare | lib/github-client.js:40-48 | Missing options, headers or query default to empty; the request gets the URL and the merged headers built from them. |
| GitHubClient.Client.Request | lib/github-client.js:40-69 | A status above 399 of the fetched response rejects with that status and its body; a status of 399 or below resolves exactly when the body decodes to an object or array, and then the resolved body is the decoded one and the status and headers are those of the response; a failed fetch rejects. |
| GitHubClient.Client.GetSelf | lib/github-client.js:22-24 | With an empty query stringified to the empty string, `getSelf` fetches `/user` under the base URL with no `?` and only the default headers, and reads the answer as any request does. |
| GitHubClient.Client.GetOrgs | lib/github-client.js:18-20 | With an empty query stringified to the empty string, `getOrgs` fetches `/user/orgs` under the base URL with no `?` and only the default headers, and reads the answer as any request does. |
| GitHubClient.Client.SearchTerms | lib/github-client.js:32-35 | `q` fails with a `TypeError` exactly when `defaults.orgs` is undefined; otherwise it is the terms followed by the qualifiers. |
| GitHubClient.Client.Search | lib/github-client.js:26-38 | With undefined `defaults.orgs` the search rejects with a `TypeError` and fetches nothing; otherwise it fetches `/search/code` with `q` as its only query field and the text-match `accept` header, and reads the answer as `request` does. |
| GitHubClient.Client.SearchHeaders | lib/github-client.js:27-30 | A search request carries exactly `authorization`, `user-agent` and the text-match `accept`. |
| GitHubClient.Client.CallerOverridesDefault | lib/github-client.js:43-47 | A caller header replaces the default of the same name and leaves the other default alone. |
| GitHubClient.Client.SearchTermsKeepOrder | lib/github-client.js:32-35 | For space-free terms and organisation names, `q` splits back into the terms followed by the qualifiers. |

## Findings

| source | as written | input that shows it | evidently intended | confidence | as-written member | corrected member |
|---|---|---|---|---|---|---|
| src/main.rs:112-120 | The loop `break`s on a page without a `next` link before it decodes or prints that page, so the last page of every search is never printed. | One URL answering 200, with no `link` header and one result: nothing is printed. | Every page's results are printed, the last one included. | not executed; medium (the loop may have been left like this deliberately, but a one-page search then prints nothing) | GsvSearch.SinglePageLost | GsvSearch.EveryPagePrinted |

`GsvSearch.Crawl`, `GsvSearch.FollowPages` and `GsvSearch.GitHubSearch` keep the behaviour as written, because they model the program. `GsvSearch.CrawlEveryPage` is the corrected loop, and `GsvSearch.EveryPagePrinted` proves the intended property about it.

## Left out

- The network, console output and logging:
  - HTTP is an input to the model. `surf::get`, node-fetch and `response.text()` become either a map from URL to page (Rust) or a `fetch` function parameter (JavaScript).
  - The `println!` of `url=` and `link=`, and the JavaScript `console.log(link)` and `bole` logger, write only to the console. The model does not describe console output.
- The web map ignores both the request headers and the `?q=` encoding. A page is looked up by URL text alone.
- GsvSearch.RequestHeaders: the page loop looks pages up by URL alone, so the model does not tie these headers to each request it makes; it states only which headers `github_search` sets.
- GsvSearch.Crawl: the fuel bound is not in the program.
  - The bound only cuts off runs that would otherwise keep going. `SelfLinkNeverEnds` shows that such runs exist.
  - `MoreFuelSameOutcome` shows that any run that ends does so independently of the bound.
- GsvSearch.GitHubSearch: requires a token. `config.token.as_ref().unwrap()` (`src/main.rs:87`) would panic without one, and `main` never calls the search without one (`src/main.rs:154-157`).
- These foreign functions are parameters, not models:
  - `urlencoding::encode`
  - `querystring.stringify`
  - `response.json()` and `body_json`
  - whether a decoded JSON value is an object or array (which strict mode needs for the symbol-keyed assignment at `lib/github-client.js:60`)
- Printing a search result is modelled as appending it to the printed sequence. These parts of the printing are not modelled:
  - its colouring
  - the regex highlighting of fragments (`src/main.rs:76-80`, `122-129`)
  - the `text_matches.unwrap()` panic on a result without matches
- GsvSearch.SearchError: the error messages of the Rust side are not modelled. Only the status of an unexpected answer is. The Display text of `surf`'s status includes a reason phrase that is not visible in this code.
- Byte indexing is not modelled. Rust string slices and `rfind` work on UTF-8 byte offsets, and the model uses character positions throughout.
  - The one place where this matters is kept: `[1..end]` panics when the first character is not a single byte.
  - Apart from that, the slice taken is the same.
- The `Config::default_url` value (`https://api.github.com`) is not modelled. It is applied by the TOML deserialiser, which this model does not include. `Config` starts from an already-loaded record.
- `main`, `setup`, the `.gsvrc` reading and the argument vector are not modelled. The same goes for `gsv.js`, `lib/setup.js` and `lib/search.js`: they are the callers of the core, not the core.
- The hidden-symbol attachment of status and headers to the decoded body is not modelled as such. `Envelope` returns them beside the body instead.
- GitHubClient.Client.Headers: JavaScript header names are compared exactly as written. node-fetch's case-insensitive merging of header names is not modelled, and neither is key order.
- GitHubClient.Client.SearchTerms: `terms` is a list of strings. Array `concat` flattening of a non-array argument is not modelled, and neither are element-to-string conversions.
- GitHubClient.Client.constructor: JavaScript truthiness is modelled only for strings. An empty username counts as "no user". Other falsy values cannot be passed, because fields are typed.
