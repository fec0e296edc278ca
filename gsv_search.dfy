/** The Rust command line (`src/main.rs`): its configuration record, the
    organisation qualifiers it derives, the code-search URL it starts from and
    the loop that follows `next` links from page to page.

    The network is an input: a finite map from URL to the page the server
    answers with. A URL missing from the map is a transport failure. The loop
    has no guard against a `next` link that leads back to a visited page, so
    it is run with a fuel bound that counts requests. */
module GsvSearch {
  import opened Wrappers
  import opened Text
  import SearchQuery
  import LinkHeader

  /** The `[defaults]` table of the configuration file. */
  datatype ConfigDefaults = ConfigDefaults(orgs: Option<seq<string>>)

  /** The configuration file as deserialised. */
  datatype Config = Config(
    url: string,
    username: Option<string>,
    token: Option<string>,
    defaults: Option<ConfigDefaults>)
  {
    /** `Config::orgs`: one `org:<name>` qualifier per configured default
        organisation; none when either table or list is absent. */
    function Orgs(): (r: seq<string>)
      ensures (defaults.None? || defaults.value.orgs.None?) ==> r == []
      ensures defaults.Some? && defaults.value.orgs.Some? ==>
        var names := defaults.value.orgs.value;
        |r| == |names| && forall i :: 0 <= i < |names| ==> r[i] == "org:" + names[i]
    {
      match defaults
      case Some(ConfigDefaults(Some(names))) => SearchQuery.OrgFilters(names)
      case _ => []
    }
  }

  /** The search string: the command-line parameters, then the organisation
      qualifiers, joined by single spaces. */
  function SearchParams(config: Config, params: seq<string>): (q: string)
    ensures |params| == 0 && |config.Orgs()| == 0 ==> q == ""
  {
    SearchQuery.Compose(params, config.Orgs())
  }

  /** The search string keeps every parameter and every qualifier as its own
      space-separated token, parameters first, each group in order. */
  lemma SearchParamsKeepOrder(config: Config, params: seq<string>)
    requires |params| + |config.Orgs()| >= 1
    requires forall k :: 0 <= k < |params| ==> SearchQuery.IsToken(params[k])
    requires config.defaults.Some? && config.defaults.value.orgs.Some? ==>
      forall k :: 0 <= k < |config.defaults.value.orgs.value| ==> SearchQuery.IsToken(config.defaults.value.orgs.value[k])
    ensures Split(SearchParams(config, params), ' ') == params + config.Orgs()
  {
    if config.defaults.Some? && config.defaults.value.orgs.Some? {
      SearchQuery.OrgFiltersAreTokens(config.defaults.value.orgs.value);
    }
    SearchQuery.ComposeKeepsOrder(params, config.Orgs());
  }

  /** The first URL requested: the code-search endpoint under the configured
      base URL, with the percent-encoded search string as `q`. `encode` stands
      for `urlencoding::encode`. */
  function SearchUrl(config: Config, params: seq<string>, encode: string -> string): (u: string)
    ensures |u| >= |config.url| && u[..|config.url|] == config.url
    ensures u[|config.url|..] == "/search/code?q=" + encode(SearchParams(config, params))
  {
    var query := "/search/code" + "?q=" + encode(SearchParams(config, params));
    assert (config.url + query)[..|config.url|] == config.url;
    assert (config.url + query)[|config.url|..] == query;
    config.url + query
  }

  /** The headers sent with every page request. */
  function RequestHeaders(token: string): (h: map<string, string>)
    ensures h.Keys == {"user-agent", "accept", "authorization"}
    ensures h["user-agent"] == "gsv (github search vehicle)"
    ensures h["authorization"] == "token " + token
    ensures h["accept"] == "application/vnd.github.v3.text-match+json"
  {
    map[
      "user-agent" := "gsv (github search vehicle)",
      "accept" := "application/vnd.github.v3.text-match+json",
      "authorization" := "token " + token]
  }

  // ---- The network, as an input ----

  /** What `body_json` makes of a page's body. */
  datatype Body<T> = Items(items: seq<T>) | Undecodable

  /** One server answer: the status, the `link` header if any, and the body. */
  datatype Page<T> = Page(status: nat, link: Option<string>, body: Body<T>)

  datatype SearchError =
    | Transport(url: string)          // the request itself failed
    | UnexpectedStatus(status: nat)   // `Unexpected status=...`
    | InvalidBody                     // `body_json` failed

  /** Why the loop stopped. */
  datatype End =
    | Done                    // `break`, then `Ok(())`
    | Failed(error: SearchError)
    | Panicked                // the link slice panicked
    | FuelExhausted           // the model's request bound was reached

  /** What one search did: the URLs it requested in order, the search results
      it printed in order, and how it ended. */
  datatype Outcome<T> = Outcome(requested: seq<string>, printed: seq<T>, end: End)

  /** An outcome preceded by earlier requests and earlier printed results. */
  function Prefixed<T>(requested: seq<string>, printed: seq<T>, o: Outcome<T>): Outcome<T>
  {
    Outcome(requested + o.requested, printed + o.printed, o.end)
  }

  lemma PrefixedTwice<T>(r1: seq<string>, p1: seq<T>, r2: seq<string>, p2: seq<T>, o: Outcome<T>)
    ensures Prefixed(r1, p1, Prefixed(r2, p2, o)) == Prefixed(r1 + r2, p1 + p2, o)
  {
    assert r1 + (r2 + o.requested) == (r1 + r2) + o.requested;
    assert p1 + (p2 + o.printed) == (p1 + p2) + o.printed;
  }

  /** What one turn of the loop makes of the page at `url`: either the loop
      ends there, or it prints that page's results and goes on to `next`. */
  datatype Turn<T> = Stop(end: End) | Go(next: string, items: seq<T>)

  /** One turn of the loop. The `link` header is read before the body, and a
      page is decoded only when it offers a `next` link: the loop goes on
      exactly when the page leads on to its first `next` URL, and then with
      that page's results; a missing page stops it with a transport failure, a
      status other than 200 with that status, a panicking `link` parse with a
      panic, an undecodable body after a `next` link with a decoding failure,
      and a last page stops it normally. */
  function TurnAt<T>(web: map<string, Page<T>>, scan: string -> LinkHeader.LinkScan, url: string): (t: Turn<T>)
    ensures t.Go? ==> FollowsTo(web, scan, url, t.next) && t.items == web[url].body.items
    ensures forall to :: FollowsTo(web, scan, url, to) ==> t == Go(to, web[url].body.items)
    ensures url in web && web[url].status != 200 ==> t == Stop(Failed(UnexpectedStatus(web[url].status)))
    ensures IsLastPage(web, scan, url) <==> t == Stop(Done)
    ensures url !in web ==> t == Stop(Failed(Transport(url)))
    ensures url in web && web[url].status == 200 && web[url].link.Some? && scan(web[url].link.value).Panicked? ==>
      t == Stop(Panicked)
    ensures (&& url in web && web[url].status == 200 && web[url].link.Some?
             && scan(web[url].link.value).Found? && |scan(web[url].link.value).urls| >= 1
             && web[url].body.Undecodable?) ==> t == Stop(Failed(InvalidBody))
  {
    if url !in web then Stop(Failed(Transport(url)))
    else
      var page := web[url];
      if page.status != 200 then Stop(Failed(UnexpectedStatus(page.status)))
      else if page.link.None? then Stop(Done)
      else
        match scan(page.link.value)
        case Panicked => Stop(Panicked)
        case Found(next) =>
          if |next| == 0 then Stop(Done)
          else if page.body.Undecodable? then Stop(Failed(InvalidBody))
          else Go(next[0], page.body.items)
  }

  /** The loop from `url` on, with `fuel` requests left. A page's results are
      printed only after a `next` URL has been taken from it, so the page that
      ends the loop is never printed. */
  function Crawl<T>(web: map<string, Page<T>>, scan: string -> LinkHeader.LinkScan, url: string, fuel: nat): Outcome<T>
    decreases fuel
  {
    if fuel == 0 then Outcome([], [], FuelExhausted)
    else
      match TurnAt(web, scan, url)
      case Stop(end) => Outcome([url], [], end)
      case Go(next, items) => Prefixed([url], items, Crawl(web, scan, next, fuel - 1))
  }

  /** The loop never makes more requests than the bound allows; when it makes
      any, the first goes to the start URL; when the bound stops it, it has
      used every request. */
  lemma {:induction false} CrawlBounds<T>(web: map<string, Page<T>>, scan: string -> LinkHeader.LinkScan, url: string, fuel: nat)
    ensures var o := Crawl(web, scan, url, fuel);
      && |o.requested| <= fuel
      && (fuel > 0 ==> |o.requested| >= 1 && o.requested[0] == url)
      && (o.end == FuelExhausted ==> |o.requested| == fuel)
    decreases fuel
  {
    if fuel > 0 && TurnAt(web, scan, url).Go? {
      CrawlBounds(web, scan, TurnAt(web, scan, url).next, fuel - 1);
    }
  }

  /** `for result in response_data.items`: each search result of a page is
      printed, in the order of the page. */
  method PrintResults<T>(printed: seq<T>, items: seq<T>) returns (out: seq<T>)
    ensures out == printed + items
  {
    out := printed;
    for i := 0 to |items|
      invariant out == printed + items[..i]
    {
      out := out + [items[i]];
    }
    assert items[..|items|] == items;
  }

  /** `github_search`: builds the search URL from the configuration and the
      parameters, then runs the page loop with the `Link` reading of
      `LinkHeader`. */
  method GitHubSearch<T>(config: Config, params: seq<string>, encode: string -> string,
                         web: map<string, Page<T>>, fuel: nat)
    returns (outcome: Outcome<T>)
    requires config.token.Some?
    ensures outcome == Crawl(web, LinkHeader.NextLinks, SearchUrl(config, params, encode), fuel)
  {
    var url := config.url + "/search/code" + "?q=" + encode(SearchParams(config, params));
    assert url == SearchUrl(config, params, encode);
    outcome := FollowPages(web, LinkHeader.NextLinks, url, fuel);
  }

  /** The `loop` of `github_search`: `url` is reassigned to the first `next`
      link of each page; `scan` reads a `link` header. */
  method FollowPages<T>(web: map<string, Page<T>>, scan: string -> LinkHeader.LinkScan, start: string, fuel: nat)
    returns (outcome: Outcome<T>)
    ensures outcome == Crawl(web, scan, start, fuel)
  {
    var url := start;
    var requested: seq<string> := [];
    var printed: seq<T> := [];
    var left := fuel;
    while true
      invariant Prefixed(requested, printed, Crawl(web, scan, url, left)) == Crawl(web, scan, start, fuel)
      decreases left
    {
      if left == 0 {
        BoundReached(web, scan, start, fuel, requested, printed, url);
        return Outcome(requested, printed, FuelExhausted);
      }
      var turn := ReadPage(web, scan, url);
      if turn.Stop? {
        StopsAt(web, scan, start, fuel, requested, printed, url, left, turn.end);
        return Outcome(requested + [url], printed, turn.end);
      }
      GoesOn(web, scan, start, fuel, requested, printed, url, left, turn.next, turn.items);
      requested := requested + [url];
      printed := PrintResults(printed, turn.items);
      url := turn.next;
      left := left - 1;
    }
  }

  /** The body of the loop for the page at `url`: the request, the status
      check, the `link` header and then the body. It restates `TurnAt` as the
      early exits of the program's loop body, in source order. */
  method ReadPage<T>(web: map<string, Page<T>>, scan: string -> LinkHeader.LinkScan, url: string) returns (turn: Turn<T>)
    ensures turn == TurnAt(web, scan, url)
  {
    if url !in web {
      return Stop(Failed(Transport(url)));
    }
    var response := web[url];
    if response.status != 200 {
      return Stop(Failed(UnexpectedStatus(response.status)));
    }
    if response.link.None? {
      return Stop(Done);
    }
    var next := scan(response.link.value);
    if next.Panicked? {
      return Stop(Panicked);
    }
    if |next.urls| == 0 {
      return Stop(Done);
    }
    if response.body.Undecodable? {
      return Stop(Failed(InvalidBody));
    }
    return Go(next.urls[0], response.body.items);
  }

  /** `FollowPages` with no requests left. */
  lemma BoundReached<T>(web: map<string, Page<T>>, scan: string -> LinkHeader.LinkScan, start: string, fuel: nat,
                        requested: seq<string>, printed: seq<T>, url: string)
    requires Prefixed(requested, printed, Crawl(web, scan, url, 0)) == Crawl(web, scan, start, fuel)
    ensures Outcome(requested, printed, FuelExhausted) == Crawl(web, scan, start, fuel)
  {
    assert requested + [] == requested && printed + [] == printed;
  }

  /** A turn of `FollowPages` that ends the loop at `url`. */
  lemma StopsAt<T>(web: map<string, Page<T>>, scan: string -> LinkHeader.LinkScan, start: string, fuel: nat,
                   requested: seq<string>, printed: seq<T>, url: string, left: nat, end: End)
    requires left > 0 && TurnAt(web, scan, url) == Stop(end)
    requires Prefixed(requested, printed, Crawl(web, scan, url, left)) == Crawl(web, scan, start, fuel)
    ensures Outcome(requested + [url], printed, end) == Crawl(web, scan, start, fuel)
  {
    assert printed + [] == printed;
  }

  /** A turn of `FollowPages` that prints the page at `url` and goes on. */
  lemma GoesOn<T>(web: map<string, Page<T>>, scan: string -> LinkHeader.LinkScan, start: string, fuel: nat,
                  requested: seq<string>, printed: seq<T>, url: string, left: nat, next: string, items: seq<T>)
    requires left > 0 && TurnAt(web, scan, url) == Go(next, items)
    requires Prefixed(requested, printed, Crawl(web, scan, url, left)) == Crawl(web, scan, start, fuel)
    ensures Prefixed(requested + [url], printed + items, Crawl(web, scan, next, left - 1)) == Crawl(web, scan, start, fuel)
  {
    PrefixedTwice(requested, printed, [url], items, Crawl(web, scan, next, left - 1));
  }

  // ---- Properties of the loop ----

  /** `from` answers 200 with a decodable body and a `link` header whose first
      `next` URL is `to`: the loop goes on from `from` to `to`. */
  ghost predicate FollowsTo<T>(web: map<string, Page<T>>, scan: string -> LinkHeader.LinkScan, from: string, to: string)
  {
    && from in web
    && web[from].status == 200
    && web[from].link.Some?
    && scan(web[from].link.value).Found?
    && |scan(web[from].link.value).urls| >= 1
    && scan(web[from].link.value).urls[0] == to
    && web[from].body.Items?
  }

  /** Each URL is the `next` link of the one before it. */
  ghost predicate IsChain<T>(web: map<string, Page<T>>, scan: string -> LinkHeader.LinkScan, urls: seq<string>)
  {
    forall i :: 0 <= i < |urls| - 1 ==> FollowsTo(web, scan, urls[i], urls[i + 1])
  }

  /** `url` answers 200 and offers no `next` link: the loop stops there. */
  ghost predicate IsLastPage<T>(web: map<string, Page<T>>, scan: string -> LinkHeader.LinkScan, url: string)
  {
    && url in web
    && web[url].status == 200
    && (web[url].link.None? || scan(web[url].link.value) == LinkHeader.Found([]))
  }

  /** The results of the given pages, in order (a page without decodable
      results contributes none). */
  ghost function ItemsOf<T>(web: map<string, Page<T>>, urls: seq<string>): seq<T>
  {
    if |urls| == 0 then []
    else
      (if urls[0] in web && web[urls[0]].body.Items? then web[urls[0]].body.items else [])
      + ItemsOf(web, urls[1..])
  }

  lemma {:induction false} ItemsOfAppend<T>(web: map<string, Page<T>>, a: seq<string>, b: seq<string>)
    ensures ItemsOf(web, a + b) == ItemsOf(web, a) + ItemsOf(web, b)
    decreases |a|
  {
    if |a| > 0 {
      assert (a + b)[1..] == a[1..] + b;
      ItemsOfAppend(web, a[1..], b);
    } else {
      assert a + b == b;
    }
  }

  /** Any status but 200 ends the search with that status, whatever the page's
      `link` header and body are. */
  lemma NotOkStops<T>(web: map<string, Page<T>>, scan: string -> LinkHeader.LinkScan, url: string, fuel: nat)
    requires fuel > 0 && url in web && web[url].status != 200
    ensures Crawl(web, scan, url, fuel) == Outcome([url], [], Failed(UnexpectedStatus(web[url].status)))
  {
  }

  /** A page without a `next` link ends the search, and its results are not
      printed: a search whose first page has no `link` header prints nothing. */
  lemma LastPageNotRead<T>(web: map<string, Page<T>>, scan: string -> LinkHeader.LinkScan, url: string, fuel: nat)
    requires fuel > 0 && IsLastPage(web, scan, url)
    ensures Crawl(web, scan, url, fuel) == Outcome([url], [], Done)
  {
  }

  /** One turn of the loop that goes on: the page's results come before
      whatever the search from its first `next` link prints. */
  lemma CrawlContinues<T>(web: map<string, Page<T>>, scan: string -> LinkHeader.LinkScan, url: string, fuel: nat)
    requires fuel > 0 && TurnAt(web, scan, url).Go?
    ensures FollowsTo(web, scan, url, TurnAt(web, scan, url).next)
    ensures TurnAt(web, scan, url).items == web[url].body.items
    ensures Crawl(web, scan, url, fuel)
         == Prefixed([url], web[url].body.items, Crawl(web, scan, TurnAt(web, scan, url).next, fuel - 1))
  {
  }

  /** Every run requests a chain of pages, each the first `next` link of the
      one before. */
  lemma {:induction false} CrawlFollowsChain<T>(web: map<string, Page<T>>, scan: string -> LinkHeader.LinkScan, url: string, fuel: nat)
    ensures IsChain(web, scan, Crawl(web, scan, url, fuel).requested)
    decreases fuel
  {
    if fuel > 0 && TurnAt(web, scan, url).Go? {
      var o := Crawl(web, scan, url, fuel);
      var next := TurnAt(web, scan, url).next;
      CrawlContinues(web, scan, url, fuel);
      var rest := Crawl(web, scan, next, fuel - 1);
      CrawlFollowsChain(web, scan, next, fuel - 1);
      forall i | 0 <= i < |o.requested| - 1
        ensures FollowsTo(web, scan, o.requested[i], o.requested[i + 1])
      {
        if i > 0 {
          assert o.requested[i] == rest.requested[i - 1];
          assert o.requested[i + 1] == rest.requested[i];
        }
      }
    }
  }

  /** Every run prints the results of all the pages it requested but the last
      one; when the fuel bound stops it, of all of them. */
  lemma {:induction false} CrawlPrintsAllButLast<T>(web: map<string, Page<T>>, scan: string -> LinkHeader.LinkScan, url: string, fuel: nat)
    ensures var o := Crawl(web, scan, url, fuel);
      o.end == FuelExhausted ==> o.printed == ItemsOf(web, o.requested)
    ensures var o := Crawl(web, scan, url, fuel);
      o.end != FuelExhausted ==> |o.requested| >= 1 && o.printed == ItemsOf(web, o.requested[..|o.requested| - 1])
    decreases fuel
  {
    if fuel > 0 {
      if TurnAt(web, scan, url).Go? {
        CrawlContinues(web, scan, url, fuel);
        var next := TurnAt(web, scan, url).next;
        var rest := Crawl(web, scan, next, fuel - 1);
        CrawlPrintsAllButLast(web, scan, next, fuel - 1);
        ItemsOfOne(web, url);
        if rest.end == FuelExhausted {
          ItemsOfAppend(web, [url], rest.requested);
        } else {
          var shown := rest.requested[..|rest.requested| - 1];
          assert ([url] + rest.requested)[..|rest.requested|] == [url] + shown;
          ItemsOfAppend(web, [url], shown);
        }
      } else {
        assert Crawl(web, scan, url, fuel).requested[..0] == [];
      }
    }
  }

  /** A page that leads on: the search from it is that page followed by the
      search from its `next` link. */
  lemma FollowStep<T>(web: map<string, Page<T>>, scan: string -> LinkHeader.LinkScan, from: string, to: string, fuel: nat)
    requires fuel > 0 && FollowsTo(web, scan, from, to)
    ensures Crawl(web, scan, from, fuel) == Prefixed([from], web[from].body.items, Crawl(web, scan, to, fuel - 1))
  {
  }

  lemma ItemsOfOne<T>(web: map<string, Page<T>>, url: string)
    requires url in web && web[url].body.Items?
    ensures ItemsOf(web, [url]) == web[url].body.items
  {
    assert [url][1..] == [];
  }

  /** A chain of two or more URLs: its first link, and the rest is a chain. */
  lemma ChainTail<T>(web: map<string, Page<T>>, scan: string -> LinkHeader.LinkScan, urls: seq<string>)
    requires |urls| >= 2 && IsChain(web, scan, urls)
    ensures FollowsTo(web, scan, urls[0], urls[1])
    ensures IsChain(web, scan, urls[1..])
    ensures urls[1..][|urls| - 2] == urls[|urls| - 1]
    ensures urls[..|urls| - 1] == [urls[0]] + urls[1..][..|urls| - 2]
  {
    var tail := urls[1..];
    forall i | 0 <= i < |tail| - 1 ensures FollowsTo(web, scan, tail[i], tail[i + 1]) {
      assert FollowsTo(web, scan, urls[i + 1], urls[i + 2]);
    }
  }

  /** Following a chain: the search started at its first URL requests the chain,
      prints the results of every page but the last, and then goes on as a search
      started at the last URL. */
  lemma {:induction false} ChainCrawl<T>(web: map<string, Page<T>>, scan: string -> LinkHeader.LinkScan, urls: seq<string>, fuel: nat)
    requires |urls| >= 1 && IsChain(web, scan, urls)
    requires fuel >= |urls| - 1
    ensures Crawl(web, scan, urls[0], fuel)
         == Prefixed(urls[..|urls| - 1], ItemsOf(web, urls[..|urls| - 1]), Crawl(web, scan, urls[|urls| - 1], fuel - (|urls| - 1)))
    decreases |urls|
  {
    var n := |urls|;
    if n == 1 {
      assert urls[..0] == [];
      assert Prefixed([], [], Crawl(web, scan, urls[0], fuel)) == Crawl(web, scan, urls[0], fuel);
    } else {
      ChainTail(web, scan, urls);
      ChainCrawl(web, scan, urls[1..], fuel - 1);
      PrependPage(web, scan, urls[0], urls[1], fuel, urls[1..][..n - 2], Crawl(web, scan, urls[n - 1], fuel - (n - 1)));
    }
  }

  /** A page that leads on to a search ahead of it in the chain. */
  lemma PrependPage<T>(web: map<string, Page<T>>, scan: string -> LinkHeader.LinkScan, from: string, to: string, fuel: nat,
                       shown: seq<string>, rest: Outcome<T>)
    requires fuel > 0 && FollowsTo(web, scan, from, to)
    requires Crawl(web, scan, to, fuel - 1) == Prefixed(shown, ItemsOf(web, shown), rest)
    ensures Crawl(web, scan, from, fuel) == Prefixed([from] + shown, ItemsOf(web, [from] + shown), rest)
  {
    var items := web[from].body.items;
    calc {
      Crawl(web, scan, from, fuel);
      { FollowStep(web, scan, from, to, fuel); }
      Prefixed([from], items, Prefixed(shown, ItemsOf(web, shown), rest));
      { PrefixedTwice([from], items, shown, ItemsOf(web, shown), rest); }
      Prefixed([from] + shown, items + ItemsOf(web, shown), rest);
      { ItemsOfOne(web, from); ItemsOfAppend(web, [from], shown); }
      Prefixed([from] + shown, ItemsOf(web, [from] + shown), rest);
    }
  }

  /** Pages P1..Pn, each linking to the next and Pn linking nowhere: the search
      requests exactly P1..Pn in order and prints the results of P1..Pn-1 in
      page order; the results of Pn are never printed. */
  lemma PaginationCompletes<T>(web: map<string, Page<T>>, scan: string -> LinkHeader.LinkScan, urls: seq<string>, fuel: nat)
    requires |urls| >= 1 && IsChain(web, scan, urls) && IsLastPage(web, scan, urls[|urls| - 1])
    requires fuel >= |urls|
    ensures Crawl(web, scan, urls[0], fuel) == Outcome(urls, ItemsOf(web, urls[..|urls| - 1]), Done)
  {
    ChainCrawl(web, scan, urls, fuel);
    LastPageNotRead(web, scan, urls[|urls| - 1], fuel - (|urls| - 1));
    assert urls[..|urls| - 1] + [urls[|urls| - 1]] == urls;
  }

  /** A failing status part-way through ends the search with that status; the
      results of the earlier pages have already been printed. */
  lemma FailureMidPagination<T>(web: map<string, Page<T>>, scan: string -> LinkHeader.LinkScan, urls: seq<string>, fuel: nat)
    requires |urls| >= 1 && IsChain(web, scan, urls)
    requires urls[|urls| - 1] in web && web[urls[|urls| - 1]].status != 200
    requires fuel >= |urls|
    ensures Crawl(web, scan, urls[0], fuel)
         == Outcome(urls, ItemsOf(web, urls[..|urls| - 1]), Failed(UnexpectedStatus(web[urls[|urls| - 1]].status)))
  {
    ChainCrawl(web, scan, urls, fuel);
    NotOkStops(web, scan, urls[|urls| - 1], fuel - (|urls| - 1));
    assert urls[..|urls| - 1] + [urls[|urls| - 1]] == urls;
  }

  /** A page whose `next` link is itself is requested again and again: only the
      fuel bound ends the loop. The program has no guard against this. */
  lemma {:induction false} SelfLinkNeverEnds<T>(web: map<string, Page<T>>, scan: string -> LinkHeader.LinkScan, url: string, fuel: nat)
    requires FollowsTo(web, scan, url, url)
    ensures Crawl(web, scan, url, fuel).end == FuelExhausted
    ensures Crawl(web, scan, url, fuel).requested == seq(fuel, _ => url)
    decreases fuel
  {
    if fuel > 0 {
      SelfLinkNeverEnds(web, scan, url, fuel - 1);
      assert [url] + seq(fuel - 1, _ => url) == seq(fuel, _ => url);
    }
  }

  /** The fuel only bounds the loop: a run that ends before the bound ends the
      same way with any larger bound. */
  lemma {:induction false} MoreFuelSameOutcome<T>(web: map<string, Page<T>>, scan: string -> LinkHeader.LinkScan, url: string, fuel: nat, more: nat)
    requires fuel <= more
    requires Crawl(web, scan, url, fuel).end != FuelExhausted
    ensures Crawl(web, scan, url, more) == Crawl(web, scan, url, fuel)
    decreases fuel
  {
    if fuel > 0 && url in web && web[url].status == 200 && web[url].link.Some? {
      var links := scan(web[url].link.value);
      if links.Found? && |links.urls| > 0 && web[url].body.Items? {
        MoreFuelSameOutcome(web, scan, links.urls[0], fuel - 1, more - 1);
      }
    }
  }

  // ---- The last page, as evidently intended ----

  /** The loop with every page printed: each page's results are printed
      before its `link` header decides whether to go on, so the page that ends
      the search is printed too. */
  function CrawlEveryPage<T>(web: map<string, Page<T>>, scan: string -> LinkHeader.LinkScan, url: string, fuel: nat): (o: Outcome<T>)
    ensures |o.requested| <= fuel
    ensures fuel > 0 ==> |o.requested| >= 1 && o.requested[0] == url
    decreases fuel
  {
    if fuel == 0 then Outcome([], [], FuelExhausted)
    else if url !in web then Outcome([url], [], Failed(Transport(url)))
    else
      var page := web[url];
      if page.status != 200 then Outcome([url], [], Failed(UnexpectedStatus(page.status)))
      else if page.body.Undecodable? then Outcome([url], [], Failed(InvalidBody))
      else if page.link.None? then Outcome([url], page.body.items, Done)
      else
        match scan(page.link.value)
        case Panicked => Outcome([url], page.body.items, Panicked)
        case Found(next) =>
          if |next| == 0 then Outcome([url], page.body.items, Done)
          else Prefixed([url], page.body.items, CrawlEveryPage(web, scan, next[0], fuel - 1))
  }

  /** Pages P1..Pn, each linking to the next and Pn linking nowhere: the
      intended loop prints the results of all of P1..Pn, in page order. */
  lemma {:induction false} EveryPagePrinted<T>(web: map<string, Page<T>>, scan: string -> LinkHeader.LinkScan, urls: seq<string>, fuel: nat)
    requires |urls| >= 1 && IsChain(web, scan, urls) && IsLastPage(web, scan, urls[|urls| - 1])
    requires web[urls[|urls| - 1]].body.Items?
    requires fuel >= |urls|
    ensures CrawlEveryPage(web, scan, urls[0], fuel) == Outcome(urls, ItemsOf(web, urls), Done)
    decreases |urls|
  {
    if |urls| == 1 {
      ItemsOfOne(web, urls[0]);
    } else {
      ChainTail(web, scan, urls);
      EveryPagePrinted(web, scan, urls[1..], fuel - 1);
      assert [urls[0]] + urls[1..] == urls;
    }
  }

  /** What the program does instead: a search whose only page holds a result
      ends without printing it, where the intended loop prints it. */
  lemma SinglePageLost<T>(url: string, result: T, scan: string -> LinkHeader.LinkScan)
    ensures Crawl(map[url := Page(200, None, Items([result]))], scan, url, 1) == Outcome([url], [], Done)
    ensures CrawlEveryPage(map[url := Page(200, None, Items([result]))], scan, url, 1) == Outcome([url], [result], Done)
  {
  }
}
