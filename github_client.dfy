/** The JavaScript API client (`lib/github-client.js`): a `Client` whose fields
    are set once by its constructor, and the requests it builds from them.

    `fetch` (the network), `querystring.stringify` and `response.json()` are
    foreign code; each is a function parameter here. Instead of attaching the
    status and headers to the decoded body under hidden symbol keys, a
    successful request returns them beside the body in an `Envelope`. */
module GitHubClient {
  import opened Wrappers
  import opened Text
  import SearchQuery

  /** The `defaults` object of the configuration. */
  datatype Defaults = Defaults(orgs: Option<seq<string>>)

  /** The second argument of `request`; an absent field is `undefined`. */
  datatype RequestOptions = RequestOptions(headers: Option<map<string, string>>, query: Option<map<string, string>>)

  /** What is handed to `fetch`. */
  datatype HttpRequest = HttpRequest(url: string, headers: map<string, string>)

  /** What `fetch` settles with: a rejection, or a response. */
  datatype FetchResult =
    | NetworkFailure
    | Response(status: nat, headers: map<string, string>, text: string)

  /** The decoded body with the response's status and headers beside it. */
  datatype Envelope<J> = Envelope(body: J, status: nat, headers: map<string, string>)

  /** Why a request's promise rejects. */
  datatype ClientError =
    | TypeError                                           // `.map` of an undefined `defaults.orgs`, or a property set on `null` or a primitive
    | FetchFailed                                         // `fetch` rejected
    | StatusError(message: string, status: nat, body: string)  // the `RangeError` for a status above 399
    | InvalidJson                                         // `response.json()` rejected

  /** A template literal renders `undefined` as the text "undefined". */
  function Interpolate(v: Option<string>): string
  {
    if v.Some? then v.value else "undefined"
  }

  /** The product part of the user agent, before the optional user. */
  const Product: string := "gsv cli (github search vehicle"

  const SearchAccept: string := "application/vnd.github.v3.text-match+json"

  /** `t` occurs in `s` at position `i`. */
  predicate OccursAt(s: string, t: string, i: int)
  {
    0 <= i <= |s| - |t| && s[i..i + |t|] == t
  }

  ghost predicate Contains(s: string, t: string)
  {
    exists i :: OccursAt(s, t, i)
  }

  /** A text whose first character is missing from `s` occurs nowhere in it. */
  lemma NeverOccurs(s: string, t: string)
    requires |t| > 0 && t[0] !in s
    ensures !Contains(s, t)
  {
    forall i ensures !OccursAt(s, t, i) {
      if 0 <= i <= |s| - |t| {
        assert s[i..i + |t|][0] == s[i];
      }
    }
  }

  /** What `request` makes of the settled `fetch`: a status above 399 rejects
      with that status and the raw body text, without decoding; any other
      status resolves with the decoded body. `decode` stands for
      `response.json()`. Attaching the headers to the decoded body under a
      symbol key throws a `TypeError` in strict mode unless the body is an
      object or an array; `isObject` tells those JSON values apart from
      `null`, numbers, strings and booleans. */
  function ReadResponse<J>(response: FetchResult, decode: string -> Option<J>, isObject: J -> bool): (r: Result<Envelope<J>, ClientError>)
    ensures response.NetworkFailure? ==> r == Err(FetchFailed)
    ensures response.Response? && response.status > 399 ==>
      r.Err? && r.error.StatusError? && r.error.status == response.status && r.error.body == response.text
    ensures response.Response? && response.status > 399 ==>
      r.error.message == "expected response.status to be <400, got " + Decimal(response.status)
    ensures response.Response? && response.status <= 399 ==>
      (r.Ok? <==> decode(response.text).Some? && isObject(decode(response.text).value))
    ensures response.Response? && response.status <= 399 && decode(response.text).None? ==> r == Err(InvalidJson)
    ensures response.Response? && response.status <= 399 && decode(response.text).Some? && !isObject(decode(response.text).value) ==>
      r == Err(TypeError)
    ensures r.Ok? ==>
      response.Response? && response.status <= 399 &&
      r.value == Envelope(decode(response.text).value, response.status, response.headers)
  {
    match response
    case NetworkFailure => Err(FetchFailed)
    case Response(status, headers, text) =>
      if status > 399 then
        Err(StatusError("expected response.status to be <400, got " + Decimal(status), status, text))
      else
        match decode(text)
        case None => Err(InvalidJson)
        case Some(body) => if isObject(body) then Ok(Envelope(body, status, headers)) else Err(TypeError)
  }

  /** A failing status never consults the decoder: the rejection is the same
      whichever `response.json()` would have been used. */
  lemma ErrorStatusSkipsDecode<J>(response: FetchResult, decode: string -> Option<J>, other: string -> Option<J>,
                                  isObject: J -> bool)
    requires response.Response? && response.status > 399
    ensures ReadResponse(response, decode, isObject) == ReadResponse(response, other, isObject)
  {
  }

  class Client {
    const url: Option<string>
    const token: Option<string>
    const username: string
    const defaults: Defaults

    /** `new Client({url, token, defaults = {}, username = '(anon)'})`: the
        defaults apply only to arguments that are `undefined`. */
    constructor (url: Option<string>, token: Option<string>, defaults: Option<Defaults>, username: Option<string>)
      ensures this.url == url && this.token == token
      ensures this.defaults == if defaults.Some? then defaults.value else Defaults(None)
      ensures this.username == if username.Some? then username.value else "(anon)"
    {
      this.url := url;
      this.token := token;
      this.username := if username.Some? then username.value else "(anon)";
      this.defaults := if defaults.Some? then defaults.value else Defaults(None);
    }

    /** The `user-agent` header: the product, then `, user=<username>` when the
        username is truthy (non-empty), then `)`. */
    function UserAgent(): (ua: string)
      ensures |ua| > |Product| && ua[..|Product|] == Product && ua[|ua| - 1] == ')'
      ensures username != "" ==> ua[|Product|..|ua| - 1] == ", user=" + username
      ensures username == "" ==> |ua| == |Product| + 1
    {
      Product + (if username != "" then ", user=" + username else "") + ")"
    }

    /** The user agent names the user exactly when the username is non-empty. */
    lemma UserAgentNamesUser()
      ensures Contains(UserAgent(), ", user=" + username) <==> username != ""
    {
      var ua := UserAgent();
      var t := ", user=" + username;
      if username != "" {
        assert OccursAt(ua, t, |Product|);
      } else {
        assert ua == Product + ")";
        NeverOccurs(ua, t);
      }
    }

    /** The headers of a request: `authorization` and `user-agent`, each
        replaced by a caller header of the same name, plus every other caller
        header. */
    function Headers(extra: map<string, string>): (h: map<string, string>)
      ensures h.Keys == {"authorization", "user-agent"} + extra.Keys
      ensures forall k :: k in extra ==> h[k] == extra[k]
      ensures "authorization" !in extra ==> h["authorization"] == "token " + Interpolate(token)
      ensures "user-agent" !in extra ==> h["user-agent"] == UserAgent()
    {
      map["authorization" := "token " + Interpolate(token), "user-agent" := UserAgent()] + extra
    }

    /** `${this.url}${url}${q ? '?' + q : ''}` with `q` the stringified query:
        a `?` and the query follow the path only when `q` is non-empty. */
    function RequestUrl(path: string, query: map<string, string>, stringify: map<string, string> -> string): (u: string)
      ensures |u| >= |Interpolate(url) + path| && u[..|Interpolate(url) + path|] == Interpolate(url) + path
      ensures |u| == |Interpolate(url) + path| <==> stringify(query) == ""
      ensures stringify(query) != "" ==> u[|Interpolate(url) + path|..] == "?" + stringify(query)
    {
      var q := stringify(query);
      Interpolate(url) + path + (if q != "" then "?" + q else "")
    }

    /** What `request(url, {headers = {}, query = {}} = {})` hands to `fetch`. */
    function Prepare(path: string, options: Option<RequestOptions>, stringify: map<string, string> -> string): (req: HttpRequest)
      ensures var o := if options.Some? then options.value else RequestOptions(None, None);
        req.url == RequestUrl(path, if o.query.Some? then o.query.value else map[], stringify) &&
        req.headers == Headers(if o.headers.Some? then o.headers.value else map[])
    {
      var o := if options.Some? then options.value else RequestOptions(None, None);
      var headers := if o.headers.Some? then o.headers.value else map[];
      var query := if o.query.Some? then o.query.value else map[];
      HttpRequest(RequestUrl(path, query, stringify), Headers(headers))
    }

    /** `request`: one GET of `this.url + path` with the prepared URL and
        headers; a status above 399 rejects with that status and body; any
        other status resolves exactly when the body decodes to an object, and
        then with the decoded body and the status and headers of that very
        response. */
    function Request<J>(path: string, options: Option<RequestOptions>, stringify: map<string, string> -> string,
                        fetch: HttpRequest -> FetchResult, decode: string -> Option<J>, isObject: J -> bool)
      : (r: Result<Envelope<J>, ClientError>)
      ensures var response := fetch(Prepare(path, options, stringify));
        response.Response? && response.status > 399 ==>
          r.Err? && r.error.StatusError? && r.error.status == response.status && r.error.body == response.text
      ensures var response := fetch(Prepare(path, options, stringify));
        r.Ok? ==> response.Response? && r.value.status == response.status && r.value.headers == response.headers
      ensures fetch(Prepare(path, options, stringify)).NetworkFailure? ==> r == Err(FetchFailed)
      ensures var response := fetch(Prepare(path, options, stringify));
        response.Response? && response.status <= 399 ==>
          (r.Ok? <==> decode(response.text).Some? && isObject(decode(response.text).value))
      ensures var response := fetch(Prepare(path, options, stringify));
        r.Ok? ==> r.value.body == decode(response.text).value
    {
      ReadResponse(fetch(Prepare(path, options, stringify)), decode, isObject)
    }

    /** `getOrgs`: `request('/user/orgs')`. With an empty query it fetches
        `/user/orgs` under the base URL with no `?` and only the default
        headers. */
    function GetOrgs<J>(stringify: map<string, string> -> string, fetch: HttpRequest -> FetchResult,
                        decode: string -> Option<J>, isObject: J -> bool): (r: Result<Envelope<J>, ClientError>)
      ensures stringify(map[]) == "" ==>
        r == ReadResponse(fetch(HttpRequest(Interpolate(url) + "/user/orgs", Headers(map[]))), decode, isObject)
    {
      assert Interpolate(url) + "/user/orgs" + "" == Interpolate(url) + "/user/orgs";
      Request("/user/orgs", None, stringify, fetch, decode, isObject)
    }

    /** `getSelf`: `request('/user')`. With an empty query it fetches `/user`
        under the base URL with no `?` and only the default headers. */
    function GetSelf<J>(stringify: map<string, string> -> string, fetch: HttpRequest -> FetchResult,
                        decode: string -> Option<J>, isObject: J -> bool): (r: Result<Envelope<J>, ClientError>)
      ensures stringify(map[]) == "" ==>
        r == ReadResponse(fetch(HttpRequest(Interpolate(url) + "/user", Headers(map[]))), decode, isObject)
    {
      assert Interpolate(url) + "/user" + "" == Interpolate(url) + "/user";
      Request("/user", None, stringify, fetch, decode, isObject)
    }

    /** The `q` value of `search`: the terms, then one `org:` qualifier per
        default organisation; a `TypeError` when `defaults.orgs` is undefined. */
    function SearchTerms(terms: Option<seq<string>>): (r: Result<string, ClientError>)
      ensures r.Err? <==> defaults.orgs.None?
      ensures r.Err? ==> r.error == TypeError
      ensures r.Ok? ==>
        var ts := if terms.Some? then terms.value else [];
        r.value == SearchQuery.Compose(ts, SearchQuery.OrgFilters(defaults.orgs.value))
    {
      var ts := if terms.Some? then terms.value else [];
      match defaults.orgs
      case None => Err(TypeError)
      case Some(orgs) => Ok(SearchQuery.Compose(ts, SearchQuery.OrgFilters(orgs)))
    }

    /** The options `search` passes to `request`. */
    function SearchOptions(q: string): RequestOptions
    {
      RequestOptions(Some(map["accept" := SearchAccept]), Some(map["q" := q]))
    }

    /** `search(terms = [])`. */
    function Search<J>(terms: Option<seq<string>>, stringify: map<string, string> -> string,
                       fetch: HttpRequest -> FetchResult, decode: string -> Option<J>, isObject: J -> bool)
      : (r: Result<Envelope<J>, ClientError>)
      ensures defaults.orgs.None? ==> r == Err(TypeError)
      ensures defaults.orgs.Some? ==>
        r == ReadResponse(fetch(HttpRequest(RequestUrl("/search/code", map["q" := SearchTerms(terms).value], stringify),
                                            Headers(map["accept" := SearchAccept]))), decode, isObject)
    {
      match SearchTerms(terms)
      case Err(e) => Err(e)
      case Ok(q) => Request("/search/code", Some(SearchOptions(q)), stringify, fetch, decode, isObject)
    }

    /** A search request keeps the default `authorization` and `user-agent`,
        adds `accept` for text matches, and carries no other header. */
    lemma SearchHeaders(q: string, stringify: map<string, string> -> string)
      ensures var h := Prepare("/search/code", Some(SearchOptions(q)), stringify).headers;
        && h.Keys == {"authorization", "user-agent", "accept"}
        && h["accept"] == SearchAccept
        && h["authorization"] == "token " + Interpolate(token)
        && h["user-agent"] == UserAgent()
    {
    }

    /** A caller header replaces the default of the same name and leaves the
        other default alone. */
    lemma CallerOverridesDefault(name: string, value: string)
      ensures Headers(map[name := value])[name] == value
      ensures name != "authorization" ==> Headers(map[name := value])["authorization"] == "token " + Interpolate(token)
      ensures name != "user-agent" ==> Headers(map[name := value])["user-agent"] == UserAgent()
    {
    }

    /** When no term contains a space, the `q` of a search splits back into the
        terms followed by the organisation qualifiers. */
    lemma SearchTermsKeepOrder(terms: seq<string>)
      requires defaults.orgs.Some?
      requires |terms| + |defaults.orgs.value| >= 1
      requires forall k :: 0 <= k < |terms| ==> SearchQuery.IsToken(terms[k])
      requires forall k :: 0 <= k < |defaults.orgs.value| ==> SearchQuery.IsToken(defaults.orgs.value[k])
      ensures SearchTerms(Some(terms)).Ok?
      ensures Split(SearchTerms(Some(terms)).value, ' ') == terms + SearchQuery.OrgFilters(defaults.orgs.value)
    {
      SearchQuery.OrgFiltersAreTokens(defaults.orgs.value);
      SearchQuery.ComposeKeepsOrder(terms, SearchQuery.OrgFilters(defaults.orgs.value));
    }
  }
}
