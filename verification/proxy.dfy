/** What the two serverless proxies share: the request method, the upstream
    reply and the response they send. */
module ProxyHttp {
  import opened Wrappers

  datatype Method = Post | OtherMethod(name: string)

  /** A JSON response: status and body. */
  datatype Response = Response(status: int, body: ResponseBody)

  datatype ResponseBody =
    | ErrorBody(error: string, details: Option<string>, upstreamStatus: Option<int>, message: Option<string>)
    | FilesBody(success: bool, files: seq<map<string, string>>)
    | TextBody(success: bool, content: string)

  predicate Ok(status: int) { 200 <= status <= 299 }

  const MethodNotAllowed := Response(405, ErrorBody("Method not allowed", None, None, None))

  /** The catch-all answer to anything thrown inside the handler. */
  function InternalError(message: string): Response {
    Response(500, ErrorBody("Internal server error", None, None, Some(message)))
  }
}

/** The listing proxy (`api/github/browse.ts`) as a decision from the
    request, the server's token and the upstream reply to the response. */
module BrowseProxy {
  import opened Wrappers
  import opened Strings
  import opened ProxyHttp

  /** The request body's fields, each possibly absent (string values only). */
  datatype BrowseBody = BrowseBody(owner: Option<string>, repo: Option<string>, path: Option<string>,
                                   branch: Option<string>)

  /** An upstream entry, as a record of its string-valued fields. */
  type Entry = map<string, string>

  /** The upstream JSON body: unparseable, one object or an array. */
  datatype Listing = Unparseable(message: string) | Single(entry: Entry) | Several(entries: seq<Entry>)

  /** What the upstream fetch gives: a thrown error, or a status, the raw
      text and the parsed listing. */
  datatype Upstream = Unreachable(message: string) | Reply(status: int, text: string, listing: Listing)

  /** The upstream request: URL and `Authorization` header. */
  datatype UpstreamRequest = UpstreamRequest(url: string, authorization: string)

  /** What the handler does: its response and the upstream request, if one was made. */
  datatype Outcome = Outcome(response: Response, upstream: Option<UpstreamRequest>)

  const MissingFields := Response(400, ErrorBody("Missing required fields: owner and repo", None, None, None))
  const NoToken := Response(500, ErrorBody("GitHub token not configured on server", None, None, None))

  /** The nine fields each listed entry is reduced to. */
  const FileFields := {"name", "path", "sha", "size", "url", "html_url", "git_url", "download_url", "type"}

  function Project(e: Entry): (p: Entry)
    ensures forall k :: k in p <==> k in FileFields && k in e
    ensures forall k :: k in p ==> p[k] == e[k]
  {
    map k | k in FileFields && k in e :: e[k]
  }

  function ProjectAll(es: seq<Entry>): (ps: seq<Entry>)
    ensures |ps| == |es| && forall i :: 0 <= i < |es| ==> ps[i] == Project(es[i])
  {
    if es == [] then [] else [Project(es[0])] + ProjectAll(es[1..])
  }

  function UpstreamUrl(owner: string, repo: string, path: string, branch: string): string {
    "https://api.github.com/repos/" + owner + "/" + repo + "/contents/" + path + "?ref=" + branch
  }

  /** The answer to an upstream reply that is not ok. */
  function UpstreamError(status: int, text: string, details404: string): (r: Response)
    ensures r.status == status
    ensures status == 404 ==> r.body == ErrorBody("Repository or path not found", Some(details404), None, None)
    ensures status == 403 ==> r.body == ErrorBody("Rate limit exceeded or access forbidden", Some(text), None, None)
    ensures status != 404 && status != 403 ==>
      r.body == ErrorBody("GitHub API error", Some(text), Some(status), None)
  {
    if status == 404 then Response(404, ErrorBody("Repository or path not found", Some(details404), None, None))
    else if status == 403 then Response(403, ErrorBody("Rate limit exceeded or access forbidden", Some(text), None, None))
    else Response(status, ErrorBody("GitHub API error", Some(text), Some(status), None))
  }

  /** The handler. A missing body fails the destructuring, which the handler
      catches; `bodyMissingMessage` is that error's message. */
  function Handle(m: Method, body: Option<BrowseBody>, bodyMissingMessage: string, token: Option<string>,
                  fetch: UpstreamRequest -> Upstream): (r: Outcome)
    ensures m != Post ==> r == Outcome(MethodNotAllowed, None)
    ensures m == Post && body.Some? && (!Truthy(body.value.owner) || !Truthy(body.value.repo)) ==>
      r == Outcome(MissingFields, None)
    ensures m == Post && body.Some? && Truthy(body.value.owner) && Truthy(body.value.repo) && !Truthy(token) ==>
      r == Outcome(NoToken, None)
    ensures r.upstream.Some? <==>
      m == Post && body.Some? && Truthy(body.value.owner) && Truthy(body.value.repo) && Truthy(token)
    ensures r.upstream.Some? ==>
      var b := body.value;
      r.upstream.value == UpstreamRequest(
        UpstreamUrl(b.owner.value, b.repo.value, b.path.GetOr(""), b.branch.GetOr("main")),
        "token " + token.value)
    ensures m == Post && body.None? ==> r == Outcome(InternalError(bodyMissingMessage), None)
    ensures r.upstream.Some? && fetch(r.upstream.value).Unreachable? ==>
      r.response == InternalError(fetch(r.upstream.value).message)
    ensures r.upstream.Some? && fetch(r.upstream.value).Reply? ==>
      var u := fetch(r.upstream.value);
      var b := body.value;
      (!Ok(u.status) ==>
         r.response == UpstreamError(u.status, u.text, b.owner.value + "/" + b.repo.value + "/" + b.path.GetOr("")))
      && (Ok(u.status) && u.listing.Unparseable? ==> r.response == InternalError(u.listing.message))
      && (Ok(u.status) && u.listing.Single? ==> r.response == Response(200, FilesBody(true, [Project(u.listing.entry)])))
      && (Ok(u.status) && u.listing.Several? ==> r.response == Response(200, FilesBody(true, ProjectAll(u.listing.entries))))
  {
    if m != Post then Outcome(MethodNotAllowed, None)
    else
      match body
      case None => Outcome(InternalError(bodyMissingMessage), None)
      case Some(b) =>
        if !Truthy(b.owner) || !Truthy(b.repo) then Outcome(MissingFields, None)
        else if !Truthy(token) then Outcome(NoToken, None)
        else
          var path := b.path.GetOr("");
          var req := UpstreamRequest(UpstreamUrl(b.owner.value, b.repo.value, path, b.branch.GetOr("main")),
                                     "token " + token.value);
          var resp :=
            match fetch(req)
            case Unreachable(msg) => InternalError(msg)
            case Reply(status, text, listing) =>
              if !Ok(status) then UpstreamError(status, text, b.owner.value + "/" + b.repo.value + "/" + path)
              else
                match listing
                case Unparseable(msg) => InternalError(msg)
                case Single(e) => Response(200, FilesBody(true, [Project(e)]))
                case Several(es) => Response(200, FilesBody(true, ProjectAll(es)));
          Outcome(resp, Some(req))
  }

  /** Every listed entry is sent with only the nine fields, and a success
      lists as many entries as the upstream had (one for a single object). */
  lemma ListedEntriesProjected(m: Method, body: Option<BrowseBody>, msg: string, token: Option<string>,
                               fetch: UpstreamRequest -> Upstream)
    ensures var r := Handle(m, body, msg, token, fetch);
      r.response.body.FilesBody? ==>
        r.response.status == 200
        && r.upstream.Some? && fetch(r.upstream.value).Reply?
        && (forall i, k :: 0 <= i < |r.response.body.files| && k in r.response.body.files[i] ==> k in FileFields)
        && |r.response.body.files| == |ListingEntries(fetch(r.upstream.value).listing)|
  {
  }

  function ListingEntries(l: Listing): seq<Entry> {
    match l
    case Unparseable(_) => []
    case Single(e) => [e]
    case Several(es) => es
  }
}

/** The raw-content proxy (`api/github/content.ts`). */
module ContentProxy {
  import opened Wrappers
  import opened Strings
  import opened ProxyHttp

  datatype ContentRequest = ContentRequest(url: Option<string>)

  datatype Upstream = Unreachable(message: string) | Reply(status: int, text: string)

  datatype Outcome = Outcome(response: Response, fetched: Option<string>)

  const MissingUrl := Response(400, ErrorBody("Missing required field: url", None, None, None))
  const BadDomain := Response(400, ErrorBody("Invalid URL domain", None, None, None))

  /** The domain gate: a plain substring test, not a host check. */
  predicate AllowedUrl(url: string) {
    Contains(url, "githubusercontent.com") || Contains(url, "github.com")
  }

  function Handle(m: Method, body: Option<ContentRequest>, bodyMissingMessage: string,
                  fetch: string -> Upstream): (r: Outcome)
    ensures m != Post ==> r == Outcome(MethodNotAllowed, None)
    ensures m == Post && body.Some? && !Truthy(body.value.url) ==> r == Outcome(MissingUrl, None)
    ensures m == Post && body.Some? && Truthy(body.value.url) && !AllowedUrl(body.value.url.value) ==>
      r == Outcome(BadDomain, None)
    ensures r.fetched.Some? <==> m == Post && body.Some? && Truthy(body.value.url) && AllowedUrl(body.value.url.value)
    ensures r.fetched.Some? ==> r.fetched.value == body.value.url.value
    ensures m == Post && body.None? ==> r == Outcome(InternalError(bodyMissingMessage), None)
    ensures r.fetched.Some? && fetch(r.fetched.value).Unreachable? ==>
      r.response == InternalError(fetch(r.fetched.value).message)
    ensures r.fetched.Some? && fetch(r.fetched.value).Reply? ==>
      var u := fetch(r.fetched.value);
      (Ok(u.status) ==> r.response == Response(200, TextBody(true, u.text)))
      && (!Ok(u.status) ==>
            r.response == Response(u.status, ErrorBody("Failed to fetch file content", None, Some(u.status), None)))
  {
    if m != Post then Outcome(MethodNotAllowed, None)
    else
      match body
      case None => Outcome(InternalError(bodyMissingMessage), None)
      case Some(b) =>
        if !Truthy(b.url) then Outcome(MissingUrl, None)
        else if !AllowedUrl(b.url.value) then Outcome(BadDomain, None)
        else
          var resp :=
            match fetch(b.url.value)
            case Unreachable(msg) => InternalError(msg)
            case Reply(status, text) =>
              if Ok(status) then Response(200, TextBody(true, text))
              else Response(status, ErrorBody("Failed to fetch file content", None, Some(status), None));
          Outcome(resp, Some(b.url.value))
  }

  /** Any URL that merely mentions `github.com` somewhere, whatever its host,
      is fetched. */
  lemma GateIsSubstring(pre: string, post: string, fetch: string -> Upstream, msg: string)
    ensures var url := pre + "github.com" + post;
      Handle(Post, Some(ContentRequest(Some(url))), msg, fetch).fetched == Some(url)
  {
    var url := pre + "github.com" + post;
    assert OccursAt(url, "github.com", |pre|);
    ContainsIffOccurs(url, "github.com");
  }

  /** The same holds for `githubusercontent.com`, which does not itself
      contain `github.com`. */
  lemma GateAdmitsUserContent(pre: string, post: string, fetch: string -> Upstream, msg: string)
    ensures !Contains("githubusercontent.com", "github.com")
    ensures var url := pre + "githubusercontent.com" + post;
      Handle(Post, Some(ContentRequest(Some(url))), msg, fetch).fetched == Some(url)
  {
    var url := pre + "githubusercontent.com" + post;
    assert OccursAt(url, "githubusercontent.com", |pre|);
    ContainsIffOccurs(url, "githubusercontent.com");
    NoGithubDotComInUserContent();
  }

  lemma NoGithubDotComInUserContent()
    ensures !Contains("githubusercontent.com", "github.com")
  {
    var h := "githubusercontent.com";
    ContainsIffOccurs(h, "github.com");
    OnlyLeadingG();
    forall k | 0 <= k && k + 10 <= |h| ensures !OccursAt(h, "github.com", k) {
      assert h[k..k + 10][0] == h[k];
      if k == 0 {
        assert h[k..k + 10][6] == h[6] == 'u';
      }
    }
  }

  /** The only `g` of `githubusercontent.com` is its first character. */
  lemma OnlyLeadingG()
    ensures forall k :: 1 <= k < |"githubusercontent.com"| ==> "githubusercontent.com"[k] != 'g'
  {
  }
}
