/** The GitHub client: the contents-listing request, the mapping of the
    listing reply to files or an error, raw file fetches, the directory-only
    browse, and the parsing of a repository reference typed by the user.
    The network is a parameter: `api` answers a listing request and `http`
    answers a plain GET of a download URL. */
module GitHub {
  import opened Wrappers
  import opened Strings
  import opened Collections

  datatype EntryType = FileEntry | DirEntry

  /** One entry of a contents listing. */
  datatype GitHubFile = GitHubFile(
    name: string,
    path: string,
    kind: EntryType,
    downloadUrl: Option<string>,
    size: Option<int>)

  datatype GitHubConfig = GitHubConfig(
    owner: string,
    repo: string,
    path: string,
    branch: Option<string>,
    token: Option<string>)

  /** The contents-API request: its URL, its `Accept` header and its
      optional `Authorization` header. */
  datatype ListingRequest = ListingRequest(url: string, accept: string, authorization: Option<string>)

  /** The body of a listing reply: not JSON, one object, or an array. */
  datatype Body = NotJson(message: string) | One(file: GitHubFile) | Many(files: seq<GitHubFile>)

  datatype ApiReply =
    | ApiUnreachable(message: string)
    | ApiReply(status: int, statusText: string, body: Body)

  datatype HttpReply =
    | HttpUnreachable(message: string)
    | HttpReply(status: int, statusText: string, text: string)

  /** The entries a listing body holds. */
  function BodyFiles(b: Body): seq<GitHubFile> {
    match b
    case NotJson(_) => []
    case One(f) => [f]
    case Many(fs) => fs
  }

  /** `response.ok`. */
  predicate Ok(status: int) { 200 <= status <= 299 }

  const AcceptHeader := "application/vnd.github.v3+json"
  const ApiRoot := "https://api.github.com/repos/"
  const NotFoundMessage := "Repository or path not found"
  const FetchFailedPrefix := "Failed to fetch file: "
  const RateLimitMessage := "Rate limit exceeded or access denied. Try adding a GitHub token."

  /** The destructuring default `branch = 'main'` applies only when the branch
      is absent; an empty branch is kept. */
  function BranchOf(config: GitHubConfig): (b: string)
    ensures config.branch.None? ==> b == "main"
    ensures config.branch.Some? ==> b == config.branch.value
  {
    config.branch.GetOr("main")
  }

  /** The request always asks for the v3 JSON media type; the token, when
      it is non-empty, is sent as a bearer credential. */
  function RequestFor(config: GitHubConfig): (r: ListingRequest)
    ensures r.url == ApiRoot + config.owner + "/" + config.repo + "/contents/" + config.path
                     + "?ref=" + BranchOf(config)
    ensures r.accept == AcceptHeader
    ensures r.authorization.Some? <==> Truthy(config.token)
    ensures r.authorization.Some? ==> r.authorization.value == "Bearer " + config.token.value
  {
    var url := ApiRoot + config.owner + "/" + config.repo + "/contents/" + config.path + "?ref=" + BranchOf(config);
    ListingRequest(url, AcceptHeader, if Truthy(config.token) then Some("Bearer " + config.token.value) else None)
  }

  /** Two configurations with the same owner, repository and path that ask
      for different branches send different requests: the branch is the
      text after the fixed `?ref=` suffix position. */
  lemma RequestNamesBranch(c1: GitHubConfig, c2: GitHubConfig)
    requires c1.owner == c2.owner && c1.repo == c2.repo && c1.path == c2.path
    ensures RequestFor(c1).url == RequestFor(c2).url <==> BranchOf(c1) == BranchOf(c2)
  {
    var prefix := ApiRoot + c1.owner + "/" + c1.repo + "/contents/" + c1.path + "?ref=";
    assert RequestFor(c1).url == prefix + BranchOf(c1);
    assert RequestFor(c2).url == prefix + BranchOf(c2);
    if RequestFor(c1).url == RequestFor(c2).url {
      assert BranchOf(c1) == RequestFor(c1).url[|prefix|..];
      assert BranchOf(c2) == RequestFor(c2).url[|prefix|..];
    }
  }

  /** The message thrown for a reply that is not ok. */
  function ListingError(status: int, statusText: string): (m: string)
    ensures status == 404 ==> m == NotFoundMessage
    ensures status == 403 ==> m == RateLimitMessage
    ensures status != 404 && status != 403 ==> m == "GitHub API Error: " + statusText
  {
    if status == 404 then NotFoundMessage
    else if status == 403 then RateLimitMessage
    else "GitHub API Error: " + statusText
  }

  /** `fetchGitHubContents(config)`. */
  function FetchContents(config: GitHubConfig, api: ListingRequest -> ApiReply): (r: Result<seq<GitHubFile>>)
    ensures api(RequestFor(config)).ApiUnreachable? ==> r == Failure(api(RequestFor(config)).message)
    ensures api(RequestFor(config)).ApiReply? && !Ok(api(RequestFor(config)).status) ==>
      r == Failure(ListingError(api(RequestFor(config)).status, api(RequestFor(config)).statusText))
    ensures r.Success? <==>
      api(RequestFor(config)).ApiReply? && Ok(api(RequestFor(config)).status)
        && !api(RequestFor(config)).body.NotJson?
    ensures r.Success? ==> r.value == BodyFiles(api(RequestFor(config)).body)
  {
    match api(RequestFor(config))
    case ApiUnreachable(m) => Failure(m)
    case ApiReply(status, statusText, body) =>
      if !Ok(status) then Failure(ListingError(status, statusText))
      else
        match body
        case NotJson(m) => Failure(m)
        case One(f) => Success([f])
        case Many(fs) => Success(fs)
  }

  /** An ok reply's single object becomes a one-entry list; an array is kept
      as it is. */
  lemma ListingWraps(config: GitHubConfig, api: ListingRequest -> ApiReply)
    requires api(RequestFor(config)).ApiReply? && Ok(api(RequestFor(config)).status)
    ensures api(RequestFor(config)).body.One? ==>
      FetchContents(config, api) == Success([api(RequestFor(config)).body.file])
    ensures api(RequestFor(config)).body.Many? ==>
      FetchContents(config, api) == Success(api(RequestFor(config)).body.files)
  {
  }

  /** `fetchFileContent(url)`. */
  function FetchFile(url: string, http: string -> HttpReply): (r: Result<string>)
    ensures r.Success? <==> http(url).HttpReply? && Ok(http(url).status)
    ensures r.Success? ==> r.value == http(url).text
    ensures http(url).HttpReply? && !Ok(http(url).status) ==>
      r == Failure(FetchFailedPrefix + http(url).statusText)
    ensures http(url).HttpUnreachable? ==> r == Failure(http(url).message)
  {
    match http(url)
    case HttpUnreachable(m) => Failure(m)
    case HttpReply(status, statusText, text) =>
      if Ok(status) then Success(text) else Failure(FetchFailedPrefix + statusText)
  }

  predicate IsDir(f: GitHubFile) { f.kind == DirEntry }

  /** A served text comes back as it is, and a refused download names the
      status text after the fixed prefix, so the reason can be read back. */
  lemma FetchFileServes(url: string, http: string -> HttpReply)
    requires http(url).HttpReply?
    ensures Ok(http(url).status) ==> FetchFile(url, http) == Success(http(url).text)
    ensures !Ok(http(url).status) ==>
      var m := FetchFile(url, http).error;
      StartsWith(m, FetchFailedPrefix) && m[|FetchFailedPrefix|..] == http(url).statusText
  {
    if !Ok(http(url).status) {
      var m := FetchFile(url, http).error;
      assert m == FetchFailedPrefix + http(url).statusText;
      assert m[..|FetchFailedPrefix|] == FetchFailedPrefix;
    }
  }

  /** `browseGitHubDirectory(config)`: the listing reduced to its directories. */
  function BrowseDirectory(config: GitHubConfig, api: ListingRequest -> ApiReply): (r: Result<seq<GitHubFile>>)
    ensures r.Success? <==> FetchContents(config, api).Success?
    ensures r.Failure? ==> r == FetchContents(config, api)
    ensures r.Success? ==> forall f :: f in r.value <==> f in FetchContents(config, api).value && f.kind == DirEntry
  {
    match FetchContents(config, api)
    case Failure(e) => Failure(e)
    case Success(files) => Success(Filter(IsDir, files))
  }

  /** The browse keeps the directories in listing order and nothing else. */
  lemma BrowseKeepsOrder(config: GitHubConfig, api: ListingRequest -> ApiReply)
    requires FetchContents(config, api).Success?
    ensures Subsequence(BrowseDirectory(config, api).value, FetchContents(config, api).value)
    ensures forall i :: 0 <= i < |BrowseDirectory(config, api).value| ==>
      BrowseDirectory(config, api).value[i].kind == DirEntry
  {
    var files := FetchContents(config, api).value;
    FilterSubsequence(IsDir, files);
    assert forall i :: 0 <= i < |Filter(IsDir, files)| ==> Filter(IsDir, files)[i] in Filter(IsDir, files);
  }

  // ---------------------------------------------------------------------------
  // Repository references (`parseGitHubUrl`)
  // ---------------------------------------------------------------------------

  datatype RepoRef = RepoRef(owner: string, repo: string)

  predicate NotSlash(c: char) { c != '/' }

  const HostPrefix := "github.com/"

  /** `/github\.com\/([^\/]+)\/([^\/]+)/` tried at position `i`: both groups
      take the longest run without `/`, and the first must end at a `/`. */
  function UrlMatchAt(s: string, i: nat): (r: Option<RepoRef>)
    requires i <= |s|
    ensures r.Some? ==> r.value.owner != [] && r.value.repo != []
    ensures r.Some? ==> '/' !in r.value.owner && '/' !in r.value.repo
    ensures r.Some? ==> OccursAt(s, HostPrefix + r.value.owner + "/" + r.value.repo, i)
  {
    if OccursAt(s, HostPrefix, i) then
      var o := SpanEnd(s, i + 11, NotSlash);
      if i + 11 < o < |s| then
        var e := SpanEnd(s, o + 1, NotSlash);
        if e > o + 1 then
          var owner := s[i + 11..o];
          var repo := s[o + 1..e];
          assert forall k :: 0 <= k < |owner| ==> owner[k] == s[i + 11 + k];
          assert forall k :: 0 <= k < |repo| ==> repo[k] == s[o + 1 + k];
          assert s[i..e] == s[i..i + 11] + owner + "/" + repo;
          Some(RepoRef(owner, repo))
        else None
      else None
    else None
  }

  /** The leftmost position from `i` on where the full-URL pattern matches,
      as `String.prototype.match` reports it. */
  function FindUrlMatch(s: string, i: nat): (r: Option<RepoRef>)
    requires i <= |s|
    ensures r.Some? ==> exists j :: i <= j <= |s| && UrlMatchAt(s, j) == r && NoUrlMatchBetween(s, i, j)
    ensures r.None? ==> forall j :: i <= j <= |s| ==> UrlMatchAt(s, j).None?
    decreases |s| - i
  {
    if UrlMatchAt(s, i).Some? then
      assert NoUrlMatchBetween(s, i, i);
      UrlMatchAt(s, i)
    else if i == |s| then None
    else
      var r := FindUrlMatch(s, i + 1);
      LeftmostStep(s, i, r);
      r
  }

  /** No position from `i` up to, but not including, `j` matches. */
  predicate NoUrlMatchBetween(s: string, i: nat, j: nat)
    requires i <= j <= |s|
  {
    forall k :: i <= k < j ==> UrlMatchAt(s, k).None?
  }

  /** A leftmost match from `i + 1` is a leftmost match from `i` when
      position `i` does not match. */
  lemma LeftmostStep(s: string, i: nat, r: Option<RepoRef>)
    requires i < |s| && UrlMatchAt(s, i).None?
    requires r.Some? ==> exists j :: i + 1 <= j <= |s| && UrlMatchAt(s, j) == r && NoUrlMatchBetween(s, i + 1, j)
    ensures r.Some? ==> exists j :: i <= j <= |s| && UrlMatchAt(s, j) == r && NoUrlMatchBetween(s, i, j)
  {
    if r.Some? {
      var j :| i + 1 <= j <= |s| && UrlMatchAt(s, j) == r && NoUrlMatchBetween(s, i + 1, j);
      assert NoUrlMatchBetween(s, i, j);
    }
  }

  /** `/^([^\/]+)\/([^\/]+)$/`: exactly one `/`, with text on both sides. */
  function ShortMatch(s: string): (r: Option<RepoRef>)
    ensures r.Some? <==> exists k :: 0 < k < |s| - 1 && s[k] == '/'
                             && forall j :: 0 <= j < |s| && j != k ==> s[j] != '/'
    ensures r.Some? ==> s == r.value.owner + "/" + r.value.repo
  {
    var k := SpanEnd(s, 0, NotSlash);
    if 0 < k < |s| - 1 && SpanEnd(s, k + 1, NotSlash) == |s| then
      assert s == s[..k] + "/" + s[k + 1..];
      Some(RepoRef(s[..k], s[k + 1..]))
    else
      ShortShape(s);
      None
  }

  /** In a string with a single `/`, not at either end, the two runs without
      `/` meet at that slash and the second reaches the end. */
  lemma ShortShape(s: string)
    ensures forall k ::
      (0 < k < |s| - 1 && s[k] == '/' && (forall j :: 0 <= j < |s| && j != k ==> s[j] != '/')) ==>
      SpanEnd(s, 0, NotSlash) == k && SpanEnd(s, k + 1, NotSlash) == |s|
  {
    forall k | 0 < k < |s| - 1 && s[k] == '/'
             && (forall j :: 0 <= j < |s| && j != k ==> s[j] != '/')
      ensures SpanEnd(s, 0, NotSlash) == k && SpanEnd(s, k + 1, NotSlash) == |s|
    {
      SpanEndExact(s, 0, k, NotSlash);
      SpanEndExact(s, k + 1, |s|, NotSlash);
    }
  }

  /** `parseGitHubUrl(input)`: the full-URL form first (removing the first
      `.git` from the repository), then the `owner/repo` shorthand. */
  function ParseGitHubUrl(input: string): (r: Option<RepoRef>)
    ensures FindUrlMatch(input, 0).Some? ==>
      r == Some(RepoRef(FindUrlMatch(input, 0).value.owner, ReplaceFirst(FindUrlMatch(input, 0).value.repo, ".git", "")))
    ensures FindUrlMatch(input, 0).None? ==> r == ShortMatch(input)
    ensures r.Some? ==> r.value.owner != [] && '/' !in r.value.owner
  {
    match FindUrlMatch(input, 0)
    case Some(m) => Some(RepoRef(m.owner, ReplaceFirst(m.repo, ".git", "")))
    case None => ShortMatch(input)
  }

  /** A full-URL match needs two `/` characters at different places. */
  lemma UrlMatchSlashes(s: string, j: nat)
    requires j <= |s|
    ensures UrlMatchAt(s, j).Some? ==> j + 10 < |s| && s[j + 10] == '/'
    ensures UrlMatchAt(s, j).Some? ==>
      j + 11 + |UrlMatchAt(s, j).value.owner| < |s| && s[j + 11 + |UrlMatchAt(s, j).value.owner|] == '/'
  {
    if UrlMatchAt(s, j).Some? {
      var m := UrlMatchAt(s, j).value;
      assert s[j..j + 11 + |m.owner| + 1 + |m.repo|] == HostPrefix + m.owner + "/" + m.repo;
    }
  }

  /** No position of `s` starts a full-URL match when `s` has at most one `/`. */
  lemma NoUrlMatchWithOneSlash(s: string, k: int)
    requires forall j :: 0 <= j < |s| && j != k ==> s[j] != '/'
    ensures FindUrlMatch(s, 0).None?
  {
    forall j | 0 <= j <= |s| ensures UrlMatchAt(s, j).None? {
      UrlMatchSlashes(s, j);
    }
  }

  lemma ShortMatchSlash(s: string)
    ensures ShortMatch(s).Some? ==> '/' in s
  {
    if ShortMatch(s).Some? {
      var m := ShortMatch(s).value;
      assert s[|m.owner|] == '/';
    }
  }

  /** Input without any `/` is not a repository reference (`not a repo`, say). */
  lemma NoSlashNoRepo(input: string)
    requires '/' !in input
    ensures ParseGitHubUrl(input) == None
  {
    NoUrlMatchWithOneSlash(input, -1);
    ShortMatchSlash(input);
  }

  /** The shorthand `owner/repo` (one `/`, text on both sides) is returned as
      written: the full-URL pattern, which needs two `/`, cannot match it. */
  lemma ShorthandVerbatim(owner: string, repo: string)
    requires owner != [] && repo != [] && '/' !in owner && '/' !in repo
    ensures ParseGitHubUrl(owner + "/" + repo) == Some(RepoRef(owner, repo))
  {
    var s := owner + "/" + repo;
    var k := |owner|;
    forall j | 0 <= j < |s| && j != k ensures s[j] != '/' {
      if j < k { assert s[j] == owner[j]; } else { assert s[j] == repo[j - k - 1]; }
    }
    NoUrlMatchWithOneSlash(s, k);
    assert s[k] == '/';
    var m := ShortMatch(s).value;
    assert s[..k] == owner;
  }

  /** A match needs the `g` of `github.com` where it starts. */
  lemma NoMatchWithoutG(s: string, k: nat)
    requires k < |s| && s[k] != 'g'
    ensures UrlMatchAt(s, k).None?
  {
  }

  /** The first position from `i` on where the pattern matches is the match
      reported. */
  lemma {:induction false} FirstMatchAt(s: string, i: nat, p: nat)
    requires i <= p <= |s| && UrlMatchAt(s, p).Some?
    requires forall k :: i <= k < p ==> UrlMatchAt(s, k).None?
    ensures FindUrlMatch(s, i) == UrlMatchAt(s, p)
    decreases p - i
  {
    if i < p {
      assert UrlMatchAt(s, i).None? && i < |s|;
      FirstMatchAt(s, i + 1, p);
      assert FindUrlMatch(s, i) == FindUrlMatch(s, i + 1);
    } else {
      assert FindUrlMatch(s, i) == UrlMatchAt(s, i);
    }
  }

  /** The full-URL pattern right after `pre` reads the owner up to the next
      `/` and the repository up to the following `/` or the end. */
  lemma UrlMatchAfter(pre: string, owner: string, repo: string, rest: string)
    requires owner != [] && repo != [] && '/' !in owner && '/' !in repo
    requires rest == [] || rest[0] == '/'
    ensures UrlMatchAt(pre + HostPrefix + owner + "/" + repo + rest, |pre|) == Some(RepoRef(owner, repo))
  {
    var s := pre + HostPrefix + owner + "/" + repo + rest;
    var p := |pre|;
    var o := p + 11 + |owner|;
    var e := o + 1 + |repo|;
    assert s[p..p + 11] == HostPrefix;
    forall i | p + 11 <= i < o ensures NotSlash(s[i]) { assert s[i] == owner[i - p - 11]; }
    SpanEndExact(s, p + 11, o, NotSlash);
    forall i | o + 1 <= i < e ensures NotSlash(s[i]) { assert s[i] == repo[i - o - 1]; }
    SpanEndExact(s, o + 1, e, NotSlash);
    assert s[p + 11..o] == owner && s[o + 1..e] == repo;
  }

  /** `github.com/<owner>/<repo>` after a prefix that holds no `g` (such as
      `https://` or `https://www.`), followed by the end of the input or by
      `/`, parses to that owner and that repository minus its first `.git`. */
  lemma FullUrl(pre: string, owner: string, repo: string, rest: string)
    requires 'g' !in pre
    requires owner != [] && repo != [] && '/' !in owner && '/' !in repo
    requires rest == [] || rest[0] == '/'
    ensures ParseGitHubUrl(pre + HostPrefix + owner + "/" + repo + rest)
         == Some(RepoRef(owner, ReplaceFirst(repo, ".git", "")))
  {
    var s := pre + HostPrefix + owner + "/" + repo + rest;
    UrlMatchAfter(pre, owner, repo, rest);
    forall k | 0 <= k < |pre| ensures UrlMatchAt(s, k).None? {
      assert s[k] == pre[k];
      NoMatchWithoutG(s, k);
    }
    FirstMatchAt(s, 0, |pre|);
  }

  /** The documented full form `https://github.com/<owner>/<repo>`. */
  lemma HttpsUrl(owner: string, repo: string)
    requires owner != [] && repo != [] && '/' !in owner && '/' !in repo
    ensures ParseGitHubUrl("https://github.com/" + owner + "/" + repo)
         == Some(RepoRef(owner, ReplaceFirst(repo, ".git", "")))
  {
    var t := "https://github.com/" + owner + "/" + repo;
    assert "https://" + HostPrefix == "https://github.com/";
    assert "https://" + HostPrefix + owner + "/" + repo + [] == t;
    FullUrl("https://", owner, repo, []);
  }
}
