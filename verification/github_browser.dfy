/** The repository browser of the admin import (`GitHubBrowser.tsx`): browse
    a path for folders, then select one, check its structure and only then
    parse it. */
module GitHubBrowser {
  import opened Wrappers
  import opened Strings
  import opened GitHub
  import opened ComponentParser

  const InvalidUrlMessage := "Invalid GitHub URL. Use format: https://github.com/owner/repo or owner/repo"
  const NoFoldersMessage := "No folders found in this path"

  /** The browser's state. `error == ""` means no error is shown. */
  datatype Browser = Browser(
    repoUrl: string,
    token: string,
    currentPath: string,
    branch: string,
    loading: bool,
    error: string,
    folders: seq<GitHubFile>,
    selected: Option<GitHubFile>,
    validation: Option<(seq<string>, seq<string>)>)

  /** The coordinates both handlers pass on: the parsed owner and repository,
      the given path and branch, and the token only when one was typed. */
  function ConfigFor(repo: RepoRef, path: string, b: Browser): (c: GitHubConfig)
    ensures c.owner == repo.owner && c.repo == repo.repo && c.path == path
    ensures c.branch == Some(b.branch)
    ensures c.token.None? <==> b.token == ""
    ensures c.token.Some? ==> c.token.value == b.token
  {
    GitHubConfig(repo.owner, repo.repo, path, Some(b.branch), NonEmpty(b.token))
  }

  /** The outcome of a browse: the state and the listing request made, if any. */
  datatype BrowseEffect = BrowseEffect(state: Browser, request: Option<GitHubConfig>)

  /** `handleBrowse`: an input that is no repository reference sets the error
      and requests nothing; otherwise the directories of the current path are
      listed, and an empty result is reported. */
  function HandleBrowse(b: Browser, api: ListingRequest -> ApiReply): (r: BrowseEffect)
    ensures r.request.None? <==> ParseGitHubUrl(b.repoUrl).None?
    ensures r.request.None? ==> r.state.error == InvalidUrlMessage && r.state.folders == []
    ensures r.request.Some? ==> r.request.value == ConfigFor(ParseGitHubUrl(b.repoUrl).value, b.currentPath, b)
    ensures r.request.Some? ==>
      var listed := BrowseDirectory(r.request.value, api);
      && !r.state.loading
      && (listed.Failure? ==> r.state.error == listed.error && r.state.folders == [])
      && (listed.Success? ==> r.state.folders == listed.value
                              && (r.state.error == NoFoldersMessage <==> listed.value == []))
      && (listed.Success? && listed.value != [] ==> r.state.error == "")
  {
    var cleared := b.(error := "", folders := []);
    match ParseGitHubUrl(b.repoUrl)
    case None => BrowseEffect(cleared.(error := InvalidUrlMessage), None)
    case Some(repo) =>
      var config := ConfigFor(repo, b.currentPath, b);
      match BrowseDirectory(config, api)
      case Failure(e) => BrowseEffect(cleared.(error := e, loading := false), Some(config))
      case Success(dirs) =>
        BrowseEffect(cleared.(folders := dirs, error := if dirs == [] then NoFoldersMessage else "",
                              loading := false), Some(config))
  }

  /** The outcome of selecting a folder: the state, the listing request, the
      call made to the parser (files and coordinates) and what was handed on. */
  datatype SelectEffect = SelectEffect(
    state: Browser,
    request: Option<GitHubConfig>,
    parseCall: Option<(seq<GitHubFile>, GitHubConfig)>,
    selectedComponent: Option<ParsedComponent>)

  /** `handleSelectFolder`: list the folder, record the structure check and
      parse only when the check passes. */
  function HandleSelectFolder(b: Browser, folder: GitHubFile, api: ListingRequest -> ApiReply,
                              http: string -> HttpReply, json: string -> ParsedJson,
                              returnBlock: string -> Option<string>): (r: SelectEffect)
    ensures r.state.selected == Some(folder)
    ensures r.request.None? <==> ParseGitHubUrl(b.repoUrl).None?
    ensures r.request.None? ==> r.parseCall.None? && r.state == b.(selected := Some(folder), validation := None, error := "")
    ensures r.request.Some? ==> r.request.value == ConfigFor(ParseGitHubUrl(b.repoUrl).value, folder.path, b)
    ensures r.parseCall.Some? ==>
      && r.request.Some?
      && FetchContents(r.request.value, api).Success?
      && r.parseCall.value.0 == FetchContents(r.request.value, api).value
      && r.parseCall.value.1 == r.request.value
      && ValidateStructure(r.parseCall.value.0).valid
    ensures r.request.Some? && FetchContents(r.request.value, api).Success? ==>
      var v := ValidateStructure(FetchContents(r.request.value, api).value);
      r.state.validation == Some((v.errors, v.warnings)) && (r.parseCall.Some? <==> v.valid)
    ensures r.selectedComponent.Some? ==>
      r.parseCall.Some?
      && ParseFromGitHub(r.parseCall.value.0, Some(r.parseCall.value.1), api, http, json, returnBlock)
         == Success(r.selectedComponent.value)
  {
    var start := b.(selected := Some(folder), validation := None, error := "");
    match ParseGitHubUrl(b.repoUrl)
    case None => SelectEffect(start, None, None, None)
    case Some(repo) =>
      var config := ConfigFor(repo, folder.path, b);
      match FetchContents(config, api)
      case Failure(e) => SelectEffect(start.(error := e, loading := false), Some(config), None, None)
      case Success(files) =>
        var v := ValidateStructure(files);
        var checked := start.(validation := Some((v.errors, v.warnings)), loading := false);
        if !v.valid then SelectEffect(checked, Some(config), None, None)
        else
          match ParseFromGitHub(files, Some(config), api, http, json, returnBlock)
          case Failure(e) => SelectEffect(checked.(error := e), Some(config), Some((files, config)), None)
          case Success(c) => SelectEffect(checked, Some(config), Some((files, config)), Some(c))
  }

  /** A listing with structure errors never reaches the parser, and its errors
      and warnings are what the check reported. */
  lemma InvalidNeverParsed(b: Browser, folder: GitHubFile, api: ListingRequest -> ApiReply,
                           http: string -> HttpReply, json: string -> ParsedJson,
                           returnBlock: string -> Option<string>)
    requires ParseGitHubUrl(b.repoUrl).Some?
    requires var c := ConfigFor(ParseGitHubUrl(b.repoUrl).value, folder.path, b);
      FetchContents(c, api).Success? && ValidateStructure(FetchContents(c, api).value).errors != []
    ensures var r := HandleSelectFolder(b, folder, api, http, json, returnBlock);
      r.parseCall.None? && r.selectedComponent.None? && r.state.validation.Some?
      && r.state.validation.value.0 != []
  {
  }

  /** "Use Current Directory": a directory entry for the current path, named
      after it, or `root` at the top. */
  function CurrentDirectory(currentPath: string): (f: GitHubFile)
    ensures f.kind == DirEntry && f.path == currentPath
    ensures currentPath == "" ==> f.name == "root"
    ensures currentPath != "" ==> f.name == currentPath
  {
    GitHubFile(OrElse(Some(currentPath), "root"), currentPath, DirEntry, None, None)
  }

  /** Selecting the current directory lists exactly the browsed path. */
  lemma CurrentDirectoryListsCurrentPath(b: Browser, api: ListingRequest -> ApiReply,
                                         http: string -> HttpReply, json: string -> ParsedJson,
                                         returnBlock: string -> Option<string>)
    requires ParseGitHubUrl(b.repoUrl).Some?
    ensures var r := HandleSelectFolder(b, CurrentDirectory(b.currentPath), api, http, json, returnBlock);
      r.request.Some? && r.request.value == HandleBrowse(b, api).request.value
  {
  }
}
