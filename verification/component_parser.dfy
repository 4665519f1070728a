/** Turning a repository folder into a component: the structure check, the
    choice between the static (HTML/CSS) and the React/Vite strategy, both
    strategies, the JSX-to-HTML conversion and the two variable detectors.
    Remote listings, file downloads and `JSON.parse` are parameters. */
module ComponentParser {
  import opened Wrappers
  import opened Strings
  import opened Collections
  import opened VarTables
  import opened Placeholders
  import opened GitHub
  import opened JsxRewrite

  /** The optional metadata of `config.json`. */
  datatype ComponentConfig = ComponentConfig(
    name: Option<string>,
    category: Option<string>,
    description: Option<string>,
    variables: Option<VarTable>,
    thumbnail: Option<string>)

  const NoConfig := ComponentConfig(None, None, None, None, None)

  /** What `JSON.parse` makes of a text: a syntax error, `null`, or a value
      whose metadata fields are read. */
  datatype ParsedJson = Malformed | JsonNull | JsonValue(config: ComponentConfig)

  datatype ParsedComponent = ParsedComponent(
    name: string,
    category: string,
    description: Option<string>,
    html: string,
    css: string,
    js: Option<string>,
    variables: VarTable,
    thumbnail: Option<string>)

  const MissingFilesMessage := "Missing required files (HTML and CSS files are required)"
  const NoUrlsMessage := "Files must have download URLs"
  const NoComponentMessage := "No React component file found in src/app/components/"
  /** The `TypeError` raised when `config.json` holds `null` and a field of it is read. */
  const NullConfigMessage := "Cannot read properties of null (reading 'variables')"
  const DefaultCss := "/* No CSS files found - using defaults */\n* { box-sizing: border-box; }\nbody { margin: 0; padding: 0; }"

  // ---------------------------------------------------------------------------
  // Structure check (`validateComponentStructure`)
  // ---------------------------------------------------------------------------

  const ReactDetectedWarning := "React/Vite project detected - will parse from src/"
  const NoHtmlError := "No HTML file found"
  const NoCssError := "No CSS file found"
  const NoConfigWarning := "No config.json found - metadata will be auto-generated"
  const NoThumbnailWarning := "No thumbnail image found - preview will be auto-generated"

  datatype Validation = Validation(valid: bool, errors: seq<string>, warnings: seq<string>)

  predicate IsSrcDir(f: GitHubFile) { f.kind == DirEntry && f.name == "src" }
  predicate HasSrcDir(files: seq<GitHubFile>) { exists f :: f in files && IsSrcDir(f) }
  predicate HasNamed(files: seq<GitHubFile>, name: string) { exists f :: f in files && f.name == name }
  predicate HasSuffix(files: seq<GitHubFile>, suffix: string) { exists f :: f in files && EndsWith(f.name, suffix) }
  predicate HasImage(files: seq<GitHubFile>) { HasSuffix(files, ".png") || HasSuffix(files, ".jpg") }

  function ValidateStructure(files: seq<GitHubFile>): (v: Validation)
    ensures v.valid <==> v.errors == []
    ensures HasSrcDir(files) && HasNamed(files, "package.json") ==>
      v.errors == [] && v.warnings == [ReactDetectedWarning]
    ensures !(HasSrcDir(files) && HasNamed(files, "package.json")) ==>
      (NoHtmlError in v.errors <==> !HasSuffix(files, ".html"))
      && (NoCssError in v.errors <==> !HasSuffix(files, ".css"))
      && (forall e :: e in v.errors ==> e == NoHtmlError || e == NoCssError)
      && (|v.errors| == 2 ==> v.errors == [NoHtmlError, NoCssError])
      && NoDup(v.errors)
      && (NoConfigWarning in v.warnings <==> !HasNamed(files, "config.json"))
      && (NoThumbnailWarning in v.warnings <==> !HasImage(files))
      && (forall w :: w in v.warnings ==> w == NoConfigWarning || w == NoThumbnailWarning)
      && (|v.warnings| == 2 ==> v.warnings == [NoConfigWarning, NoThumbnailWarning])
      && NoDup(v.warnings)
  {
    if HasSrcDir(files) && HasNamed(files, "package.json") then
      Validation(true, [], [ReactDetectedWarning])
    else
      var errors := (if HasSuffix(files, ".html") then [] else [NoHtmlError])
                  + (if HasSuffix(files, ".css") then [] else [NoCssError]);
      var warnings := (if HasNamed(files, "config.json") then [] else [NoConfigWarning])
                    + (if HasImage(files) then [] else [NoThumbnailWarning]);
      Validation(errors == [], errors, warnings)
  }

  // ---------------------------------------------------------------------------
  // File choice in the static strategy
  // ---------------------------------------------------------------------------

  predicate IsHtmlChoice(f: GitHubFile) {
    f.name == "index.html" || f.name == "component.html" || EndsWith(f.name, ".html")
  }
  predicate IsCssChoice(f: GitHubFile) {
    f.name == "style.css" || f.name == "styles.css" || EndsWith(f.name, ".css")
  }
  predicate IsJsChoice(f: GitHubFile) {
    f.name == "script.js" || f.name == "index.js" || EndsWith(f.name, ".js")
  }
  predicate IsConfigFile(f: GitHubFile) { f.name == "config.json" }
  predicate IsThumbnailChoice(f: GitHubFile) {
    f.name == "thumbnail.png" || f.name == "preview.png" || EndsWith(f.name, ".png") || EndsWith(f.name, ".jpg")
  }

  /** The named alternatives all carry the suffix, so they give no priority:
      each choice is simply the first entry with the suffix. */
  lemma ChoiceIsSuffix(f: GitHubFile)
    ensures IsHtmlChoice(f) <==> EndsWith(f.name, ".html")
    ensures IsCssChoice(f) <==> EndsWith(f.name, ".css")
    ensures IsJsChoice(f) <==> EndsWith(f.name, ".js")
    ensures IsThumbnailChoice(f) <==> EndsWith(f.name, ".png") || EndsWith(f.name, ".jpg")
  {
    if f.name == "index.html" { assert f.name[|f.name| - 5..] == ".html"; }
    if f.name == "component.html" { assert f.name[|f.name| - 5..] == ".html"; }
    if f.name == "style.css" { assert f.name[|f.name| - 4..] == ".css"; }
    if f.name == "styles.css" { assert f.name[|f.name| - 4..] == ".css"; }
    if f.name == "script.js" { assert f.name[|f.name| - 3..] == ".js"; }
    if f.name == "index.js" { assert f.name[|f.name| - 3..] == ".js"; }
    if f.name == "thumbnail.png" { assert f.name[|f.name| - 4..] == ".png"; }
    if f.name == "preview.png" { assert f.name[|f.name| - 4..] == ".png"; }
  }

  /** `files.find(p)`. */
  function Find(p: GitHubFile -> bool, files: seq<GitHubFile>): (r: Option<GitHubFile>)
    ensures r.Some? <==> exists f :: f in files && p(f)
    ensures r.Some? ==> r.value == files[FindIndex(p, files)]
  {
    var k := FindIndex(p, files);
    if k < |files| then Some(files[k])
    else
      assert forall f :: f in files ==> !p(f) by {
        forall f | f in files ensures !p(f) {
          var i :| 0 <= i < |files| && files[i] == f;
        }
      }
      None
  }

  /** The URL of a chosen file, when the file exists and its URL is truthy. */
  function UrlOf(f: Option<GitHubFile>): Option<string> {
    if f.Some? && Truthy(f.value.downloadUrl) then f.value.downloadUrl else None
  }

  // ---------------------------------------------------------------------------
  // Downloads
  // ---------------------------------------------------------------------------

  /** `Promise.all(urls.map(fetchFileContent))`; when several downloads fail,
      the first failing one in list order supplies the error. */
  function FetchAll(urls: seq<string>, http: string -> HttpReply): (r: Result<seq<string>>)
    ensures r.Success? <==> forall i :: 0 <= i < |urls| ==> FetchFile(urls[i], http).Success?
    ensures r.Success? ==> (|r.value| == |urls|
      && forall i :: 0 <= i < |urls| ==> r.value[i] == FetchFile(urls[i], http).value)
    ensures r.Failure? ==>
      exists i :: 0 <= i < |urls| && FetchFile(urls[i], http).Failure? && r.error == FetchFile(urls[i], http).error
  {
    if urls == [] then Success([])
    else
      match FetchFile(urls[0], http)
      case Failure(e) => Failure(e)
      case Success(t) =>
        match FetchAll(urls[1..], http)
        case Failure(e) =>
          var i :| 0 <= i < |urls[1..]| && FetchFile(urls[1..][i], http).Failure? && e == FetchFile(urls[1..][i], http).error;
          assert urls[i + 1] == urls[1..][i];
          Failure(e)
        case Success(ts) =>
          assert forall i :: 1 <= i < |urls| ==> urls[i] == urls[1..][i - 1];
          Success([t] + ts)
  }

  /** `JSON.parse(text)` for a fetched `config.json`; an empty text stands for `'{}'`. */
  function ParseConfigText(text: string, json: string -> ParsedJson): ParsedJson {
    if text == "" then JsonValue(NoConfig) else json(text)
  }

  // ---------------------------------------------------------------------------
  // Static strategy (`parseStaticComponent`)
  // ---------------------------------------------------------------------------

  /** The download URLs the static strategy reads. */
  datatype StaticSources = StaticSources(html: string, css: string, js: Option<string>, config: Option<string>)

  /** The file choice and its two error cases. */
  function StaticSourcesOf(files: seq<GitHubFile>): (r: Result<StaticSources>)
    ensures !HasSuffix(files, ".html") || !HasSuffix(files, ".css") ==> r == Failure(MissingFilesMessage)
    ensures (HasSuffix(files, ".html") && HasSuffix(files, ".css")
             && (UrlOf(Find(IsHtmlChoice, files)).None? || UrlOf(Find(IsCssChoice, files)).None?)) ==>
      r == Failure(NoUrlsMessage)
    ensures r.Success? ==>
      Some(r.value.html) == UrlOf(Find(IsHtmlChoice, files)) && Some(r.value.css) == UrlOf(Find(IsCssChoice, files))
      && r.value.js == UrlOf(Find(IsJsChoice, files)) && r.value.config == UrlOf(Find(IsConfigFile, files))
  {
    ChoiceLemmas(files);
    var htmlFile := Find(IsHtmlChoice, files);
    var cssFile := Find(IsCssChoice, files);
    if htmlFile.None? || cssFile.None? then Failure(MissingFilesMessage)
    else if !Truthy(htmlFile.value.downloadUrl) || !Truthy(cssFile.value.downloadUrl) then Failure(NoUrlsMessage)
    else
      Success(StaticSources(htmlFile.value.downloadUrl.value, cssFile.value.downloadUrl.value,
                            UrlOf(Find(IsJsChoice, files)), UrlOf(Find(IsConfigFile, files))))
  }

  datatype StaticTexts = StaticTexts(html: string, css: string, js: string, config: string)

  /** The four downloads run together (`Promise.all`): any failure fails the
      whole parse; an absent script reads as `''` and an absent config as
      `''` (which stands for `'{}'`). The first failing download in list order
      supplies the error. */
  function FetchSources(src: StaticSources, http: string -> HttpReply): (r: Result<StaticTexts>)
    ensures r.Success? <==>
      FetchFile(src.html, http).Success? && FetchFile(src.css, http).Success?
      && (src.js.Some? ==> FetchFile(src.js.value, http).Success?)
      && (src.config.Some? ==> FetchFile(src.config.value, http).Success?)
    ensures r.Success? ==>
      FetchFile(src.html, http) == Success(r.value.html) && FetchFile(src.css, http) == Success(r.value.css)
      && (src.js.None? ==> r.value.js == "") && (src.js.Some? ==> FetchFile(src.js.value, http) == Success(r.value.js))
      && (src.config.None? ==> r.value.config == "")
      && (src.config.Some? ==> FetchFile(src.config.value, http) == Success(r.value.config))
  {
    match FetchFile(src.html, http)
    case Failure(e) => Failure(e)
    case Success(html) =>
      match FetchFile(src.css, http)
      case Failure(e) => Failure(e)
      case Success(css) =>
        var js := if src.js.Some? then FetchFile(src.js.value, http) else Success("");
        var config := if src.config.Some? then FetchFile(src.config.value, http) else Success("");
        if js.Failure? then Failure(js.error)
        else if config.Failure? then Failure(config.error)
        else Success(StaticTexts(html, css, js.value, config.value))
  }

  /** The component built from the downloaded texts and `config.json`. */
  function AssembleStatic(texts: StaticTexts, thumbnail: Option<string>, json: string -> ParsedJson)
    : (r: Result<ParsedComponent>)
    ensures r.Failure? <==> ParseConfigText(texts.config, json).JsonNull?
    ensures r.Failure? ==> r.error == NullConfigMessage
    ensures r.Success? ==>
      r.value.html == texts.html && r.value.css == texts.css && r.value.thumbnail == thumbnail
      && (r.value.js.None? <==> texts.js == "") && (r.value.js.Some? ==> r.value.js.value == texts.js)
    ensures r.Success? && ParseConfigText(texts.config, json).JsonValue? ==>
      var c := ParseConfigText(texts.config, json).config;
      r.value.name == OrElse(c.name, "Untitled Component") && r.value.category == OrElse(c.category, "other")
      && r.value.description == c.description
      && (c.variables.Some? ==> r.value.variables == c.variables.value)
      && (c.variables.None? ==> r.value.variables == DetectVariables(texts.html))
    ensures texts.config == "" ==>
      r.Success? && r.value.name == "Untitled Component" && r.value.category == "other"
      && r.value.description.None? && r.value.variables == DetectVariables(texts.html)
  {
    var parsed := ParseConfigText(texts.config, json);
    if parsed.JsonNull? then Failure(NullConfigMessage)
    else
      var config := if parsed.JsonValue? then parsed.config else NoConfig;
      Success(ParsedComponent(
        OrElse(config.name, "Untitled Component"),
        OrElse(config.category, "other"),
        config.description,
        texts.html,
        texts.css,
        NonEmpty(texts.js),
        if config.variables.Some? then config.variables.value else DetectVariables(texts.html),
        thumbnail))
  }

  /** `thumbnailFile?.download_url`. */
  function ThumbnailOf(files: seq<GitHubFile>): Option<string> {
    var f := Find(IsThumbnailChoice, files);
    if f.Some? then f.value.downloadUrl else None
  }

  /** `parseStaticComponent(files)`. */
  function ParseStatic(files: seq<GitHubFile>, http: string -> HttpReply, json: string -> ParsedJson)
    : (r: Result<ParsedComponent>)
    ensures !HasSuffix(files, ".html") || !HasSuffix(files, ".css") ==> r == Failure(MissingFilesMessage)
    ensures (HasSuffix(files, ".html") && HasSuffix(files, ".css")
             && (UrlOf(Find(IsHtmlChoice, files)).None? || UrlOf(Find(IsCssChoice, files)).None?)) ==>
      r == Failure(NoUrlsMessage)
    ensures r.Success? ==>
      StaticSourcesOf(files).Success?
      && FetchFile(StaticSourcesOf(files).value.html, http) == Success(r.value.html)
      && FetchFile(StaticSourcesOf(files).value.css, http) == Success(r.value.css)
      && r.value.thumbnail == ThumbnailOf(files)
      && (r.value.js.None? || r.value.js.value != "")
    ensures r.Success? && UrlOf(Find(IsConfigFile, files)).None? ==>
      r.value.name == "Untitled Component" && r.value.category == "other"
      && r.value.description.None? && r.value.variables == DetectVariables(r.value.html)
  {
    match StaticSourcesOf(files)
    case Failure(e) => Failure(e)
    case Success(src) =>
      match FetchSources(src, http)
      case Failure(e) => Failure(e)
      case Success(texts) => AssembleStatic(texts, ThumbnailOf(files), json)
  }

  lemma ChoiceLemmas(files: seq<GitHubFile>)
    ensures (exists f :: f in files && IsHtmlChoice(f)) <==> HasSuffix(files, ".html")
    ensures (exists f :: f in files && IsCssChoice(f)) <==> HasSuffix(files, ".css")
  {
    forall f | f in files { ChoiceIsSuffix(f); }
  }

  // ---------------------------------------------------------------------------
  // React/Vite strategy (`parseReactComponent`)
  // ---------------------------------------------------------------------------

  /** How the strategy lists a folder. The source calls the browse helper,
      which keeps directories only; the full listing is what it needs. */
  datatype Lister = DirsOnly | FullListing

  function List(lister: Lister, config: GitHubConfig, api: ListingRequest -> ApiReply): (r: Result<seq<GitHubFile>>)
    ensures r.Success? ==> FetchContents(config, api).Success?
    ensures r.Success? ==> forall f :: f in r.value ==> f in FetchContents(config, api).value
    ensures lister == DirsOnly && r.Success? ==> forall f :: f in r.value ==> f.kind == DirEntry
  {
    match lister
    case DirsOnly => BrowseDirectory(config, api)
    case FullListing => FetchContents(config, api)
  }

  /** `${path}/${sub}` when the base path has non-blank text, else `sub`. */
  function Prefixed(path: string, sub: string): (r: string)
    ensures Trim(path) == "" ==> r == sub
    ensures Trim(path) != "" ==> r == path + "/" + sub
  {
    if path != "" && Trim(path) != "" then path + "/" + sub else sub
  }

  const ComponentDirs := ["src/app/components", "src/components", "src/app", "src"]

  predicate IsComponentSource(f: GitHubFile) {
    f.kind == FileEntry
    && (EndsWith(f.name, ".tsx") || EndsWith(f.name, ".jsx"))
    && !StartsWith(f.name, "index")
    && !Contains(f.path, "/ui/")
    && !Contains(f.path, "/figma/")
  }

  predicate IsIndexSource(f: GitHubFile) { f.name == "index.tsx" || f.name == "index.jsx" }

  /** The main component of a folder: the first component source that is not
      an index file or under `/ui/` or `/figma/`, else the first index file. */
  function PickMain(files: seq<GitHubFile>): (r: Option<GitHubFile>)
    ensures r.Some? ==> r.value in files
    ensures (exists f :: f in files && IsComponentSource(f)) ==> r == Find(IsComponentSource, files)
    ensures !(exists f :: f in files && IsComponentSource(f)) ==> r == Find(IsIndexSource, files)
  {
    var main := Find(IsComponentSource, files);
    if main.Some? then main else Find(IsIndexSource, files)
  }

  /** `name.replace(/\.(tsx|jsx)$/, '')`. */
  function StripComponentExt(name: string): (r: string)
    ensures EndsWith(name, ".tsx") || EndsWith(name, ".jsx") ==> name == r + name[|name| - 4..]
    ensures !(EndsWith(name, ".tsx") || EndsWith(name, ".jsx")) ==> r == name
  {
    if EndsWith(name, ".tsx") || EndsWith(name, ".jsx") then name[..|name| - 4] else name
  }

  datatype Found = Found(content: string, name: string)

  /** One pass of the candidate loop: any listing or download error is
      swallowed and means "not here". */
  function TryDir(config: GitHubConfig, lister: Lister, api: ListingRequest -> ApiReply,
                  http: string -> HttpReply, dir: string): (r: Option<Found>)
  {
    match List(lister, config.(path := Prefixed(config.path, dir)), api)
    case Failure(_) => None
    case Success(files) =>
      var main := PickMain(files);
      if main.None? || !Truthy(main.value.downloadUrl) then None
      else
        match FetchFile(main.value.downloadUrl.value, http)
        case Failure(_) => None
        case Success(text) => Some(Found(text, StripComponentExt(main.value.name)))
  }

  /** The candidate loop: the index of the first folder that yields a
      component (`|dirs|` when none does); later folders are not tried. */
  function FirstHit(config: GitHubConfig, lister: Lister, api: ListingRequest -> ApiReply,
                    http: string -> HttpReply, dirs: seq<string>): (k: nat)
    ensures k <= |dirs|
    ensures k < |dirs| ==> TryDir(config, lister, api, http, dirs[k]).Some?
    ensures forall j :: 0 <= j < k ==> TryDir(config, lister, api, http, dirs[j]).None?
  {
    FirstSomeFrom((d: string) => TryDir(config, lister, api, http, d), dirs, 0)
  }

  /** The index, from `j` on, of the first folder for which `attempt` finds
      something. */
  function FirstSomeFrom(attempt: string -> Option<Found>, dirs: seq<string>, j: nat): (k: nat)
    requires j <= |dirs|
    ensures j <= k <= |dirs|
    ensures k < |dirs| ==> attempt(dirs[k]).Some?
    ensures forall i :: j <= i < k ==> attempt(dirs[i]).None?
    decreases |dirs| - j
  {
    if j == |dirs| then j
    else if attempt(dirs[j]).Some? then j
    else FirstSomeFrom(attempt, dirs, j + 1)
  }

  /** What the candidate loop finds, if anything. */
  function TryDirs(config: GitHubConfig, lister: Lister, api: ListingRequest -> ApiReply,
                   http: string -> HttpReply, dirs: seq<string>): (r: Option<Found>)
    ensures r.None? <==> forall i :: 0 <= i < |dirs| ==> TryDir(config, lister, api, http, dirs[i]).None?
  {
    var k := FirstHit(config, lister, api, http, dirs);
    if k < |dirs| then TryDir(config, lister, api, http, dirs[k]) else None
  }

  predicate IsStylesDir(f: GitHubFile) { f.kind == DirEntry && Contains(f.path, "styles") }
  predicate IsCssSource(f: GitHubFile) { f.kind == FileEntry && EndsWith(f.name, ".css") }
  predicate HasUrl(f: GitHubFile) { Truthy(f.downloadUrl) }

  function Urls(files: seq<GitHubFile>): (urls: seq<string>)
    requires forall i :: 0 <= i < |files| ==> files[i].downloadUrl.Some?
    ensures |urls| == |files| && forall i :: 0 <= i < |files| ==> urls[i] == files[i].downloadUrl.value
  {
    if files == [] then [] else [files[0].downloadUrl.value] + Urls(files[1..])
  }

  /** The download URLs of a folder's style sheets, in listing order. */
  function CssUrls(files: seq<GitHubFile>): (urls: seq<string>)
    ensures |urls| <= |files|
    ensures forall i :: 0 <= i < |urls| ==>
      exists f :: f in files && IsCssSource(f) && f.downloadUrl == Some(urls[i]) && urls[i] != ""
    ensures forall f :: f in files && IsCssSource(f) && HasUrl(f) ==> f.downloadUrl.value in urls
  {
    var withUrl := Filter(HasUrl, Filter(IsCssSource, files));
    assert forall i :: 0 <= i < |withUrl| ==> HasUrl(withUrl[i]) by {
      forall i | 0 <= i < |withUrl| ensures HasUrl(withUrl[i]) { assert withUrl[i] in withUrl; }
    }
    var urls := Urls(withUrl);
    forall f | f in files && IsCssSource(f) && HasUrl(f) ensures f.downloadUrl.value in urls {
      assert f in withUrl;
      var i :| 0 <= i < |withUrl| && withUrl[i] == f;
      assert urls[i] == f.downloadUrl.value;
    }
    assert forall i :: 0 <= i < |urls| ==> withUrl[i] in files && IsCssSource(withUrl[i]) by {
      forall i | 0 <= i < |urls| ensures withUrl[i] in files && IsCssSource(withUrl[i]) {
        assert withUrl[i] in withUrl;
      }
    }
    urls
  }

  /** Which sheets are downloaded, entry by entry: a listing entry adds its
      URL exactly when it is a `.css` file with a non-empty download URL, and
      the URLs keep the listing order. */
  lemma CssUrlsCons(f: GitHubFile, rest: seq<GitHubFile>)
    ensures CssUrls([f] + rest)
         == (if IsCssSource(f) && HasUrl(f) then [f.downloadUrl.value] else []) + CssUrls(rest)
  {
    var s := [f] + rest;
    assert s[0] == f && s[1..] == rest;
    var css := Filter(IsCssSource, rest);
    if IsCssSource(f) {
      assert Filter(IsCssSource, s) == [f] + css;
      assert ([f] + css)[0] == f && ([f] + css)[1..] == css;
      if HasUrl(f) {
        var w := Filter(HasUrl, css);
        assert Filter(HasUrl, [f] + css) == [f] + w;
        assert ([f] + w)[0] == f && ([f] + w)[1..] == w;
      }
    }
  }

  /** The style sheets of the first `styles` folder under `src`, joined by a
      blank line; `''` when there is no such folder. A listing or download
      error here is not caught. */
  function StylesCss(config: GitHubConfig, lister: Lister, api: ListingRequest -> ApiReply,
                     http: string -> HttpReply, srcFiles: seq<GitHubFile>): (r: Result<string>)
    ensures Find(IsStylesDir, srcFiles).None? ==> r == Success("")
    ensures Find(IsStylesDir, srcFiles).Some? ==>
      var listed := List(lister, config.(path := Find(IsStylesDir, srcFiles).value.path), api);
      && (listed.Failure? ==> r == Failure(listed.error))
      && (listed.Success? ==>
            var urls := CssUrls(listed.value);
            && (r.Success? <==> forall i :: 0 <= i < |urls| ==> FetchFile(urls[i], http).Success?)
            && (r.Success? ==> r.value == Join(FetchAll(urls, http).value, "\n\n")))
  {
    match Find(IsStylesDir, srcFiles)
    case None => Success("")
    case Some(dir) =>
      match List(lister, config.(path := dir.path), api)
      case Failure(e) => Failure(e)
      case Success(styleFiles) =>
        var urls := CssUrls(styleFiles);
        var fetched := FetchAll(urls, http);
        if fetched.Success? then Success(Join(fetched.value, "\n\n")) else Failure(fetched.error)
  }

  /** The root `config.json`: a download or syntax error is swallowed and
      means "no metadata"; `null` makes the later field read throw. */
  function ReactConfig(rootFiles: seq<GitHubFile>, http: string -> HttpReply, json: string -> ParsedJson)
    : (r: Result<ComponentConfig>)
    ensures UrlOf(Find(IsConfigFile, rootFiles)).None? ==> r == Success(NoConfig)
    ensures UrlOf(Find(IsConfigFile, rootFiles)).Some? ==>
      var got := FetchFile(UrlOf(Find(IsConfigFile, rootFiles)).value, http);
      && (got.Failure? ==> r == Success(NoConfig))
      && (got.Success? && json(got.value).Malformed? ==> r == Success(NoConfig))
      && (got.Success? && json(got.value).JsonNull? ==> r == Failure(NullConfigMessage))
      && (got.Success? && json(got.value).JsonValue? ==> r == Success(json(got.value).config))
  {
    var url := UrlOf(Find(IsConfigFile, rootFiles));
    if url.None? then Success(NoConfig)
    else
      match FetchFile(url.value, http)
      case Failure(_) => Success(NoConfig)
      case Success(text) =>
        match json(text)
        case Malformed => Success(NoConfig)
        case JsonNull => Failure(NullConfigMessage)
        case JsonValue(c) => Success(c)
  }

  /** The component record the React strategy returns once it has found
      the component source, the style sheets and the metadata. */
  function AssembleReact(found: Found, styles: string, meta: ComponentConfig,
                         returnBlock: string -> Option<string>): (p: ParsedComponent)
    ensures p.html == ConvertReactToHtml(found.content, found.name, returnBlock)
    ensures p.css != "" && (styles != "" ==> p.css == styles)
    ensures p.js == Some("") && p.description.Some? && p.thumbnail == meta.thumbnail
    ensures p.name == OrElse(meta.name, found.name) && p.category == OrElse(meta.category, "hero")
    ensures meta.variables.Some? ==> p.variables == meta.variables.value
    ensures meta.variables.None? ==> p.variables == DetectReactVariables(found.content)
    ensures meta == NoConfig ==>
      p.name == found.name && p.category == "hero"
      && p.description == Some("React component: " + found.name)
      && p.variables == DetectReactVariables(found.content) && p.thumbnail.None?
  {
    ParsedComponent(
      OrElse(meta.name, found.name),
      OrElse(meta.category, "hero"),
      Some(OrElse(meta.description, "React component: " + found.name)),
      ConvertReactToHtml(found.content, found.name, returnBlock),
      if styles == "" then DefaultCss else styles,
      Some(""),
      if meta.variables.Some? then meta.variables.value else DetectReactVariables(found.content),
      meta.thumbnail)
  }

  /** `parseReactComponent(config)`, listing folders with `lister`. */
  function ParseReact(config: GitHubConfig, lister: Lister, api: ListingRequest -> ApiReply,
                      http: string -> HttpReply, json: string -> ParsedJson,
                      returnBlock: string -> Option<string>): (r: Result<ParsedComponent>)
    ensures List(lister, config.(path := Prefixed(config.path, "src")), api).Failure? ==> r.Failure?
    ensures r.Success? ==>
      TryDirs(config, lister, api, http, ComponentDirs).Some?
      && TryDirs(config, lister, api, http, ComponentDirs).value.content != ""
      && List(lister, config, api).Success?
    ensures r.Success? ==>
      var found := TryDirs(config, lister, api, http, ComponentDirs).value;
      r.value.html == ConvertReactToHtml(found.content, found.name, returnBlock)
      && r.value.js == Some("") && r.value.css != ""
    ensures r.Success? && UrlOf(Find(IsConfigFile, List(lister, config, api).value)).None? ==>
      var found := TryDirs(config, lister, api, http, ComponentDirs).value;
      r.value.name == found.name && r.value.category == "hero"
      && r.value.description == Some("React component: " + found.name)
      && r.value.variables == DetectReactVariables(found.content)
      && r.value.thumbnail.None?
  {
    match List(lister, config.(path := Prefixed(config.path, "src")), api)
    case Failure(e) => Failure(e)
    case Success(srcFiles) =>
      var found := TryDirs(config, lister, api, http, ComponentDirs);
      match StylesCss(config, lister, api, http, srcFiles)
      case Failure(e) => Failure(e)
      case Success(styles) =>
        if found.None? || found.value.content == "" then Failure(NoComponentMessage)
        else
          match List(lister, config, api)
          case Failure(e) => Failure(e)
          case Success(rootFiles) =>
            match ReactConfig(rootFiles, http, json)
            case Failure(e) => Failure(e)
            case Success(meta) => Success(AssembleReact(found.value, styles, meta, returnBlock))
  }

  /** The listing service never gives a directory a download URL (the
      contents API reports `download_url: null` for directories). */
  ghost predicate DirsHaveNoUrl(api: ListingRequest -> ApiReply) {
    forall req: ListingRequest, f: GitHubFile ::
      api(req).ApiReply? && f in BodyFiles(api(req).body) && f.kind == DirEntry ==> !Truthy(f.downloadUrl)
  }

  /** With directory-only listings no folder yields a component. */
  lemma DirsOnlyFindsNothing(config: GitHubConfig, api: ListingRequest -> ApiReply,
                             http: string -> HttpReply, dir: string)
    requires DirsHaveNoUrl(api)
    ensures TryDir(config, DirsOnly, api, http, dir).None?
  {
    var c := config.(path := Prefixed(config.path, dir));
    var listed := List(DirsOnly, c, api);
    if listed.Success? {
      var main := PickMain(listed.value);
      if main.Some? {
        var f := main.value;
        assert f in FetchContents(c, api).value;
        assert f in BodyFiles(api(RequestFor(c)).body);
      }
    }
  }

  /** As written, the React strategy cannot succeed: every folder it lists is
      reduced to its directories, so no component file is ever found. */
  lemma ReactAsWrittenAlwaysFails(config: GitHubConfig, api: ListingRequest -> ApiReply,
                                  http: string -> HttpReply, json: string -> ParsedJson,
                                  returnBlock: string -> Option<string>)
    requires DirsHaveNoUrl(api)
    ensures ParseReact(config, DirsOnly, api, http, json, returnBlock).Failure?
  {
    forall i | 0 <= i < |ComponentDirs| ensures TryDir(config, DirsOnly, api, http, ComponentDirs[i]).None? {
      DirsOnlyFindsNothing(config, api, http, ComponentDirs[i]);
    }
    assert TryDirs(config, DirsOnly, api, http, ComponentDirs).None?;
  }

  // ---------------------------------------------------------------------------
  // Dispatch (`parseComponentFromGitHub`)
  // ---------------------------------------------------------------------------

  /** Static or React, decided by a `src` directory and the presence of the
      repository coordinates; the React path lists folders in full. */
  function ParseFromGitHub(files: seq<GitHubFile>, config: Option<GitHubConfig>,
                           api: ListingRequest -> ApiReply, http: string -> HttpReply,
                           json: string -> ParsedJson, returnBlock: string -> Option<string>)
    : (r: Result<ParsedComponent>)
    ensures HasSrcDir(files) && config.Some? ==> r == ParseReact(config.value, FullListing, api, http, json, returnBlock)
    ensures !(HasSrcDir(files) && config.Some?) ==> r == ParseStatic(files, http, json)
  {
    if HasSrcDir(files) && config.Some? then ParseReact(config.value, FullListing, api, http, json, returnBlock)
    else ParseStatic(files, http, json)
  }

  /** A folder whose main file downloads to `text` is found by the
      candidate loop when it is the first candidate, `src/app/components`. */
  lemma FirstFolderFound(config: GitHubConfig, api: ListingRequest -> ApiReply, http: string -> HttpReply,
                         files: seq<GitHubFile>, f: GitHubFile, text: string)
    requires FetchContents(config.(path := Prefixed(config.path, ComponentDirs[0])), api) == Success(files)
    requires PickMain(files) == Some(f) && Truthy(f.downloadUrl)
    requires FetchFile(f.downloadUrl.value, http) == Success(text)
    ensures TryDirs(config, FullListing, api, http, ComponentDirs) == Some(Found(text, StripComponentExt(f.name)))
  {
    var dir := ComponentDirs[0];
    assert List(FullListing, config.(path := Prefixed(config.path, dir)), api) == Success(files);
    var hit := TryDir(config, FullListing, api, http, dir);
    assert hit == Some(Found(text, StripComponentExt(f.name)));
    assert TryDir(config, FullListing, api, http, ComponentDirs[0]).Some?;
    var k := FirstHit(config, FullListing, api, http, ComponentDirs);
    assert k == 0;
  }

  /** With full listings the React strategy finds a component file under
      `src/app/components`: a repository whose `src` holds no `styles`
      folder, whose component folder lists one component source with a
      download URL and non-empty content, and whose root has no
      `config.json`, parses to that component with the default metadata. */
  lemma ReactFindsComponent(files: seq<GitHubFile>, config: GitHubConfig,
                            api: ListingRequest -> ApiReply, http: string -> HttpReply,
                            json: string -> ParsedJson, returnBlock: string -> Option<string>,
                            f: GitHubFile, text: string)
    requires HasSrcDir(files)
    requires FetchContents(config.(path := Prefixed(config.path, "src")), api).Success?
    requires Find(IsStylesDir, FetchContents(config.(path := Prefixed(config.path, "src")), api).value).None?
    requires FetchContents(config.(path := Prefixed(config.path, "src/app/components")), api) == Success([f])
    requires IsComponentSource(f) && Truthy(f.downloadUrl)
    requires FetchFile(f.downloadUrl.value, http) == Success(text) && text != ""
    requires FetchContents(config, api).Success? && UrlOf(Find(IsConfigFile, FetchContents(config, api).value)).None?
    ensures var r := ParseFromGitHub(files, Some(config), api, http, json, returnBlock);
      && r.Success?
      && r.value.name == StripComponentExt(f.name) && r.value.category == "hero"
      && r.value.html == ConvertReactToHtml(text, StripComponentExt(f.name), returnBlock)
      && r.value.css == DefaultCss
      && r.value.variables == DetectReactVariables(text)
  {
    PickSingle(f);
    assert ComponentDirs[0] == "src/app/components";
    FirstFolderFound(config, api, http, [f], f, text);
    var found := Found(text, StripComponentExt(f.name));
    var cs := config.(path := Prefixed(config.path, "src"));
    var srcFiles := FetchContents(cs, api).value;
    assert List(FullListing, cs, api) == Success(srcFiles);
    assert StylesCss(config, FullListing, api, http, srcFiles) == Success("");
    var root := FetchContents(config, api).value;
    assert List(FullListing, config, api) == Success(root);
    assert ReactConfig(root, http, json) == Success(NoConfig);
    ParseReactSucceeds(config, api, http, json, returnBlock, srcFiles, found, "", root, NoConfig);
    assert ParseFromGitHub(files, Some(config), api, http, json, returnBlock)
        == Success(AssembleReact(found, "", NoConfig, returnBlock));
  }

  /** A lone component source is the folder's main file. */
  lemma PickSingle(f: GitHubFile)
    requires IsComponentSource(f)
    ensures PickMain([f]) == Some(f)
  {
    assert [f][0] == f && f in [f];
  }

  /** The React strategy succeeds once each of its steps does. */
  lemma ParseReactSucceeds(config: GitHubConfig, api: ListingRequest -> ApiReply, http: string -> HttpReply,
                           json: string -> ParsedJson, returnBlock: string -> Option<string>,
                           srcFiles: seq<GitHubFile>, found: Found, styles: string,
                           root: seq<GitHubFile>, meta: ComponentConfig)
    requires List(FullListing, config.(path := Prefixed(config.path, "src")), api) == Success(srcFiles)
    requires TryDirs(config, FullListing, api, http, ComponentDirs) == Some(found) && found.content != ""
    requires StylesCss(config, FullListing, api, http, srcFiles) == Success(styles)
    requires List(FullListing, config, api) == Success(root)
    requires ReactConfig(root, http, json) == Success(meta)
    ensures ParseReact(config, FullListing, api, http, json, returnBlock)
         == Success(AssembleReact(found, styles, meta, returnBlock))
  {
  }

  /** A character of `p` that `s` lacks keeps `p` out of `s`. */
  lemma NotContainedWithout(s: string, p: string, j: nat)
    requires j < |p| && p[j] !in s
    ensures !Contains(s, p)
  {
    ContainsIffOccurs(s, p);
  }

  /** `src/app/components/Hero.tsx` is a component source, so a repository
      holding it (and served as above) parses to the `Hero` component. */
  lemma HeroFound(files: seq<GitHubFile>, config: GitHubConfig,
                  api: ListingRequest -> ApiReply, http: string -> HttpReply,
                  json: string -> ParsedJson, returnBlock: string -> Option<string>, url: string, text: string)
    requires HasSrcDir(files)
    requires FetchContents(config.(path := Prefixed(config.path, "src")), api).Success?
    requires Find(IsStylesDir, FetchContents(config.(path := Prefixed(config.path, "src")), api).value).None?
    requires FetchContents(config.(path := Prefixed(config.path, "src/app/components")), api)
          == Success([GitHubFile("Hero.tsx", "src/app/components/Hero.tsx", FileEntry, Some(url), None)])
    requires url != "" && FetchFile(url, http) == Success(text) && text != ""
    requires FetchContents(config, api).Success? && UrlOf(Find(IsConfigFile, FetchContents(config, api).value)).None?
    ensures var r := ParseFromGitHub(files, Some(config), api, http, json, returnBlock);
      r.Success? && r.value.name == "Hero" && r.value.category == "hero"
  {
    var hero := GitHubFile("Hero.tsx", "src/app/components/Hero.tsx", FileEntry, Some(url), None);
    HeroIsComponentSource(hero);
    ReactFindsComponent(files, config, api, http, json, returnBlock, hero, text);
  }

  lemma HeroIsComponentSource(hero: GitHubFile)
    requires hero.name == "Hero.tsx" && hero.path == "src/app/components/Hero.tsx" && hero.kind == FileEntry
    ensures IsComponentSource(hero) && StripComponentExt(hero.name) == "Hero"
  {
    HeroName(hero.name);
    HeroPath(hero.path);
  }

  lemma HeroName(n: string)
    requires n == "Hero.tsx"
    ensures EndsWith(n, ".tsx") && !StartsWith(n, "index") && StripComponentExt(n) == "Hero"
  {
    assert n[|n| - 4..] == ".tsx";
    assert n[0] == 'H';
  }

  lemma HeroPath(p: string)
    requires p == "src/app/components/Hero.tsx"
    ensures !Contains(p, "/ui/") && !Contains(p, "/figma/")
  {
    HeroPathNoU(p);
    NotContainedWithout(p, "/ui/", 1);
    HeroPathNoF(p);
    NotContainedWithout(p, "/figma/", 1);
  }

  lemma HeroPathNoU(p: string)
    requires p == "src/app/components/Hero.tsx"
    ensures forall i :: 0 <= i < |p| ==> p[i] != 'u'
  {
  }

  lemma HeroPathNoF(p: string)
    requires p == "src/app/components/Hero.tsx"
    ensures forall i :: 0 <= i < |p| ==> p[i] != 'f'
  {
  }

  /** The dispatcher and the structure check disagree: a `src` folder
      without `package.json` sends the parse down the React path, while the
      check, which also wants `package.json`, judges the listing as a static
      one. */
  lemma DispatchWithoutPackageJson(files: seq<GitHubFile>, config: GitHubConfig,
                                   api: ListingRequest -> ApiReply, http: string -> HttpReply,
                                   json: string -> ParsedJson, returnBlock: string -> Option<string>)
    requires HasSrcDir(files) && !HasNamed(files, "package.json")
    ensures ParseFromGitHub(files, Some(config), api, http, json, returnBlock)
      == ParseReact(config, FullListing, api, http, json, returnBlock)
    ensures ReactDetectedWarning !in ValidateStructure(files).warnings
    ensures !HasSuffix(files, ".html") ==> !ValidateStructure(files).valid
  {
    var v := ValidateStructure(files);
    if !HasSuffix(files, ".html") {
      assert NoHtmlError in v.errors;
    }
  }

  /** A listing holding only a `src` folder: parsed as React, rejected by the
      structure check for lacking both page files. */
  lemma LoneSrcFolder(config: GitHubConfig, api: ListingRequest -> ApiReply,
                      http: string -> HttpReply, json: string -> ParsedJson,
                      returnBlock: string -> Option<string>)
    ensures var files := [GitHubFile("src", "src", DirEntry, None, None)];
      ParseFromGitHub(files, Some(config), api, http, json, returnBlock)
        == ParseReact(config, FullListing, api, http, json, returnBlock)
      && ValidateStructure(files).errors == [NoHtmlError, NoCssError]
  {
    var files := [GitHubFile("src", "src", DirEntry, None, None)];
    assert files[0] in files && IsSrcDir(files[0]);
    assert !HasNamed(files, "package.json");
    assert !HasSuffix(files, ".html") by {
      forall f | f in files ensures !EndsWith(f.name, ".html") { assert f == files[0]; }
    }
    assert !HasSuffix(files, ".css") by {
      forall f | f in files ensures !EndsWith(f.name, ".css") { assert f == files[0]; }
    }
    DispatchWithoutPackageJson(files, config, api, http, json, returnBlock);
    var v := ValidateStructure(files);
    assert NoHtmlError in v.errors && NoCssError in v.errors;
    assert v.errors == (if HasSuffix(files, ".html") then [] else [NoHtmlError])
                     + (if HasSuffix(files, ".css") then [] else [NoCssError]);
  }

  // ---------------------------------------------------------------------------
  // JSX to HTML (`convertReactToHTML`)
  // ---------------------------------------------------------------------------

  const JsxRules := [Literal("className=", "class="), Literal("htmlFor=", "for="), SlideExpression]

  const CommentOpen := "<!-- "

  /** The notice shown when no return block is found. */
  function FallbackHtml(name: string): string {
    CommentOpen + FallbackNotice(name)
  }

  function FallbackNotice(name: string): string {
    "React Component: " + name + " -->\n<div class=\"react-component\">\n    <p>This is a React component. Preview may not be fully accurate.</p>\n    <p>Component: " + name + "</p>\n</div>"
  }

  /** The converted markup: the first return block (found by `returnBlock`,
      which stands for the regular expression the source uses), trimmed and
      rewritten, under a comment naming the component; a fixed notice when
      no non-empty return block is found. */
  function ConvertReactToHtml(code: string, name: string, returnBlock: string -> Option<string>): (r: string)
    ensures returnBlock(code).None? || returnBlock(code).value == "" ==> r == FallbackHtml(name)
    ensures returnBlock(code).Some? && returnBlock(code).value != "" ==>
      r == CommentOpen + (name + " Component -->\n" + ApplyAll(JsxRules, Trim(returnBlock(code).value)))
  {
    CommentOpen + ConvertedBody(code, name, returnBlock)
  }

  /** What follows the opening of the comment. */
  function ConvertedBody(code: string, name: string, returnBlock: string -> Option<string>): string {
    var block := returnBlock(code);
    if block.Some? && block.value != "" then
      name + " Component -->\n" + ApplyAll(JsxRules, Trim(block.value))
    else
      FallbackNotice(name)
  }

  /** Whatever the source, the markup opens with an HTML comment. */
  lemma ConvertedOpensWithComment(code: string, name: string, returnBlock: string -> Option<string>)
    ensures StartsWith(ConvertReactToHtml(code, name, returnBlock), CommentOpen)
  {
    StartsWithConcat(CommentOpen, ConvertedBody(code, name, returnBlock));
  }

  /** Markup with no braces and no React-only attribute names passes
      through the rewrite unchanged. */
  lemma PlainJsxKept(jsx: string)
    requires !Contains(jsx, "className=") && !Contains(jsx, "htmlFor=") && '{' !in jsx
    ensures ApplyAll(JsxRules, jsx) == jsx
  {
    LiteralAbsent("className=", "class=", jsx);
    LiteralAbsent("htmlFor=", "for=", jsx);
    BraceFree(SlideExpression, jsx);
    assert ApplyAll(JsxRules, jsx) == ApplyAll(JsxRules[1..], ReplaceAll(JsxRules[0], jsx));
    assert JsxRules[1..][1..] == [SlideExpression];
  }

  lemma LiteralAbsent(p: string, q: string, s: string)
    requires !Contains(s, p)
    ensures ReplaceAll(Literal(p, q), s) == s
  {
    ContainsIffOccurs(s, p);
    forall i | 0 <= i < |s| ensures MatchAt(Literal(p, q), s[i..]).None? {
      StartsWithAt(s, p, i);
    }
    ReplaceAllNoMatch(Literal(p, q), s);
  }

  // ---------------------------------------------------------------------------
  // Variables of a React component (`autoDetectReactVariables`)
  // ---------------------------------------------------------------------------

  /** The prop names looked for, lower-cased (the pattern ignores case). */
  const PropNames := ["title", "heading", "description", "text", "label", "buttontext", "subtitle", "name"]

  /** The maximal runs of word characters, left to right. With `\b` on both
      sides, `/\b(title|…|name)\b/gi` matches exactly those runs that equal
      one of the names up to case. */
  function Words(s: string): (ws: seq<string>)
    ensures forall w :: w in ws ==> w != [] && forall i :: 0 <= i < |w| ==> IsWordChar(w[i])
    ensures (forall i :: 0 <= i < |s| ==> !IsWordChar(s[i])) ==> ws == []
    decreases |s|
  {
    if s == [] then []
    else if !IsWordChar(s[0]) then Words(s[1..])
    else
      var k := SpanEnd(s, 0, IsWordChar);
      [s[..k]] + Words(s[k..])
  }

  /** A single word of word characters is its own only word. */
  lemma WordsOfWord(w: string)
    requires w != [] && forall i :: 0 <= i < |w| ==> IsWordChar(w[i])
    ensures Words(w) == [w]
  {
    SpanEndExact(w, 0, |w|, IsWordChar);
    assert IsWordChar(w[0]);
    assert w[..|w|] == w;
    assert Words(w[|w|..]) == Words([]) == [];
  }

  /** A character outside `\w` separates the words: the words of
      `a + [c] + b` are those of `a` followed by those of `b`. Together with
      `WordsOfWord` this pins the words down, in order, with repeats. */
  lemma {:induction false} WordsSplit(a: string, c: char, b: string)
    requires !IsWordChar(c)
    ensures Words(a + [c] + b) == Words(a) + Words(b)
    decreases |a|
  {
    var s := a + [c] + b;
    if a == [] {
      assert s == [c] + b && s[1..] == b;
    } else if !IsWordChar(a[0]) {
      assert s[1..] == a[1..] + [c] + b;
      WordsSplit(a[1..], c, b);
    } else {
      var k := SpanEnd(a, 0, IsWordChar);
      WordRunInPrefix(a, c, b, k);
      assert s[..k] == a[..k];
      assert s[k..] == a[k..] + [c] + b;
      WordsSplit(a[k..], c, b);
      assert Words(s) == [s[..k]] + Words(s[k..]);
      assert Words(a) == [a[..k]] + Words(a[k..]);
    }
  }

  /** The first word of `a` ends where it ends in `a + [c] + b`. */
  lemma WordRunInPrefix(a: string, c: char, b: string, k: nat)
    requires !IsWordChar(c) && a != [] && k == SpanEnd(a, 0, IsWordChar)
    ensures SpanEnd(a + [c] + b, 0, IsWordChar) == k
  {
    var s := a + [c] + b;
    assert forall i :: 0 <= i < k ==> s[i] == a[i];
    assert k == |a| ==> s[k] == c;
    assert k < |a| ==> s[k] == a[k];
    SpanEndExact(s, 0, k, IsWordChar);
  }

  /** The lower-cased words that are prop names, in order of appearance. */
  function PropMatches(ws: seq<string>): (ms: seq<string>)
    ensures |ms| <= |ws|
    ensures forall m :: m in ms ==> m in PropNames
    ensures forall m :: m in ms <==> exists w :: w in ws && Lower(w) == m && m in PropNames
    ensures |ws| == 1 ==> ms == if Lower(ws[0]) in PropNames then [Lower(ws[0])] else []
  {
    if ws == [] then []
    else
      var rest := PropMatches(ws[1..]);
      assert forall w :: w in ws <==> w == ws[0] || w in ws[1..];
      if Lower(ws[0]) in PropNames then [Lower(ws[0])] + rest else rest
  }

  /** The matches of two word lists one after the other are the matches of
      each, in order: every occurrence counts, repeats included. */
  lemma {:induction false} PropMatchesAppend(a: seq<string>, b: seq<string>)
    ensures PropMatches(a + b) == PropMatches(a) + PropMatches(b)
  {
    if a == [] {
      assert a + b == b;
    } else {
      assert (a + b)[0] == a[0] && (a + b)[1..] == a[1..] + b;
      PropMatchesAppend(a[1..], b);
    }
  }

  /** The prop names found in text split by a non-word character are those
      found on each side, in order. */
  lemma MatchesSplit(a: string, c: char, b: string)
    requires !IsWordChar(c)
    ensures PropMatches(Words(a + [c] + b)) == PropMatches(Words(a)) + PropMatches(Words(b))
  {
    WordsSplit(a, c, b);
    PropMatchesAppend(Words(a), Words(b));
  }

  /** A prop label: a space before capitals, trimmed, first letter upper-cased. */
  function PropLabel(key: string): string {
    CapitalizeFirst(Trim(SpaceBeforeCapitals(key)))
  }

  function DefaultPropTable(): (t: VarTable)
    ensures t.Valid() && t.keys == ["title", "description"]
    ensures t.values == map["title" := "Title", "description" := "Description"]
  {
    VarTable(["title", "description"], map["title" := "Title", "description" := "Description"])
  }

  function DetectReactVariables(code: string): (t: VarTable)
    ensures t.Valid() && t.keys != []
    ensures forall k :: k in t.keys ==> k in PropNames
    ensures PropMatches(Words(code)) == [] ==> t == DefaultPropTable()
    ensures PropMatches(Words(code)) != [] ==>
      t.keys == Dedup(PropMatches(Words(code)))
      && forall k :: k in t.values ==> t.values[k] == PropLabel(k)
  {
    var keys := Dedup(PropMatches(Words(code)));
    DedupNoDup(PropMatches(Words(code)));
    DedupMembers(PropMatches(Words(code)));
    if keys == [] then
      assert PropMatches(Words(code)) == [] || PropMatches(Words(code))[0] in PropMatches(Words(code));
      DefaultPropTable()
    else FromKeys(keys, PropLabel)
  }

  /** Every prop name is lower-case letters only. */
  lemma PropNamesLower(k: string)
    requires k in PropNames
    ensures k != [] && forall i :: 0 <= i < |k| ==> IsLower(k[i])
  {
  }

  /** The label of a lower-case word (every prop name is one) is the word
      with its first letter capitalised. */
  lemma PropLabelCapitalises(k: string)
    requires k != [] && forall i :: 0 <= i < |k| ==> IsLower(k[i])
    ensures PropLabel(k) == [UpperChar(k[0])] + k[1..]
  {
    SpacedNoCapitals(k);
    assert !IsSpace(k[0]) && !IsSpace(k[|k| - 1]);
    TrimNoEdgeSpace(k);
    var r := CapitalizeFirst(k);
    assert r == [r[0]] + r[1..];
  }

  /** Every detected React variable is labelled by its key with the first
      letter capitalised, the defaults included. */
  lemma ReactLabelsCapitalise(code: string)
    ensures var t := DetectReactVariables(code);
      forall k :: k in t.values ==> k != [] && t.values[k] == [UpperChar(k[0])] + k[1..]
  {
    var t := DetectReactVariables(code);
    if PropMatches(Words(code)) != [] {
      forall k | k in t.values
        ensures k != [] && t.values[k] == [UpperChar(k[0])] + k[1..]
      {
        assert k in t.keys;
        PropNamesLower(k);
        PropLabelCapitalises(k);
      }
    } else {
      DefaultLabels();
    }
  }

  lemma DefaultLabels()
    ensures var t := DefaultPropTable();
      forall k :: k in t.values ==> k != [] && t.values[k] == [UpperChar(k[0])] + k[1..]
  {
    assert "Title" == [UpperChar('t')] + "itle";
    assert "Description" == [UpperChar('d')] + "escription";
  }
}
