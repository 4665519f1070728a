# FrameCraft core in Dafny

FrameCraft is a website builder. An administrator imports UI components from a
GitHub repository or from an uploaded folder. A component is HTML with
`{{name}}` placeholders, CSS, and a table of variables. Users then create
websites, fill the placeholders and preview the result.

This project models the part of FrameCraft that turns source files into
components and components into pages:

- the GitHub client (`src/lib/github.ts`): the request it builds, its error
  messages, the directory filter and the repository-reference parser;
- the two server-side proxies (`api/github/browse.ts`, `api/github/content.ts`);
- the component parser (`src/lib/componentParser.ts`):
  - the static and React strategies and the dispatcher between them;
  - the JSX-to-HTML conversion and both variable detectors;
  - the structure validator;
- the folder upload (`src/components/admin/FolderUpload.tsx`): file selection,
  the JSX rewrite rules and the variable detector;
- the placeholder engine shared by the builder, the live preview and the site
  builder;
- the forms around it:
  - the sign-up and reset-password rules;
  - the creation wizard and the new-site dialog;
  - the settings page, the dashboard search and delete, and the profile page;
- the helpers of `src/lib/utils.ts` and the option tables of `src/lib/constants.ts`.

The model is built from immutable datatypes and pure functions. Everything the
program delegates to other code becomes a parameter of the function that uses it:

- the network (GitHub's API, raw downloads, the Supabase calls behind `api`);
- `JSON.parse`, as a function from text to a parsed value or a failure;
- the regular expression that extracts a component's `return (...)` block;
- every callback a page receives (update, upload, create, delete, sign-up).

The two proxies take the upstream reply as such a parameter as well.

Each module follows one source file:

| Module | Source file |
|---|---|
| `Wrappers` | the JavaScript defaults (`x \|\| d`, `??`) |
| `Strings` | string helpers |
| `Collections`, `VarTables` | sequence helpers and string records |
| `GitHub` | `github.ts` |
| `ComponentParser` | `componentParser.ts` |
| `Placeholders` | the placeholder engine |
| `JsxRewrite`, `FolderUpload` | `FolderUpload.tsx` |
| `GitHubBrowser` | `GitHubBrowser.tsx` |
| `ProxyHttp`, `BrowseProxy`, `ContentProxy` | the proxies |
| the remaining modules | one page each |

Behaviour of the code that a reader may not expect:

- `parseStaticComponent` downloads the HTML, CSS, JS and config together with
  `Promise.all`. A failed JS or config download therefore fails the whole
  parse; it does not fall back to an empty script or an empty config.
- The static strategy picks the first file with a matching suffix. The names
  it lists (`index.html`, `style.css`, ...) have no priority, because each of
  them already ends in the suffix (`ComponentParser.ChoiceIsSuffix`).
- The content proxy never reads a server token. It only requires the URL to
  contain `github.com` or `githubusercontent.com`, anywhere in it.
- The settings page sends an emptied business sector, meta title or meta
  description as `undefined`. The update leaves such a field out, so the stored
  value stays and shows again after the reload
  (`WebsiteSettings.ClearedFieldReturns`).
- The structure validator requires `package.json` for a React project, but the
  dispatcher only looks for a `src` directory (`ComponentParser.DispatchWithoutPackageJson`).

## Model

| member | source | states |
|---|---|---|
| GitHub.BranchOf | src/lib/github.ts:28 | an absent branch reads as "main"; a given branch, even an empty one, is kept |
| GitHub.RequestFor | src/lib/github.ts:28-38 | the URL is exactly `https://api.github.com/repos/` then owner, `/`, repo, `/contents/`, the path, `?ref=` and the branch (default "main"); the Accept header is the v3 JSON type; an Authorization header is sent exactly when a token is given, and it is "Bearer " followed by the token |
| GitHub.RequestNamesBranch | src/lib/github.ts:28-38 | for the same owner, repository and path, two configurations address the same URL exactly when their branches (after the default) are equal |
| GitHub.ListingError | src/lib/github.ts:43-50 | 404 and 403 get their own messages; every other failure reports the status text after "GitHub API Error: " |
| GitHub.FetchContents | src/lib/github.ts:25-59 | a listing succeeds exactly when the reply is OK and its body is JSON, and then holds the body's entries; a non-OK status gives its listing error; an unreachable service passes its message through |
| GitHub.ListingWraps | src/lib/github.ts:53-54 | a body that is a single entry becomes a listing of that one entry |
| GitHub.FetchFile | src/lib/github.ts:64-72 | a download is requested from the given URL; an OK reply yields its text; a non-OK reply fails with "Failed to fetch file: " and the status text; an unreachable URL fails with the network error |
| GitHub.FetchFileServes | src/lib/github.ts:64-72 | for any reply, the result is the text exactly when the reply is OK, and otherwise a message that starts with "Failed to fetch file: " and continues with exactly the status text |
| GitHub.BrowseDirectory | src/lib/github.ts:77-84 | browsing succeeds exactly when the listing does; an entry is kept exactly when it is listed and is a directory; a failed listing is passed through |
| GitHub.BrowseKeepsOrder | src/lib/github.ts:80-83 | the kept entries are all directories and keep their listing order |
| GitHub.UrlMatchAt | src/lib/github.ts:92-93 | a match at a position is `github.com/`, a non-empty owner, a slash and a non-empty repository, neither containing a slash |
| GitHub.FindUrlMatch | src/lib/github.ts:92-93 | a match is the one at the leftmost position from the start where the pattern matches: every earlier position has no match; none is reported only when no position matches |
| GitHub.FirstMatchAt | src/lib/github.ts:92-93 | a search from any start that meets no match before a matching position returns that position's match |
| GitHub.ShortMatch | src/lib/github.ts:103-104 | the `owner/repo` shorthand matches exactly when the text holds one slash that is neither first nor last |
| GitHub.ParseGitHubUrl | src/lib/github.ts:90-114 | a full-URL match wins, with the first `.git` removed from the repository; otherwise the `owner/repo` shorthand decides; an owner is never empty and never holds a slash |
| GitHub.NoSlashNoRepo | src/lib/github.ts:90-114 | text without a slash never names a repository |
| GitHub.ShorthandVerbatim | src/lib/github.ts:102-111 | `owner/repo`, each part non-empty and without slashes, gives exactly that owner and that repository |
| GitHub.FullUrl | src/lib/github.ts:92-99 | any text without a `g` followed by `github.com/owner/repo` and anything after gives that owner and the repository with its first `.git` removed |
| GitHub.UrlMatchAfter | src/lib/github.ts:92-93 | at the position where `github.com/owner/repo` starts, the pattern matches with that owner and repository |
| GitHub.HttpsUrl | src/lib/github.ts:90-99 | `https://github.com/owner/repo` names that owner and the repository with its first `.git` removed |
| BrowseProxy.Handle | api/github/browse.ts:28-125 | only POST is served (405); a missing body gives 500 with the destructuring error; a missing owner or repository gives 400; a missing server token gives 500; upstream is asked exactly when all three are present, at the contents URL for the path and the branch or "main", with "token " and the server token; an unreachable upstream gives 500 with its message; a non-OK reply gives the 404, 403 or general upstream error for `owner/repo/path`; an OK reply that does not parse gives 500; an OK listing is answered with its projected entries |
| BrowseProxy.UpstreamError | api/github/browse.ts:71-94 | the upstream status is kept; 404 and 403 get their own messages with the details; any other status reports "GitHub API error" with the text and the status |
| BrowseProxy.Project | api/github/browse.ts:105-115 | a projected entry holds exactly those of the nine file fields the upstream entry has, with the same values |
| BrowseProxy.ListedEntriesProjected | api/github/browse.ts:96-116 | a files answer comes with status 200 from an upstream reply, holds only the nine file fields per entry, and has one entry per upstream entry |
| ContentProxy.Handle | api/github/content.ts:16-59 | only POST is served (405); a missing body gives 500 with the destructuring error; a missing URL gives 400; a URL naming neither githubusercontent.com nor github.com gives 400; the URL is fetched exactly otherwise; an unreachable URL gives 500 with its message; an OK reply returns its text and any other status is kept with the fetch-failure error |
| ContentProxy.GateIsSubstring | api/github/content.ts:27-30 | any URL with `github.com` anywhere in it is fetched, whatever its host |
| ContentProxy.GateAdmitsUserContent | api/github/content.ts:27-30 | any URL with `githubusercontent.com` in it is fetched as well, although that name does not contain `github.com` |
| ComponentParser.ParseFromGitHub | src/lib/componentParser.ts:35-49 | the React strategy, listing folders in full, is used exactly when the listing has a directory named `src` and a repository is configured; otherwise the static strategy |
| ComponentParser.FirstFolderFound | src/lib/componentParser.ts:134-168 | when the first candidate folder lists a single component source with a URL whose download succeeds, the search stops there with its text and its name without extension |
| ComponentParser.ReactFindsComponent | src/lib/componentParser.ts:35-49 | a repository with `src`, no styles folder and one component source in `src/app/components` parses to that component: its name without extension, category "hero", the converted markup, the default CSS and the detected variables |
| ComponentParser.HeroFound | src/lib/componentParser.ts:35-49 | a repository holding `src/app/components/Hero.tsx` parses to a component named "Hero" in category "hero" |
| ComponentParser.DispatchWithoutPackageJson | src/lib/componentParser.ts:35-49 | a listing with a `src` directory and no `package.json` still goes to the React strategy, though the validator gives no React notice and rejects it without an HTML file |
| ComponentParser.LoneSrcFolder | src/lib/componentParser.ts:331-381 | a listing holding only a `src` directory goes to the React strategy while the validator reports both the missing HTML and the missing CSS |
| ComponentParser.ChoiceIsSuffix | src/lib/componentParser.ts:56-68 | each file choice holds exactly when the name has the suffix, so the listed names give no priority |
| ComponentParser.Find | src/lib/componentParser.ts:56-68 | a file is chosen exactly when some listed file passes the test, and it is the first such file |
| ComponentParser.StaticSourcesOf | src/lib/componentParser.ts:56-76 | without an HTML or a CSS file the parse fails with the missing-files message; without a download URL for either, with the URL message; otherwise the URLs of the chosen files are used |
| ComponentParser.FetchAll | src/lib/componentParser.ts:79-84 | the downloads succeed exactly when each does, giving the texts in order; a failure carries the error of a failed download |
| ComponentParser.FetchSources | src/lib/componentParser.ts:79-84 | the parse's downloads succeed exactly when each present file downloads; an absent script and config read as "" |
| ComponentParser.AssembleStatic | src/lib/componentParser.ts:87-106 | a `null` config fails; otherwise HTML and CSS are the downloads, an empty script is absent, and the config's name, category and variables win over "Untitled Component", "other" and the variables detected in the HTML |
| ComponentParser.ParseStatic | src/lib/componentParser.ts:54-107 | a static parse fails on a missing HTML or CSS file or URL; a result carries the downloaded HTML and CSS and the thumbnail's URL; without a config it has the defaults and the detected variables |
| ComponentParser.Prefixed | src/lib/componentParser.ts:141-143 | under a blank configured path a candidate folder is used as is; otherwise it is the path, a slash and the folder |
| ComponentParser.PickMain | src/lib/componentParser.ts:152-158 | the main file is the first component source outside index files and `/ui/` or `/figma/` folders, else the first index file |
| ComponentParser.StripComponentExt | src/lib/componentParser.ts:162 | a `.tsx` or `.jsx` name loses exactly its four-character extension; other names are kept |
| ComponentParser.FirstSomeFrom | src/lib/componentParser.ts:138-169 | the result is the first folder from the start index on that yields something, or the end when none does |
| ComponentParser.TryDirs | src/lib/componentParser.ts:138-169 | no component is found exactly when no candidate folder yields one |
| ComponentParser.FirstHit | src/lib/componentParser.ts:138-169 | the chosen folder yields a component and every earlier candidate does not |
| ComponentParser.StylesCss | src/lib/componentParser.ts:171-193 | without a styles directory the CSS is ""; a failed listing of it fails the parse; otherwise the parse fails exactly when a style sheet download fails, and the CSS is the downloaded sheets joined by blank lines |
| ComponentParser.CssUrls | src/lib/componentParser.ts:184-191 | the URLs downloaded are those of the listed `.css` files that have a download URL: every such file's URL is among them and each URL belongs to such a file |
| ComponentParser.CssUrlsCons | src/lib/componentParser.ts:184-191 | the URLs are taken in listing order: a leading `.css` file with a URL contributes its URL first, any other leading file nothing |
| ComponentParser.ReactConfig | src/lib/componentParser.ts:209-221 | without a config URL, or when its download fails or it is malformed, the config is empty; a `null` config fails; a parsed config is used |
| ComponentParser.AssembleReact | src/lib/componentParser.ts:201-235 | the HTML is the converted component; empty styles get the default stylesheet; the config's fields win over the component name, "hero", the derived description and the detected props |
| ComponentParser.ParseReact | src/lib/componentParser.ts:113-236 | a failed `src` listing fails the parse; a result needs a component found in a candidate folder with non-empty content and a root listing; its HTML is the converted component; without a config it has the derived defaults |
| ComponentParser.List | src/lib/componentParser.ts:146-149 | a listing's entries come from the contents listing; the directory-only lister returns only directories |
| ComponentParser.DirsOnlyFindsNothing | src/lib/componentParser.ts:146-160 | when folders are listed with the directory-only browser (github.ts:83) no candidate folder yields a component |
| ComponentParser.ReactAsWrittenAlwaysFails | src/lib/componentParser.ts:146-160 | with the directory-only browser, every React parse fails |
| ComponentParser.ConvertReactToHtml | src/lib/componentParser.ts:242-274 | a non-empty return block is trimmed and rewritten under a comment naming the component; otherwise the fallback notice names it |
| ComponentParser.ConvertedOpensWithComment | src/lib/componentParser.ts:265-273 | whatever the source, the converted HTML opens with an HTML comment |
| ComponentParser.PlainJsxKept | src/lib/componentParser.ts:253-263 | JSX without `className=`, `htmlFor=` or braces passes the rewrite unchanged |
| ComponentParser.Words | src/lib/componentParser.ts:283 | every word found is non-empty and made of word characters; a text without word characters, the empty text included, has no words |
| ComponentParser.WordsOfWord | src/lib/componentParser.ts:283 | a text made only of word characters is one word |
| ComponentParser.WordsSplit | src/lib/componentParser.ts:283 | a non-word character splits the text: the words of `a c b` are the words of `a` followed by those of `b`, so every word is found, in order |
| ComponentParser.PropMatches | src/lib/componentParser.ts:283 | the matches are the lower-cased words that are known prop names, never more than the words; a single word matches exactly when it is a prop name in any case |
| ComponentParser.PropMatchesAppend | src/lib/componentParser.ts:283 | matching concatenated word lists concatenates the matches, so order and repetitions are kept |
| ComponentParser.MatchesSplit | src/lib/componentParser.ts:283 | the matches of `a c b`, for a non-word character `c`, are those of `a` followed by those of `b` |
| ComponentParser.PropNamesLower | src/lib/componentParser.ts:283 | every known prop name is non-empty and lower case |
| ComponentParser.PropLabelCapitalises | src/lib/componentParser.ts:288-291 | the label of a lower-case prop name is the name with its first letter upper-cased |
| ComponentParser.DefaultPropTable | src/lib/componentParser.ts:295-298 | the fallback table is title and description, labelled "Title" and "Description" |
| ComponentParser.DetectReactVariables | src/lib/componentParser.ts:279-301 | the keys are known prop names and never empty; with matches they are the distinct matches in first-occurrence order, each labelled; without, the fallback table |
| ComponentParser.ReactLabelsCapitalise | src/lib/componentParser.ts:287-298 | every detected React variable is labelled by its name with the first letter upper-cased |
| ComponentParser.ValidateStructure | src/lib/componentParser.ts:331-381 | valid exactly when there are no errors; `src` with `package.json` is valid with the React notice; otherwise the HTML and CSS errors hold exactly when those files are missing, and the config and thumbnail warnings exactly when those are missing; each message appears at most once, the errors in the order HTML, CSS and the warnings in the order config, thumbnail |
| Placeholders.DetectVariables | src/lib/componentParser.ts:307-325 | the keys are the distinct placeholder names in first-occurrence order, each labelled |
| Placeholders.UnderscoresToSpaces | src/lib/componentParser.ts:318 | every underscore becomes a space and every other character is kept |
| Placeholders.CapitalizeFirst | src/lib/componentParser.ts:321 | the first character is upper-cased and the rest kept |
| Placeholders.LabelShape | src/lib/componentParser.ts:316-321 | a label has no underscore, no white space at either end, and no capital after its first character |
| Placeholders.TokenizeRoundTrip | src/components/admin/LivePreview.tsx:13-15 | joining the text and `{{...}}` holes of a template gives the template back |
| Placeholders.LeadingHole | src/components/admin/LivePreview.tsx:13-15 | a template that opens with a closed placeholder yields that hole, then the tokens of the rest |
| Placeholders.Fill | src/components/admin/LivePreview.tsx:14 | a placeholder whose trimmed name has a non-empty value becomes that value; otherwise it stays as written; text is kept |
| Placeholders.Tokenize | src/components/admin/LivePreview.tsx:13-15 | every placeholder read has a non-empty inner text without `}` |
| Placeholders.Substitute | src/components/admin/LivePreview.tsx:13-15 | when no placeholder has a non-empty value (in particular with no values at all), substitution gives the template back; the filling itself is fixed step by step by SubstituteLiteral and SubstituteHoleAt |
| Placeholders.SubstituteNoBindings | src/components/admin/LivePreview.tsx:13-15 | substituting the empty table changes nothing |
| Placeholders.SubstituteBoundHole | src/components/admin/LivePreview.tsx:13-15 | a leading placeholder with a non-empty value is replaced by it, the rest substituted |
| Placeholders.SubstituteUnboundHole | src/components/admin/LivePreview.tsx:13-15 | a leading placeholder without a non-empty value is kept verbatim, the rest substituted |
| Placeholders.SubstituteLiteral | src/components/admin/LivePreview.tsx:13-15 | a template that does not open with a placeholder keeps its first character, and substitution resumes at the next one |
| Placeholders.SubstituteHoleAt | src/components/admin/LivePreview.tsx:13-15 | a template that opens with a placeholder gives that placeholder's filling followed by the substitution of the rest; with SubstituteLiteral this fixes the result on every template |
| Placeholders.SubstituteAfterText | src/components/admin/LivePreview.tsx:13-15 | text without `{` before a template is kept as it is, and the template after it is substituted as if it stood alone |
| Placeholders.SubstituteHoleAfterText | src/components/admin/LivePreview.tsx:13-15 | a placeholder after text without `{` is replaced by its non-empty value, or kept verbatim without one; the text before it is kept and the rest substituted on its own |
| Placeholders.SubstituteInMarkup | src/components/admin/LivePreview.tsx:13-15 | one placeholder inside markup without other braces, such as `<h1>{{title}}</h1>`, is replaced by its value and the markup around it is kept |
| Placeholders.DetectNames | src/pages/admin/ComponentBuilder.tsx:25-29 | the detected names are distinct, are exactly the placeholders' names, and are in first-occurrence order |
| Placeholders.NoPlaceholderNoNames | src/pages/admin/ComponentBuilder.tsx:25-29 | HTML without `{{` has no variables |
| JsxRewrite.CollapseSpaces | src/components/admin/FolderUpload.tsx:168 | after collapsing, no two white-space characters are adjacent, the non-space text is unchanged, and the result is empty only for empty input |
| JsxRewrite.SimpleExprOfWord | src/components/admin/FolderUpload.tsx:166 | `{word}` becomes `{{word}}` |
| JsxRewrite.SlideFieldOfWord | src/components/admin/FolderUpload.tsx:164 | `{currentSlideData.f}` becomes `{{f}}` |
| JsxRewrite.MemberAccessOfWords | src/components/admin/FolderUpload.tsx:165 | `{a.b}` becomes `{{a_b}}` |
| JsxRewrite.MemberAccessSkipsPlaceholder | src/components/admin/FolderUpload.tsx:164-165 | the member-access rule leaves a placeholder `{{w}}` alone |
| JsxRewrite.SlideFieldSkipsPlaceholder | src/components/admin/FolderUpload.tsx:164-165 | the slide-field rule leaves a placeholder `{{w}}` alone |
| JsxRewrite.SimpleExprRewrapsPlaceholder | src/components/admin/FolderUpload.tsx:166 | the bare-word rule turns a placeholder `{{w}}` into `{{{w}}}` |
| JsxRewrite.SimpleExprSkipsMemberAccess | src/components/admin/FolderUpload.tsx:166 | the bare-word rule leaves `{a.b}` alone |
| JsxRewrite.SlideFieldSkipsMemberAccess | src/components/admin/FolderUpload.tsx:164 | the slide-field rule leaves `{a.b}` alone unless a is currentSlideData |
| JsxRewrite.BraceFree | src/components/admin/FolderUpload.tsx:155-166 | the rules that start at `{` leave text without `{` unchanged |
| JsxRewrite.LiteralSelf | src/components/admin/FolderUpload.tsx:155-166 | replacing a literal by itself changes nothing |
| JsxRewrite.ReplaceAllNoMatch | src/components/admin/FolderUpload.tsx:143-170 | a global replace whose rule matches nowhere changes nothing |
| FolderUpload.ExcludedAnywhere | src/components/admin/FolderUpload.tsx:38-44 | a name holding `test`, `.spec`, `App.tsx` or `main.tsx` anywhere is never a component file (so `Latest.tsx` is excluded) |
| FolderUpload.ComponentNeedsScriptEnding | src/components/admin/FolderUpload.tsx:38-44 | a `.css` name is never a component file |
| FolderUpload.Tag | src/components/admin/FolderUpload.tsx:60-65 | a read file keeps its name and content; its path is the relative path, else the name; it is a component exactly when its name passes the component test |
| FolderUpload.Upload | src/components/admin/FolderUpload.tsx:57-79 | a failed read gives "Failed to read files"; a successful upload has one record per kept file, in folder order, each describing its file |
| FolderUpload.UploadFailsIffUnreadable | src/components/admin/FolderUpload.tsx:57-79 | the upload fails exactly when some kept file cannot be read |
| FolderUpload.HandleFiles | src/components/admin/FolderUpload.tsx:50-81 | a failed read gives its message; with no component or CSS file the no-files message is shown; otherwise the uploaded files are parsed and submitted |
| FolderUpload.NothingKept | src/components/admin/FolderUpload.tsx:69-73 | a folder with no component or CSS file is rejected with the no-files message |
| FolderUpload.StylesOnly | src/components/admin/FolderUpload.tsx:83-90 | a readable folder with style sheets but no component file is rejected with the no-React-component message |
| FolderUpload.MainUpload | src/components/admin/FolderUpload.tsx:86-97 | a main file exists exactly when some upload is a component; it is the first component named Hero.tsx, Component.tsx or index.tsx, else the first component |
| FolderUpload.ParseAndSubmit | src/components/admin/FolderUpload.tsx:83-124 | it fails exactly when no upload is a component; otherwise the component is named after the main file without extension, with category "Hero", its converted HTML, its detected variables and the style sheets joined by blank lines |
| FolderUpload.StripImports | src/components/admin/FolderUpload.tsx:128 | removing import lines never lengthens the code |
| FolderUpload.StripImportsKeepsPlainCode | src/components/admin/FolderUpload.tsx:128 | code that never mentions `import` is kept as is |
| FolderUpload.StripImportsLine | src/components/admin/FolderUpload.tsx:128 | a line is emptied exactly when it starts with `import` and later holds `from`; its line terminator is kept |
| FolderUpload.JsxSpan | src/components/admin/FolderUpload.tsx:136 | the span runs from the first `<` to the last `>`, and there is none exactly when no `<` is followed, one character or more later, by a `>` |
| FolderUpload.ConvertSource | src/components/admin/FolderUpload.tsx:128-140 | the converted text is the return block when there is one, else the JSX span, else the code without its import lines |
| FolderUpload.RewriteMarkup | src/components/admin/FolderUpload.tsx:143-170 | the rewritten markup has no two adjacent white-space characters and, apart from white space, is the output of the rewrite rules |
| FolderUpload.ConvertFolder | src/components/admin/FolderUpload.tsx:126-178 | the HTML is the fallback, or at least 20 characters, trimmed, without doubled white space, and apart from white space the output of the rewrite rules |
| FolderUpload.AsWrittenSlideFieldTripleBraced | src/components/admin/FolderUpload.tsx:164-166 | with the rules in their written order, `{currentSlideData.w}` ends up as `{{{w}}}` |
| FolderUpload.AsWrittenMemberAccessTripleBraced | src/components/admin/FolderUpload.tsx:165-166 | with the rules in their written order, `{a.b}` ends up as `{{{a_b}}}` |
| FolderUpload.SlideFieldPlaceholder | src/components/admin/FolderUpload.tsx:164-166 | with the bare-word rule first, `{currentSlideData.w}` becomes the placeholder `{{w}}` |
| FolderUpload.MemberAccessPlaceholder | src/components/admin/FolderUpload.tsx:165-166 | with the bare-word rule first, `{a.b}` becomes the placeholder `{{a_b}}` |
| FolderUpload.BareWordPlaceholder | src/components/admin/FolderUpload.tsx:166 | with the bare-word rule first, `{w}` still becomes `{{w}}` |
| FolderUpload.UnderscoreRuns | src/components/admin/FolderUpload.tsx:210 | the key holds only `_` and lower-case letters or digits, never two adjacent underscores; it is non-empty for non-empty text and starts with the text's first character when that is a lower-case letter or digit, otherwise with `_` |
| FolderUpload.UnderscoreRunsKeepsAlnum | src/components/admin/FolderUpload.tsx:210 | apart from underscores the key has exactly the lower-case letters and digits of the text, in order |
| FolderUpload.JsxTextAt | src/components/admin/FolderUpload.tsx:206-212 | a text match is `>`, a capital, 5 to 50 letters or spaces in all, and `<`; its key is non-empty, at most 30 characters, lower-case letters and `_` |
| FolderUpload.MatchedTextAccepted | src/components/admin/FolderUpload.tsx:206-212 | matched text, once trimmed, passes the kept-text test and holds only letters and white space |
| FolderUpload.TextKeysShaped | src/components/admin/FolderUpload.tsx:206-212 | every key taken from JSX text is non-empty, at most 30 characters, lower-case letters and `_` |
| FolderUpload.Assign | src/components/admin/FolderUpload.tsx:181-213 | the keys are the distinct assigned keys in first-assignment order, and each value is the last one assigned |
| FolderUpload.ReservedOnlyFromSlides | src/components/admin/FolderUpload.tsx:198-203 | a detected `Hero`, `Component` or `App` key can only come from the first slide's properties |
| FolderUpload.DetectFolderVariables | src/components/admin/FolderUpload.tsx:180-222 | the table is never empty; with no assignment it is the default title and description; otherwise its keys are the distinct assigned keys in order, each with its last value |
| GitHubBrowser.ConfigFor | src/components/admin/GitHubBrowser.tsx:50-56 | the request carries the parsed owner and repository, the path and the branch; the token is sent exactly when one is typed |
| GitHubBrowser.HandleBrowse | src/components/admin/GitHubBrowser.tsx:37-68 | a request is made exactly when the reference parses; otherwise the invalid-URL error shows and no folders; a failed browse shows its message; an empty listing shows the no-folders message |
| GitHubBrowser.HandleSelectFolder | src/components/admin/GitHubBrowser.tsx:70-118 | the folder is selected; the folder's files are listed when the reference parses; the validation result is shown; the parser is called exactly when validation passes; a component is returned only from a successful parse |
| GitHubBrowser.InvalidNeverParsed | src/components/admin/GitHubBrowser.tsx:91-99 | a folder whose files fail validation shows the errors and is never parsed |
| GitHubBrowser.CurrentDirectory | src/components/admin/GitHubBrowser.tsx:217-221 | the selected entry is a directory at the current path, named "root" at the top |
| GitHubBrowser.CurrentDirectoryListsCurrentPath | src/components/admin/GitHubBrowser.tsx:50-88 | selecting the current folder requests the same listing the browse requested |
| ComponentBuilder.EditHtml | src/pages/admin/ComponentBuilder.tsx:25-29 | editing the HTML sets the variables to the detected names and changes nothing else |
| ComponentBuilder.EditHtmlDetects | src/pages/admin/ComponentBuilder.tsx:25-29 | after an edit the variables are distinct and are exactly the placeholder names in the new HTML; none without `{{` |
| ComponentBuilder.Slug | src/pages/admin/ComponentBuilder.tsx:36 | the slug holds only `[a-z0-9-]`, no doubled dash, and no dash at either end; apart from dashes it has exactly the lower-case letters and digits of the lower-cased name, in order |
| ComponentBuilder.SlugOfClean | src/pages/admin/ComponentBuilder.tsx:36 | a name that is already a clean slug (label characters, no doubled dash, no edge dash) is its own slug |
| ComponentBuilder.SlugOfSlug | src/pages/admin/ComponentBuilder.tsx:36 | slugging a slug changes nothing |
| ComponentBuilder.SlugJoinsWords | src/pages/admin/ComponentBuilder.tsx:36 | two lower-case words with a separator outside `[a-zA-Z0-9]` between them are joined by one dash: "hero section" gives "hero-section" |
| ComponentBuilder.PayloadOf | src/pages/admin/ComponentBuilder.tsx:38-45 | the saved record carries the name, its slug, the category, the HTML, the CSS and the variables |
| ComponentBuilder.HandleSave | src/pages/admin/ComponentBuilder.tsx:31-55 | without a name only the name alert shows; otherwise the payload is sent, success returns to the admin page, and a failure alerts its message |
| ComponentBuilder.SaveCarriesDetected | src/pages/admin/ComponentBuilder.tsx:25-45 | after an HTML edit, the saved fields are the names detected in that HTML |
| ComponentBuilder.CopyEntriesSpec | src/pages/admin/ComponentBuilder.tsx:72-75 | copying distinct keys into a fresh record appends them in order, each with its value from the table |
| ComponentBuilder.HandleImport | src/pages/admin/ComponentBuilder.tsx:57-80 | an imported component sets the name, category, HTML and CSS, its variable table becomes exactly the test values, the variables are detected from its HTML, and the mode is manual |
| LivePreview.DocumentParts | src/components/admin/LivePreview.tsx:24-40 | the styles and the markup can be read back from the document at their fixed places |
| LivePreview.LaidUnique | src/components/admin/LivePreview.tsx:24-40 | two readings of one document with equally long styles give the same styles and markup |
| LivePreview.DocumentInjective | src/components/admin/LivePreview.tsx:24-40 | for styles of equal length, two documents are equal exactly when their styles and markup are |
| LivePreview.ProcessedHtml | src/components/admin/LivePreview.tsx:13-15 | with no test values the previewed HTML is the template itself |
| LivePreview.Render | src/components/admin/LivePreview.tsx:17-42 | nothing is written exactly when the frame or its document is missing; the written document holds the CSS and the filled HTML at their places |
| LivePreview.RenderFillsLeadingHole | src/components/admin/LivePreview.tsx:13-15 | a leading placeholder with a test value shows that value where the markup starts |
| LivePreview.RenderFillsHoleAfterText | src/components/admin/LivePreview.tsx:13-40 | a placeholder with a test value after markup without `{` shows that markup followed by the value where the body starts |
| SiteBuilder.Initial | src/pages/builder/SiteBuilder.tsx:9-12 | the first render shows the spinner, with no site, no components and no error |
| SiteBuilder.RenderComponent | src/pages/builder/SiteBuilder.tsx:78-101 | nothing is rendered exactly when the template is missing; the CSS is the template's; without custom content the HTML is the template itself; with custom content it is the template with the custom values substituted |
| SiteBuilder.RenderLeadingHole | src/pages/builder/SiteBuilder.tsx:85-87 | a leading placeholder with a non-empty value starts the markup with that value; one without stays verbatim |
| SiteBuilder.RenderHoleAfterText | src/pages/builder/SiteBuilder.tsx:85-87 | a placeholder after markup without `{` is replaced by its non-empty custom value, or stays verbatim without one; the markup before it is kept and the rest filled on its own |
| SiteBuilder.LoadData | src/pages/builder/SiteBuilder.tsx:19-33 | loading ends; when both requests succeed the site and components are kept; when either fails the load-failure message is set and nothing is kept |
| SiteBuilder.ViewOf | src/pages/builder/SiteBuilder.tsx:35-75 | the spinner shows exactly while loading; the error view exactly when an error is set or no site loaded; the canvas shows the components |
| SiteBuilder.FailedLoadShowsError | src/pages/builder/SiteBuilder.tsx:19-75 | from the first load, a failure of either request ends on the load-failure message |
| SiteBuilder.LoadedShowsComponents | src/pages/builder/SiteBuilder.tsx:19-75 | from the first load, success shows all components, or the empty canvas when there are none |
| PasswordRule.ChecksOf | src/pages/auth/Signup.tsx:24-29 | the four checks hold exactly when the password has at least 8 characters, an upper-case letter, a lower-case letter and a digit |
| PasswordRule.IsPasswordValid | src/pages/auth/Signup.tsx:24-31 | a password is valid exactly when it has at least 8 characters, an upper-case letter, a lower-case letter and a digit |
| PasswordRule.ValidityShape | src/pages/auth/Signup.tsx:24-31 | a valid password has at least 8 characters; an all-lower-case password is never valid; 8 characters opening with upper, lower and digit are valid |
| Signup.Submit | src/pages/auth/Signup.tsx:33-64 | sign-up is called exactly when the rule holds, the passwords match and the terms are accepted; the refusals are checked in that order with their messages; verification shows exactly when sign-up succeeds |
| Signup.SubmitDisabled | src/pages/auth/Signup.tsx:258 | an enabled button means not loading and a password of at least 8 characters; once pressed, the handler signs up exactly when the confirmation matches and the terms are accepted, and a press the browser lets through signs up exactly when the confirmation matches |
| Signup.Press | src/pages/auth/Signup.tsx:105-230 | the browser submits exactly when every required field is filled, the e-mail is well formed and the terms box is ticked; a submitted form is never refused for the terms, signs up exactly when the rule holds and the passwords match, and sends a name, a business name and a well-formed e-mail |
| Signup.ShowMismatchHint | src/pages/auth/Signup.tsx:218 | while the hint shows and the button is enabled, a press calls nothing and shows the mismatch message |
| Signup.EnabledSubmitStopsOnHint | src/pages/auth/Signup.tsx:218-258 | with the button enabled and a confirmation typed, a submit stops on the mismatch message exactly when the hint is shown |
| ResetPassword.LinkError | src/pages/auth/ResetPassword.tsx:22-29 | a link error is shown exactly when the error parameter is set: its description when given, else the invalid-link message |
| ResetPassword.Submit | src/pages/auth/ResetPassword.tsx:41-68 | the new password is sent exactly when it is valid and confirmed; the refusals have their messages; success shows exactly when the update succeeds |
| ResetPassword.Press | src/pages/auth/ResetPassword.tsx:89-138 | the browser submits exactly when both password fields are filled; a submitted form sends the password exactly when it is valid and confirmed, and an empty confirmation never reaches the mismatch message |
| ResetPassword.SubmitDisabled | src/pages/auth/ResetPassword.tsx:167 | an enabled button means not loading and a password of at least 8 characters; pressing it sends the password exactly when the confirmation matches |
| ResetPassword.SameRuleAsSignup | src/pages/auth/ResetPassword.tsx:32-49 | for the same password and confirmation, the reset form refuses with the rule message, and with the mismatch message, exactly when the sign-up form does |
| Wizard.Initial | src/pages/dashboard/CreateWebsiteWizard.tsx:23-34 | the wizard opens on step 1, not generating, with no error, an empty name and description, and the user's id or "" |
| Wizard.DefaultsFromTables | src/pages/dashboard/CreateWebsiteWizard.tsx:23-34 | each default choice (sector, style, audience, features, colours) is an option of its table |
| Wizard.Next | src/pages/dashboard/CreateWebsiteWizard.tsx:36-43 | on step 1 a blank name only sets the name-required error; otherwise the error clears and the step advances, never past step 3 |
| Wizard.Back | src/pages/dashboard/CreateWebsiteWizard.tsx:45-47 | the step goes back by one but never below step 1, and nothing else changes |
| Wizard.StepsStayInRange | src/pages/dashboard/CreateWebsiteWizard.tsx:36-47 | both moves keep the step within 1..3; Back undoes a Next that moved; with a name, Next advances by exactly one below step 3 |
| Wizard.WhitespaceNameBlocks | src/pages/dashboard/CreateWebsiteWizard.tsx:36-43 | a name of only white space keeps step 1 and shows the name-required error |
| Wizard.ToggleFeature | src/pages/dashboard/CreateWebsiteWizard.tsx:239-242 | afterwards the feature is selected exactly when it was not before; a new one goes to the end; a selected one is removed everywhere |
| Wizard.ToggleKeepsOthers | src/pages/dashboard/CreateWebsiteWizard.tsx:239-242 | the other features are the same before and after a toggle, and toggling an unselected feature twice restores the list |
| Wizard.Generate | src/pages/dashboard/CreateWebsiteWizard.tsx:49-68 | generating ends with form and step kept; the builder opens exactly when the generator replies with success; a failed reply shows its error or the default, a thrown error its message or the unexpected-error text |
| Wizard.BuilderRouteNamesSite | src/pages/dashboard/CreateWebsiteWizard.tsx:58 | two builder routes are equal exactly when their site ids are |
| Wizard.GenerateRetry | src/pages/dashboard/CreateWebsiteWizard.tsx:49-68 | generating again from the state a generation left, with the same answer, ends in the same state and route |
| Constants.SectorValuesDistinct | src/lib/constants.ts:5-76 | no two sectors share a value |
| Constants.GroupByCategory | src/lib/constants.ts:81-92 | a group exists exactly for each category listed among the keys |
| Constants.GroupBySpec | src/lib/constants.ts:81-92 | the group keys are the distinct categories in order of first use; a group exists exactly for each category used; each group is the table's sectors of that category, in table order |
| Constants.GroupedOnce | src/lib/constants.ts:81-92 | for a table without repeats the keys are distinct and are exactly the categories; each sector appears once in its category's group and in no other; every group keeps table order |
| Constants.SectorTableGrouped | src/lib/constants.ts:81-92 | the keys of the sector table's grouping are distinct, and every sector appears exactly once in the group of its category |
| SubdomainField.KeepLabelChars | src/components/dashboard/CreateWebsiteModal.tsx:114 | the result has only `[a-z0-9-]` and is no longer than the input; a character occurs in it exactly when it is a label character of the lower-cased input |
| SubdomainField.KeepLabelCharsSpec | src/components/dashboard/CreateWebsiteModal.tsx:114 | the kept characters keep their order, and an already clean subdomain is kept as typed |
| SubdomainField.KeepLabelCharsIdempotent | src/components/dashboard/CreateWebsiteModal.tsx:114 | filtering twice is filtering once |
| CreateWebsiteModal.SpaceRuns | src/components/dashboard/CreateWebsiteModal.tsx:22 | the result has no white space, is no longer than the input and is empty exactly when the input is |
| CreateWebsiteModal.AutoSubdomain | src/components/dashboard/CreateWebsiteModal.tsx:22 | the suggested subdomain has only `[a-z0-9-]` |
| CreateWebsiteModal.SpaceRunsKeepsText | src/components/dashboard/CreateWebsiteModal.tsx:22 | apart from dashes, the visible characters are unchanged; text without white space is kept |
| CreateWebsiteModal.SuggestionOfOneSpace | src/components/dashboard/CreateWebsiteModal.tsx:22 | two lower-case words with one space are suggested joined by a dash |
| CreateWebsiteModal.NameChangeAsWritten | src/components/dashboard/CreateWebsiteModal.tsx:18-24 | the subdomain follows the name while it is empty or equals the old name filtered without dashes |
| CreateWebsiteModal.AsWrittenStopsFollowing | src/components/dashboard/CreateWebsiteModal.tsx:18-24 | after "a b" is suggested as "a-b", typing "a bc" leaves the subdomain at "a-b" |
| CreateWebsiteModal.NameChange | src/components/dashboard/CreateWebsiteModal.tsx:18-24 | the subdomain follows the name while it is empty or still the suggestion for the old name |
| CreateWebsiteModal.FollowingPersists | src/components/dashboard/CreateWebsiteModal.tsx:18-24 | a following subdomain is the suggestion for the latest name after any sequence of edits |
| CreateWebsiteModal.SubdomainChange | src/components/dashboard/CreateWebsiteModal.tsx:114 | the subdomain becomes the typed text filtered to label characters, and nothing else changes |
| CreateWebsiteModal.Submit | src/components/dashboard/CreateWebsiteModal.tsx:26-44 | nothing is sent without both fields; success clears the form; failure keeps it and shows the message or the default |
| CreateWebsiteModal.SubmitThenType | src/components/dashboard/CreateWebsiteModal.tsx:18-44 | after a successful create the subdomain follows the next name typed; after a failure a second submit sends the same pair |
| WebsiteSettings.Populate | src/pages/dashboard/WebsiteSettings.tsx:45-50 | the form shows the site's name, subdomain and status, and its optional fields or "" when absent |
| WebsiteSettings.Load | src/pages/dashboard/WebsiteSettings.tsx:31-57 | loading ends; a loaded site fills the form and clears the error; a failure shows its message or the default and keeps the form |
| WebsiteSettings.PayloadOf | src/pages/dashboard/WebsiteSettings.tsx:77-84 | name, subdomain and status are sent as typed; each optional field is sent exactly when it is not empty |
| WebsiteSettings.SaveUnchangedRoundTrip | src/pages/dashboard/WebsiteSettings.tsx:45-84 | saving an unedited form writes back the loaded values, with empty optional fields sent as absent |
| WebsiteSettings.EditSubdomain | src/pages/dashboard/WebsiteSettings.tsx:215 | a typed subdomain is filtered to lower-case label characters and no other field changes |
| WebsiteSettings.SavedSubdomainClean | src/pages/dashboard/WebsiteSettings.tsx:215 | a subdomain typed into the form is saved with label characters only |
| WebsiteSettings.Save | src/pages/dashboard/WebsiteSettings.tsx:68-96 | the update is sent exactly when a site is loaded and the id is present, with the form's payload; success shows the confirmation and reloads; failure shows the message or the default and keeps the form |
| WebsiteSettings.SaveReloadShowsForm | src/pages/dashboard/WebsiteSettings.tsx:68-96 | a successful save whose reload returns what was stored shows the stored site, the confirmation and no error; when no optional field was emptied the form comes back exactly as saved; the button is enabled again exactly when name and subdomain are filled |
| WebsiteSettings.Stored | src/lib/api.ts:86-96 | after an update, name, subdomain and status are the payload's; an optional column takes the value sent, and keeps its old value when the field is sent as `undefined` |
| WebsiteSettings.ClearedFieldReturns | src/pages/dashboard/WebsiteSettings.tsx:77-84 | an optional field emptied in the form is sent as `undefined`, so after a successful save the reload shows its old value again |
| WebsiteSettings.FailedSaveKeepsForm | src/pages/dashboard/WebsiteSettings.tsx:68-96 | a failed save keeps the form, so the button is disabled exactly when it was before saving began |
| WebsiteSettings.SaveDisabled | src/pages/dashboard/WebsiteSettings.tsx:308 | an enabled save button never sends an empty name or subdomain and is not already saving |
| WebsiteSettings.Delete | src/pages/dashboard/WebsiteSettings.tsx:98-117 | the delete is requested exactly when a site is loaded, the id is present and the user confirms; the page leaves for the dashboard exactly when it succeeds; a failure shows the delete error |
| WebsiteSettings.DeclinedNeverDeletes | src/pages/dashboard/WebsiteSettings.tsx:101-105 | a declined confirmation requests nothing, stays on the page and changes nothing |
| Dashboard.LoadSites | src/pages/dashboard/Dashboard.tsx:23-32 | loading ends; a loaded list replaces the shown sites; a failure keeps the previous list |
| Dashboard.LoadThenShowAll | src/pages/dashboard/Dashboard.tsx:23-51 | with an empty search box a loaded list is shown whole, and a failed load shows what was shown before |
| Dashboard.Search | src/pages/dashboard/Dashboard.tsx:48-51 | a site is shown exactly when it is loaded and its name or subdomain contains the query, ignoring case |
| Dashboard.SearchSpec | src/pages/dashboard/Dashboard.tsx:48-51 | the shown sites keep the list order, an empty query shows all, and a site is shown exactly when the query occurs in its name or subdomain, ignoring case |
| Dashboard.SearchIgnoresQueryCase | src/pages/dashboard/Dashboard.tsx:48-51 | the query's case never changes the result |
| Dashboard.DeleteSite | src/pages/dashboard/Dashboard.tsx:34-46 | the delete is requested exactly when confirmed, with that id; the list changes only when it succeeds, and then loses the sites with that id |
| Dashboard.DeleteRemovesExactly | src/pages/dashboard/Dashboard.tsx:40-41 | after a successful delete no site has that id, every other site remains in its order, and the list shrinks by the number of sites with that id |
| UserProfile.Initial | src/pages/dashboard/UserProfile.tsx:12-19 | nothing is being edited, loaded or shown; with no user every field is empty; otherwise the name is the user's and the bio is the user's or empty (the other fields agree with a cancel, see CancelRestores) |
| UserProfile.Cancel | src/pages/dashboard/UserProfile.tsx:386-397 | cancel leaves edit mode, restores every field from the user and clears the error |
| UserProfile.CancelRestores | src/pages/dashboard/UserProfile.tsx:386-397 | whatever was typed, cancel brings back the opening fields; cancelling twice is cancelling once |
| UserProfile.Save | src/pages/dashboard/UserProfile.tsx:25-50 | the fields are sent as typed; success confirms and leaves edit mode; failure shows the message or the default |
| UserProfile.FailedSaveKeepsEdits | src/pages/dashboard/UserProfile.tsx:44-46 | a failed save keeps the typed fields and edit mode |
| UserProfile.AvatarUpload | src/pages/dashboard/UserProfile.tsx:56-83 | only an image of at most 5 MiB is uploaded; a wrong type and then an oversized file are rejected with their messages |
| UserProfile.AvatarChecksOrder | src/pages/dashboard/UserProfile.tsx:61-69 | the type is judged before the size, and exactly 5 MiB is accepted while one byte more is not |
| Utils.DashRuns | src/lib/utils.ts:94 | the result has only `[a-z0-9-]` and no two adjacent dashes; it is empty exactly when the input is; its first character is the input's first when that is in `[a-z0-9]` and a dash otherwise |
| Utils.DashRunsKeepsAlnum | src/lib/utils.ts:94 | apart from dashes, the result has exactly the lower-case letters and digits of the input, in order |
| Utils.StripEdgeDashes | src/lib/utils.ts:95 | a string that neither starts nor ends with a dash is kept; at most one character goes from each end |
| Utils.StripKeepsAlnum | src/lib/utils.ts:95 | stripping the edge dashes keeps every lower-case letter and digit, in order |
| Utils.StripKeepsShape | src/lib/utils.ts:94-95 | stripping the edge dashes of a dashed string leaves only `[a-z0-9-]`, no doubled dash and no dash at either end |
| Utils.DashRunsOfLabel | src/lib/utils.ts:94 | a string of `[a-z0-9-]` without doubled dashes is unchanged by the dash replacement |
| Utils.DashRunsOfWord | src/lib/utils.ts:94 | letters and digits before the rest are kept as they are, and the rest is dashed on its own |
| Utils.DashRunsOfRun | src/lib/utils.ts:94 | a run of characters outside `[a-z0-9]` up to the next letter or digit, or the end, becomes exactly one dash |
| Utils.DashRunsJoin | src/lib/utils.ts:94 | two words of `[a-z0-9]` with a run of other characters between them become the words joined by one dash |
| Utils.GenerateSubdomainAsWritten | src/lib/utils.ts:91-97 | the label has at most 63 characters, only `[a-z0-9-]`, no leading dash and no doubled dash; a trailing dash is not excluded |
| Utils.AsWrittenTrailingDash | src/lib/utils.ts:91-97 | 62 letters followed by " b" give a label that ends in a dash |
| Utils.GenerateSubdomain | src/lib/utils.ts:91-97 | the label has at most 63 characters, only `[a-z0-9-]`, no doubled dash and no dash at either end |
| Utils.GenerateSubdomainJoinsWords | src/lib/utils.ts:91-97 | two lower-case words with a separator outside `[a-zA-Z0-9]` become the words joined by a dash, when that fits in 63 characters |
| Utils.GenerateSubdomainOfClean | src/lib/utils.ts:91-97 | a clean label is its own subdomain |
| Utils.GenerateSubdomainIdempotent | src/lib/utils.ts:91-97 | generating from a generated subdomain changes nothing |
| Utils.Truncate | src/lib/utils.ts:50-53 | text no longer than the length is kept; longer text is its first `length` characters (none for a negative length) followed by "..." |
| Utils.TruncateIdempotent | src/lib/utils.ts:50-53 | truncating a kept text again keeps it |
| Utils.BucketOf | src/lib/utils.ts:30-36 | elapsed seconds fall into exactly one bucket by the thresholds 60, 3600, 86400 and 604800; a minute, hour or day count n is the whole number with n units at most the elapsed time and n+1 units more |
| Utils.FormatRelativeTime | src/lib/utils.ts:27-37 | under a minute reads "just now"; under an hour, a day and a week read as the whole minutes, hours or days followed by " minutes ago", " hours ago", " days ago"; a week or more is the formatted date |
| Utils.FutureIsJustNow | src/lib/utils.ts:27-37 | a time in the future reads as just now |
| Utils.BucketMonotone | src/lib/utils.ts:30-36 | more elapsed time never gives a finer bucket |
| Utils.LastMarker | src/lib/utils.ts:115 | a found marker start is the largest position up to the bound, on the first line, where one of the YouTube alternatives matches; none is found only when no such position matches |
| Utils.YouTubeVideoId | src/lib/utils.ts:114-118 | without a marker on the first line there is no id; otherwise an id is found exactly when 11 characters other than `#&?` follow the last marker and are followed by the end or one of `#&?`, and the id is those 11 characters |
| Utils.YouTubeShortLink | src/lib/utils.ts:114-118 | text on one line followed by `youtu.be/` and an 11-character id without `#&?/=` gives that id |
| Utils.YouTubeWatchLink | src/lib/utils.ts:114-118 | text on one line followed by `watch?v=` and an 11-character id without `#&?/=` gives that id |
| Utils.LastSlash | src/lib/utils.ts:124 | the found position is the last slash followed by a digit that the `.*` after `vimeo` can reach; none is found only when no reachable slash is followed by a digit |
| Utils.VimeoVideoId | src/lib/utils.ts:123-127 | a found id is a non-empty run of digits; none is found only when no occurrence of `vimeo` reaches a slash followed by a digit |
| Utils.VimeoMatchLeftmost | src/lib/utils.ts:125 | the match is made from the leftmost `vimeo` that reaches a slash followed by a digit, at the last such slash it reaches; there is none exactly when no `vimeo` reaches one |
| Utils.VimeoIdFound | src/lib/utils.ts:123-127 | an id is found exactly when some `vimeo` reaches a slash followed by a digit |
| Utils.VimeoIdIsDigitRun | src/lib/utils.ts:123-127 | the id is the whole run of digits after the last slash reachable from the leftmost `vimeo` that reaches one |
| Utils.VimeoPlainLink | src/lib/utils.ts:123-127 | text without `v` or `V` followed by `vimeo.com/` and digits gives those digits |

## Left out

- Network, storage and authentication are parameters. The GitHub API, raw
  downloads, the Supabase calls and the sign-up service are functions from a
  request to a reply. Timing, retries and concurrency are not modelled.
- `JSON.parse` is a parameter, a function from text to a parsed value or a
  failure. A parsed config carries only the fields the program reads.
- The `return (...)` extraction regexes (`componentParser.ts` line 247 and
  `FolderUpload.tsx` line 131) are a parameter, a function from source text to
  an optional block. Every other regular expression is written out.
- `Promise.all` rejects with the first failure to settle. The model reports
  the first failure in list order.
- Case mapping covers ASCII letters only. Lengths count characters, not UTF-16
  code units.
- Records with integer-like keys, which JavaScript enumerates first, and the
  `__proto__` key are not treated specially.
- Values in `custom_content` are strings; other JSON values there are not
  modelled.
- The TypeError that a `null` parsed config raises becomes one constant message.
- `formatDate` (locale formatting) is a parameter of the relative-time
  formatter. Invalid dates are not modelled.
- `cn`, `generateId`, `debounce`, `formatFileSize`, `isValidUrl` and
  `formatDate` in `utils.ts` are not modelled. They are styling, randomness,
  timing and locale helpers.
- The page markup is left out, apart from the submit buttons' `disabled`
  rules and the browser checks of the sign-up and reset forms. Icons, option
  labels other than the sector captions, alerts, console logging, timers that
  clear success messages, and navigation are left out too. `window.confirm` is a boolean parameter. A successful delete's
  navigation is the `LeftForDashboard` outcome.
- `ReactPreview.tsx`, `LiveComponentPreview.tsx` and `CodeEditor.tsx` are not
  part of this model. They render in the browser and decide nothing about the
  data.
- The login pages, Google sign-in and logout are not part of this model. They
  only call the authentication service.
- `FolderUpload.tsx` drag-and-drop is left out. Its "Failed to parse component"
  branch is not reachable in the model, because every step of the pure parse
  returns a value.
- The proxies' `User-Agent` and `Accept` headers are not modelled.
- ComponentParser.ParseFromGitHub: lists each candidate component folder, and
  the styles folder, in full. The code lists them with the directory-only
  listing, which finds no file, so as written the React strategy always fails
  (ComponentParser.ReactAsWrittenAlwaysFails; see Findings). The model does not
  promise that as-written result.
- GitHubBrowser.HandleSelectFolder: parses with ComponentParser.ParseFromGitHub,
  so it inherits the full listing of the component folders.
- FolderUpload.ConvertFolder: runs the placeholder rules with the bare-word
  rule first. The code runs it last (FolderUpload.PlaceholderRulesAsWritten),
  which wraps slide fields and member accesses in three braces
  (FolderUpload.AsWrittenSlideFieldTripleBraced,
  FolderUpload.AsWrittenMemberAccessTripleBraced). The model does not promise
  that as-written markup.
- FolderUpload.RewriteMarkup: uses the same corrected rule order as
  FolderUpload.ConvertFolder.
- FolderUpload.ParseAndSubmit: converts with FolderUpload.ConvertFolder, so it
  inherits the corrected rule order.
- FolderUpload.HandleFiles: submits through FolderUpload.ParseAndSubmit, so it
  inherits the corrected rule order.
- CreateWebsiteModal.NameChange: follows while the subdomain equals the previous
  suggestion. The code compares it with the old name filtered without dashing
  its white space (CreateWebsiteModal.NameChangeAsWritten; see Findings).
- Utils.GenerateSubdomain: cuts to 63 characters before stripping the edge
  dashes. The code strips first (Utils.GenerateSubdomainAsWritten; see
  Findings).
- Placeholders.Fill: looks a key up among the record's own entries only. In
  JavaScript the lookup also finds names inherited from `Object.prototype`,
  such as `constructor` or `toString`. The code replaces such a placeholder
  with the inherited function's text; the model keeps it as written.
- Dashboard.LoadSites: a load failure is only logged, so the model ends
  loading and keeps the list it had.
- FolderUpload.StripImports: its own contract states only that the code never
  grows; which lines go is stated line by line by FolderUpload.StripImportsLine.
- LivePreview.ProcessedHtml: its own contract states only the case without
  test values. The filling is fixed, one step at a time, by
  Placeholders.SubstituteLiteral and Placeholders.SubstituteHoleAt. A
  placeholder after markup without `{` is stated in one lemma by
  Placeholders.SubstituteHoleAfterText and LivePreview.RenderFillsHoleAfterText;
  after markup that holds a `{` it follows only from those steps.
- Utils.StripEdgeDashes: its own contract does not exclude edge dashes in the
  result, because "---" keeps its middle dash; for dashed strings
  without doubled dashes Utils.StripKeepsShape states it.
- Utils.VimeoVideoId: its own contract states that an id is a run of digits
  and when none is found. Which digits, and that an id is found whenever a
  `vimeo` reaches a slash followed by a digit, are stated by
  Utils.VimeoIdIsDigitRun and Utils.VimeoIdFound.
- Utils.DashRuns: its own contract does not place the dashes. Utils.DashRunsOfWord
  and Utils.DashRunsOfRun fix the result piece by piece. ComponentBuilder.Slug
  and Utils.GenerateSubdomain inherit this; ComponentBuilder.SlugJoinsWords and
  Utils.GenerateSubdomainJoinsWords state the two-word case.
- WebsiteSettings.Load: the early return when the route has no id is left
  out, because the route always supplies one.
- SiteBuilder.LoadData: the early return in `SiteBuilder.tsx` line 15 when the
  route has no id is left out, for the same reason; without an id the spinner
  would stay.
- Signup.Submit: it models `handleSubmit` alone, so it also answers forms the
  browser never submits (an empty field, a malformed e-mail, an unticked
  terms box), and its terms refusal cannot be reached from the page.
  Signup.Press adds the browser's `required` and `type="email"` checks, with
  the e-mail syntax as a parameter.
- ResetPassword.Submit: it models `handleSubmit` alone, so it also answers an
  empty confirmation, which the browser's `required` keeps from the handler;
  ResetPassword.Press adds that check.

## Findings

| source | as written | input that shows it | evidently intended | confidence | as-written member | corrected member |
|---|---|---|---|---|---|---|
| src/lib/componentParser.ts:146-160 | candidate folders are listed with `browseGitHubDirectory`, which keeps only directories (github.ts:83), and then searched for files | a repository holding `src/app/components/Hero.tsx` | list each folder with the full listing, so that its files are seen | high, not executed | ComponentParser.ReactAsWrittenAlwaysFails | ComponentParser.ParseFromGitHub |
| src/lib/utils.ts:91-97 | the label is cut to 63 characters after the edge dashes are stripped | 62 × "a" followed by " b" gives 62 letters and a trailing dash | cut first, then strip, so that no label ends in a dash | high, not executed | Utils.AsWrittenTrailingDash | Utils.GenerateSubdomain |
| src/components/admin/FolderUpload.tsx:164-166 | the bare-word rule runs after the slide-field and member-access rules and wraps their `{{x}}` output again | `{currentSlideData.title}` becomes `{{{title}}}` | each expression becomes exactly one `{{x}}` placeholder | high, not executed | FolderUpload.AsWrittenSlideFieldTripleBraced | FolderUpload.SlideFieldPlaceholder |
| src/components/dashboard/CreateWebsiteModal.tsx:21 | the follow test compares the subdomain with the old name filtered without turning white space into dashes | name "a b" (suggested "a-b"), then typing "a bc": the subdomain stays "a-b" | the subdomain keeps following while it equals the previous suggestion | medium, not executed | CreateWebsiteModal.AsWrittenStopsFollowing | CreateWebsiteModal.NameChange |
