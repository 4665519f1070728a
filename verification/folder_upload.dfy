/** The folder-upload importer (`FolderUpload`): keeps the component and
    style files of a dropped folder, converts the main component's JSX to
    HTML with an ordered list of rewrite rules, and guesses editable
    variables from the component's source text. */
module FolderUpload {
  import opened Wrappers
  import opened Strings
  import opened Collections
  import opened VarTables
  import opened JsxRewrite
  import ComponentParser

  // ---------------------------------------------------------------------------
  // Reading the folder (`isComponentFile`, `isCSSFile`, `handleFiles`)
  // ---------------------------------------------------------------------------

  /** A file of the dropped folder. `content` is `None` when reading it fails. */
  datatype LocalFile = LocalFile(name: string, relativePath: string, content: Option<string>)

  datatype FileKind = ComponentFile | StyleFile

  datatype UploadedFile = UploadedFile(path: string, name: string, content: string, kind: FileKind)

  const NoFilesMessage := "No component or CSS files found in the uploaded folder"
  /** A failed read rejects with a progress event, not an `Error`, so the
      generic message is shown. */
  const ReadFailedMessage := "Failed to read files"
  const NoComponentFilesMessage := "No React component files (.tsx or .jsx) found"

  /** `isComponentFile`: a `.tsx`/`.jsx` name containing none of the
      excluded substrings anywhere. */
  predicate IsComponentName(name: string) {
    (EndsWith(name, ".tsx") || EndsWith(name, ".jsx"))
    && !Contains(name, "test") && !Contains(name, ".spec")
    && !Contains(name, "App.tsx") && !Contains(name, "main.tsx")
  }

  predicate IsCssName(name: string) { EndsWith(name, ".css") }

  predicate IsKept(f: LocalFile) { IsComponentName(f.name) || IsCssName(f.name) }

  /** What an uploaded record says about the file it was read from. */
  predicate Describes(u: UploadedFile, f: LocalFile) {
    u.name == f.name && f.content == Some(u.content)
    && u.path == (if f.relativePath != "" then f.relativePath else f.name)
    && (u.kind == ComponentFile <==> IsComponentName(f.name))
  }

  /** The record `handleFiles` builds for a kept file that was read. */
  function Tag(f: LocalFile): (u: UploadedFile)
    requires f.content.Some?
    ensures Describes(u, f)
  {
    UploadedFile(if f.relativePath != "" then f.relativePath else f.name, f.name, f.content.value,
                 if IsComponentName(f.name) then ComponentFile else StyleFile)
  }

  predicate Unreadable(f: LocalFile) { IsKept(f) && f.content.None? }

  /** The read loop of `handleFiles`: each kept file is read in folder order;
      the first failed read ends the loop. */
  function Upload(files: seq<LocalFile>): (r: Result<seq<UploadedFile>>)
    ensures r.Failure? ==> r.error == ReadFailedMessage
    ensures r.Success? ==>
      var kept := Filter(IsKept, files);
      |r.value| == |kept| && forall i :: 0 <= i < |kept| ==> Describes(r.value[i], kept[i])
  {
    if files == [] then Success([])
    else
      var rest := Upload(files[1..]);
      if !IsKept(files[0]) then rest
      else if files[0].content.None? then Failure(ReadFailedMessage)
      else if rest.Failure? then rest
      else Success([Tag(files[0])] + rest.value)
  }

  /** The loop fails exactly when some kept file cannot be read. */
  lemma {:induction false} UploadFailsIffUnreadable(files: seq<LocalFile>)
    ensures Upload(files).Failure? <==> exists i :: 0 <= i < |files| && Unreadable(files[i])
  {
    if files != [] {
      UploadFailsIffUnreadable(files[1..]);
      assert forall i :: 1 <= i < |files| ==> files[i] == files[1..][i - 1];
      if exists i :: 0 <= i < |files| && Unreadable(files[i]) {
        var i :| 0 <= i < |files| && Unreadable(files[i]);
        if i > 0 {
          assert Unreadable(files[1..][i - 1]);
        }
      }
    }
  }

  /** The excluded words are matched anywhere in the name, not only as a
      suffix or a word: `Latest.tsx` (with `test` inside) is excluded as
      surely as `Hero.test.tsx`. */
  lemma ExcludedAnywhere(pre: string, word: string, post: string)
    requires word in ["test", ".spec", "App.tsx", "main.tsx"]
    ensures !IsComponentName(pre + word + post)
  {
    var name := pre + word + post;
    assert name[|pre|..|pre| + |word|] == word;
    assert OccursAt(name, word, |pre|);
    ContainsIffOccurs(name, word);
  }

  /** A name is a component file only with a `.tsx` or `.jsx` ending: a
      style sheet never is one. */
  lemma ComponentNeedsScriptEnding(name: string)
    ensures IsCssName(name) ==> !IsComponentName(name)
  {
    if IsCssName(name) {
      assert name[|name| - 4..][1] == 'c';
    }
  }

  // ---------------------------------------------------------------------------
  // Choosing the sources (`parseAndSubmit`)
  // ---------------------------------------------------------------------------

  predicate IsComponentUpload(u: UploadedFile) { u.kind == ComponentFile }
  predicate IsStyleUpload(u: UploadedFile) { u.kind == StyleFile }
  predicate IsPreferredName(u: UploadedFile) {
    u.name == "Hero.tsx" || u.name == "Component.tsx" || u.name == "index.tsx"
  }

  predicate IsPreferredComponent(u: UploadedFile) { IsComponentUpload(u) && IsPreferredName(u) }

  /** The main component: the first component file with a preferred name,
      else the first component file. (`comps.find(p) || comps[0]` over the
      component files picks the same file.) */
  function MainUpload(up: seq<UploadedFile>): (r: Option<UploadedFile>)
    ensures r.None? <==> forall i :: 0 <= i < |up| ==> !IsComponentUpload(up[i])
    ensures r.Some? ==> IsComponentUpload(r.value)
    ensures r.Some? ==> exists i :: 0 <= i < |up| && up[i] == r.value
    ensures FindIndex(IsPreferredComponent, up) < |up| ==> r == Some(up[FindIndex(IsPreferredComponent, up)])
    ensures FindIndex(IsPreferredComponent, up) == |up| && r.Some? ==>
      r == Some(up[FindIndex(IsComponentUpload, up)]) && !IsPreferredName(r.value)
  {
    var k := FindIndex(IsPreferredComponent, up);
    var c := FindIndex(IsComponentUpload, up);
    if k < |up| then Some(up[k])
    else if c < |up| then Some(up[c])
    else None
  }

  // ---------------------------------------------------------------------------
  // Which text is converted (`convertReactToHTML`, first part)
  // ---------------------------------------------------------------------------

  predicate NotLineTerminator(c: char) { !IsLineTerminator(c) }

  /** A line matched by `/^import.*from.*$/m`: it starts with `import` and
      `from` occurs later on the same line. */
  predicate IsImportLine(line: string) {
    StartsWith(line, "import") && Contains(line[6..], "from")
  }

  /** `code.replace(/^import.*from.*$/gm, '')`: every import line is
      emptied, its line terminator kept. */
  function StripImports(s: string): (r: string)
    ensures |r| <= |s|
    decreases |s|
  {
    var k := SpanEnd(s, 0, NotLineTerminator);
    var line := if IsImportLine(s[..k]) then "" else s[..k];
    if k == |s| then line else line + [s[k]] + StripImports(s[k + 1..])
  }

  /** A line is emptied exactly when it is an import line; its terminator
      and the lines after it are treated on their own. */
  lemma StripImportsLine(line: string, t: char, rest: string)
    requires forall i :: 0 <= i < |line| ==> !IsLineTerminator(line[i])
    requires IsLineTerminator(t)
    ensures IsImportLine(line) ==> StripImports(line + [t] + rest) == [t] + StripImports(rest)
    ensures !IsImportLine(line) ==> StripImports(line + [t] + rest) == line + [t] + StripImports(rest)
  {
    var s := line + [t] + rest;
    SpanEndExact(s, 0, |line|, NotLineTerminator);
    assert s[..|line|] == line;
    assert s[|line| + 1..] == rest;
  }

  lemma ContainsSuffix(s: string, p: string, k: nat)
    requires k <= |s| && Contains(s[k..], p)
    ensures Contains(s, p)
    decreases k
  {
    if k > 0 {
      assert s[1..][k - 1..] == s[k..];
      ContainsSuffix(s[1..], p, k - 1);
    }
  }

  lemma ContainsPrefix(s: string, p: string, k: nat)
    requires k <= |s| && StartsWith(s[..k], p)
    ensures Contains(s, p)
  {
    assert s[..k][..|p|] == s[..|p|];
  }

  /** Code that never mentions `import` loses no line. */
  lemma {:induction false} StripImportsKeepsPlainCode(s: string)
    requires !Contains(s, "import")
    ensures StripImports(s) == s
    decreases |s|
  {
    var k := SpanEnd(s, 0, NotLineTerminator);
    if StartsWith(s[..k], "import") {
      ContainsPrefix(s, "import", k);
    }
    if k < |s| {
      if Contains(s[k + 1..], "import") {
        ContainsSuffix(s, "import", k + 1);
      }
      StripImportsKeepsPlainCode(s[k + 1..]);
    }
  }

  function LastIndexOfChar(s: string, c: char): (r: Option<nat>)
    ensures r.Some? ==> r.value < |s| && s[r.value] == c && forall j :: r.value < j < |s| ==> s[j] != c
    ensures r.None? ==> forall j :: 0 <= j < |s| ==> s[j] != c
  {
    if s == [] then None
    else if s[|s| - 1] == c then Some(|s| - 1)
    else LastIndexOfChar(s[..|s| - 1], c)
  }

  /** `code.match(/<[\s\S]+>/)`: from the first `<` to the last `>`, with at
      least one character between them; as bounds `[start, end)`. */
  function JsxSpan(s: string): (r: Option<(nat, nat)>)
    ensures r.Some? ==>
      var (a, e) := r.value;
      a + 3 <= e <= |s| && s[a] == '<' && s[e - 1] == '>'
      && (forall j :: 0 <= j < a ==> s[j] != '<') && (forall j :: e <= j < |s| ==> s[j] != '>')
    ensures r.None? <==> forall i, j :: 0 <= i && i + 2 <= j < |s| ==> !(s[i] == '<' && s[j] == '>')
  {
    match LastIndexOfChar(s, '>')
    case None => None
    case Some(j) =>
      if j < 2 then None
      else
        var a := FindIndex(IsOpenAngle, s[..j - 1]);
        if a < j - 1 then Some((a, j + 1))
        else
          assert forall i :: 0 <= i < j - 1 ==> s[i] != '<' by {
            forall i | 0 <= i < j - 1 ensures s[i] != '<' { assert s[..j - 1][i] == s[i]; }
          }
          None
  }

  predicate IsOpenAngle(c: char) { c == '<' }

  /** The text the converter rewrites: the return block (`returnBlock`
      stands for `/return\s*\(\s*([\s\S]*?)\s*\);?\s*\}[^}]*$/`), else the
      first JSX-looking span, else the code without its import lines. */
  function ConvertSource(code: string, returnBlock: string -> Option<string>): (html: string)
    ensures returnBlock(code).Some? ==> html == returnBlock(code).value
    ensures returnBlock(code).None? && JsxSpan(code).Some? ==>
      html == code[JsxSpan(code).value.0..JsxSpan(code).value.1]
    ensures returnBlock(code).None? && JsxSpan(code).None? ==> html == StripImports(code)
  {
    match returnBlock(code)
    case Some(block) => block
    case None =>
      match JsxSpan(code)
      case Some((a, e)) => code[a..e]
      case None => StripImports(code)
  }

  // ---------------------------------------------------------------------------
  // The rewrite rules (`convertReactToHTML`, second part)
  // ---------------------------------------------------------------------------

  /** The markup rules, in source order, before the placeholder rules. */
  const MarkupRules := [
    Literal("className=", "class="), MotionOpen, MotionClose, PresenceOpen,
    Literal("</AnimatePresence>", ""), SelfClosing, TemplateLiteral, StringLiteral,
    TypeAnnotation, EventHandler, RefAttribute]

  /** The placeholder rules as the source orders them: slide field, member
      access, then bare word. The bare-word rule runs last and so also
      matches the inner `{w}` of every `{{w}}` the first two produced. */
  function PlaceholderRulesAsWritten(s: string): string {
    ReplaceAll(SimpleExpr, ReplaceAll(MemberAccess, ReplaceAll(SlideField, s)))
  }

  /** The placeholder rules with the bare-word rule first, so that every
      brace expression becomes exactly one placeholder. */
  function PlaceholderRules(s: string): string {
    ReplaceAll(MemberAccess, ReplaceAll(SlideField, ReplaceAll(SimpleExpr, s)))
  }

  lemma CurrentSlideDataIsWord()
    ensures IsWord("currentSlideData")
    ensures SlidePrefix == "{" + "currentSlideData" + "."
  {
  }

  /** As written, a slide field ends up inside three pairs of braces. */
  lemma AsWrittenSlideFieldTripleBraced(w: string)
    requires IsWord(w)
    ensures PlaceholderRulesAsWritten(SlidePrefix + w + "}") == "{{{" + w + "}}}"
  {
    SlideFieldOfWord(w);
    MemberAccessSkipsPlaceholder(w);
    SimpleExprRewrapsPlaceholder(w);
  }

  /** As written, a member access ends up inside three pairs of braces. */
  lemma AsWrittenMemberAccessTripleBraced(a: string, b: string)
    requires IsWord(a) && IsWord(b) && a != "currentSlideData"
    ensures PlaceholderRulesAsWritten("{" + a + "." + b + "}") == "{{{" + a + "_" + b + "}}}"
  {
    SlideFieldSkipsMemberAccess(a, b);
    MemberAccessOfWords(a, b);
    JoinedWord(a, b);
    SimpleExprRewrapsPlaceholder(a + "_" + b);
  }

  /** `a_b` is a word, and bracing it is bracing its parts. */
  lemma JoinedWord(a: string, b: string)
    requires IsWord(a) && IsWord(b)
    ensures IsWord(a + "_" + b)
    ensures "{{" + a + "_" + b + "}}" == "{{" + (a + "_" + b) + "}}"
    ensures "{{{" + (a + "_" + b) + "}}}" == "{{{" + a + "_" + b + "}}}"
  {
    var w := a + "_" + b;
    assert forall i :: 0 <= i < |w| ==> w[i] == (if i < |a| then a[i] else if i == |a| then '_' else b[i - |a| - 1]);
  }

  /** In the corrected order a slide field becomes `{{field}}`. */
  lemma SlideFieldPlaceholder(w: string)
    requires IsWord(w)
    ensures PlaceholderRules(SlidePrefix + w + "}") == "{{" + w + "}}"
  {
    CurrentSlideDataIsWord();
    assert SlidePrefix + w + "}" == "{" + "currentSlideData" + "." + w + "}";
    SimpleExprSkipsMemberAccess("currentSlideData", w);
    SlideFieldOfWord(w);
    MemberAccessSkipsPlaceholder(w);
  }

  /** In the corrected order `{a.b}` becomes `{{a_b}}`. */
  lemma MemberAccessPlaceholder(a: string, b: string)
    requires IsWord(a) && IsWord(b) && a != "currentSlideData"
    ensures PlaceholderRules("{" + a + "." + b + "}") == "{{" + a + "_" + b + "}}"
  {
    SimpleExprSkipsMemberAccess(a, b);
    SlideFieldSkipsMemberAccess(a, b);
    MemberAccessOfWords(a, b);
  }

  /** In the corrected order `{w}` becomes `{{w}}`. */
  lemma BareWordPlaceholder(w: string)
    requires IsWord(w)
    ensures PlaceholderRules("{" + w + "}") == "{{" + w + "}}"
  {
    SimpleExprOfWord(w);
    SlideFieldSkipsPlaceholder(w);
    MemberAccessSkipsPlaceholder(w);
  }

  /** The notice used when the rewrite leaves less than twenty characters. */
  const FolderFallback := "<div class=\"component-preview\"><p>Component preview unavailable - use manual editing</p></div>"

  /** Every rule, white-space collapse last. */
  function RewriteMarkup(html: string): (r: string)
    ensures NoDoubleSpace(r)
    ensures DropSpaces(r) == DropSpaces(PlaceholderRules(ApplyAll(MarkupRules, html)))
  {
    var t := PlaceholderRules(ApplyAll(MarkupRules, html));
    CollapseSpaces(t);
    ReplaceAll(Whitespace, t)
  }

  lemma DropSpacesConcat(a: string, b: string)
    ensures DropSpaces(a + b) == DropSpaces(a) + DropSpaces(b)
  {
    if a != [] {
      DropSpacesConcat(a[1..], b);
      assert (a + b)[1..] == a[1..] + b;
      var head := if IsSpace(a[0]) then [] else [a[0]];
      assert DropSpaces(a + b) == head + DropSpaces(a[1..] + b);
      assert DropSpaces(a) == head + DropSpaces(a[1..]);
      assert head + (DropSpaces(a[1..]) + DropSpaces(b)) == (head + DropSpaces(a[1..])) + DropSpaces(b);
    } else {
      assert a + b == b;
    }
  }

  lemma DropSpacesAllSpace(s: string)
    requires forall i :: 0 <= i < |s| ==> IsSpace(s[i])
    ensures DropSpaces(s) == []
  {
    if s != [] {
      DropSpacesAllSpace(s[1..]);
    }
  }

  /** `trim()` removes white space only. */
  lemma DropSpacesTrim(s: string)
    ensures DropSpaces(Trim(s)) == DropSpaces(s)
  {
    DropSpacesTrimStart(s);
    DropSpacesTrimEnd(TrimStart(s));
  }

  lemma DropSpacesTrimStart(s: string)
    ensures DropSpaces(TrimStart(s)) == DropSpaces(s)
  {
    var t := TrimStart(s);
    var a := |s| - |t|;
    assert s == s[..a] + t;
    DropSpacesConcat(s[..a], t);
    DropSpacesAllSpace(s[..a]);
  }

  lemma DropSpacesTrimEnd(t: string)
    ensures DropSpaces(TrimEnd(t)) == DropSpaces(t)
  {
    var u := TrimEnd(t);
    assert t == u + t[|u|..];
    DropSpacesConcat(u, t[|u|..]);
    DropSpacesAllSpace(t[|u|..]);
  }

  /** `convertReactToHTML(code)`: the rewritten, trimmed text, or the
      fallback notice when that is shorter than twenty characters. */
  function ConvertFolder(code: string, returnBlock: string -> Option<string>): (r: string)
    ensures r == FolderFallback
      || (|r| >= 20 && !IsSpace(r[0]) && !IsSpace(r[|r| - 1]) && NoDoubleSpace(r))
    ensures r != FolderFallback ==>
      DropSpaces(r) == DropSpaces(PlaceholderRules(ApplyAll(MarkupRules, ConvertSource(code, returnBlock))))
  {
    var full := RewriteMarkup(ConvertSource(code, returnBlock));
    var html := Trim(full);
    TrimIsInfix(full);
    var a, b :| 0 <= a <= b <= |full| && html == full[a..b];
    NoDoubleSpaceInfix(full, a, b);
    DropSpacesTrim(full);
    if html == "" || |html| < 20 then FolderFallback else html
  }

  // ---------------------------------------------------------------------------
  // Variable guesses (`detectVariables`)
  // ---------------------------------------------------------------------------

  /** One `variables[key] = value` assignment. */
  datatype Entry = Entry(key: string, value: string)

  datatype Hit = Hit(len: nat, entry: Entry)

  /** The three global patterns whose matches become variables. */
  datatype Scanner =
      /** `/(\w+):\s*['"`]([^'"`]+)['"`]/g` — a property with a quoted value */
    | PropPair
      /** `/const\s+(\w+)\s*=\s*['"`]([^'"`]+)['"`]/g` — a string constant */
    | ConstDecl
      /** `/>([A-Z][a-zA-Z\s]{5,50})</g` — capitalised text between tags */
    | JsxText

  predicate IsQuote(c: char) { c == '\'' || c == '"' || c == '`' }
  predicate NotQuoteChar(c: char) { !IsQuote(c) }
  predicate IsLetterOrSpace(c: char) { IsAlpha(c) || IsSpace(c) }

  /** A quote, a non-empty run without quotes, a quote (either kind each
      time): the index after the closing quote and the text between. */
  function QuotedAt(s: string, j: nat): (r: Option<(nat, string)>)
    requires j <= |s|
    ensures r.Some? ==> j + 3 <= r.value.0 <= |s| && r.value.1 == s[j + 1..r.value.0 - 1]
    ensures r.Some? ==> r.value.1 != [] && forall c :: c in r.value.1 ==> !IsQuote(c)
  {
    if j < |s| && IsQuote(s[j]) then
      var k := SpanEnd(s, j + 1, NotQuoteChar);
      if k > j + 1 && k < |s| then
        assert forall c :: c in s[j + 1..k] ==> !IsQuote(c) by {
          forall c | c in s[j + 1..k] ensures !IsQuote(c) {
            var i :| 0 <= i < k - j - 1 && s[j + 1..k][i] == c;
            assert s[j + 1 + i] == c;
          }
        }
        Some((k + 1, s[j + 1..k]))
      else None
    else None
  }

  function PropPairAt(s: string): (r: Option<Hit>)
    ensures r.Some? ==> 0 < r.value.len <= |s| && IsWord(r.value.entry.key)
  {
    match WordAt(s, 0)
    case None => None
    case Some(k) =>
      if k < |s| && s[k] == ':' then
        match QuotedAt(s, SpanEnd(s, k + 1, IsSpace))
        case Some((e, v)) => Some(Hit(e, Entry(s[..k], v)))
        case None => None
      else None
  }

  function ConstDeclAt(s: string): (r: Option<Hit>)
    ensures r.Some? ==> 0 < r.value.len <= |s| && IsWord(r.value.entry.key)
  {
    if StartsWith(s, "const") then
      var a := SpanEnd(s, 5, IsSpace);
      if a > 5 then
        match WordAt(s, a)
        case None => None
        case Some(n) =>
          var e := SpanEnd(s, n, IsSpace);
          if e < |s| && s[e] == '=' then
            match QuotedAt(s, SpanEnd(s, e + 1, IsSpace))
            case Some((q, v)) => Some(Hit(q, Entry(s[a..n], v)))
            case None => None
          else None
      else None
    else None
  }

  /** `text.toLowerCase().replace(/[^a-z0-9]+/g, '_')`. */
  function UnderscoreRuns(s: string): (r: string)
    ensures forall i :: 0 <= i < |r| ==> r[i] == '_' || (IsAlnumLower(r[i]) && r[i] in s)
    ensures forall i :: 0 <= i < |r| - 1 ==> !(r[i] == '_' && r[i + 1] == '_')
    ensures s != [] ==> r != []
    ensures s != [] ==> r[0] == (if IsAlnumLower(s[0]) then s[0] else '_')
    decreases |s|
  {
    if s == [] then []
    else if IsAlnumLower(s[0]) then
      var rest := UnderscoreRuns(s[1..]);
      assert forall c :: c in s[1..] ==> c in s;
      [s[0]] + rest
    else
      var k := SpanEnd(s, 0, NotAlnumLower);
      var rest := UnderscoreRuns(s[k..]);
      assert forall c :: c in s[k..] ==> c in s;
      "_" + rest
  }

  predicate NotAlnumLower(c: char) { !IsAlnumLower(c) }

  /** Every character of `[a-z0-9]` is kept, in order, and no other is
      added: only the runs in between become `_`. */
  lemma {:induction false} UnderscoreRunsKeepsAlnum(s: string)
    ensures Filter(IsAlnumLower, UnderscoreRuns(s)) == Filter(IsAlnumLower, s)
    decreases |s|
  {
    if s != [] {
      FilterCons(IsAlnumLower, s[0], s[1..]);
      assert s == [s[0]] + s[1..];
      if IsAlnumLower(s[0]) {
        UnderscoreRunsKeepsAlnum(s[1..]);
        FilterCons(IsAlnumLower, s[0], UnderscoreRuns(s[1..]));
      } else {
        var k := SpanEnd(s, 0, NotAlnumLower);
        UnderscoreRunsKeepsAlnum(s[k..]);
        FilterSkip(IsAlnumLower, s, k);
        FilterCons(IsAlnumLower, '_', UnderscoreRuns(s[k..]));
      }
    }
  }

  /** `.substring(0, 30)`. */
  function Take30(s: string): (r: string)
    ensures |r| <= 30 && |r| <= |s| && r == s[..|r|]
    ensures |s| > 0 ==> |r| > 0
  {
    if |s| <= 30 then s else s[..30]
  }

  /** The key made from a text: lower-cased, every run of characters outside
      `[a-z0-9]` turned into `_`, cut to thirty characters. */
  function TextKey(text: string): string {
    Take30(UnderscoreRuns(Lower(text)))
  }

  /** The kept-text test of the text loop. */
  predicate TextAccepted(text: string) {
    text != "" && '{' !in text && '(' !in text && !StartsWith(text, "<")
  }

  /** A key built from text: non-empty, at most thirty characters, lower-case
      letters and `_` only. */
  predicate TextKeyShape(k: string) {
    k != [] && |k| <= 30 && forall i :: 0 <= i < |k| ==> IsLower(k[i]) || k[i] == '_'
  }

  lemma TextKeyShapeOf(text: string)
    requires text != [] && forall c :: c in text ==> IsLetterOrSpace(c)
    ensures TextKeyShape(TextKey(text))
  {
    var low := Lower(text);
    LowerLettersOrSpaces(text);
    var u := UnderscoreRuns(low);
    UnderscoreRunsOfLetters(low);
    var r := Take30(u);
    assert forall i :: 0 <= i < |r| ==> r[i] == u[i];
  }

  lemma LowerLettersOrSpaces(text: string)
    requires forall c :: c in text ==> IsLetterOrSpace(c)
    ensures forall c :: c in Lower(text) ==> IsLower(c) || IsSpace(c)
  {
    var low := Lower(text);
    forall c | c in low ensures IsLower(c) || IsSpace(c) {
      var i :| 0 <= i < |low| && low[i] == c;
      assert text[i] in text;
    }
  }

  lemma UnderscoreRunsOfLetters(s: string)
    requires forall c :: c in s ==> IsLower(c) || IsSpace(c)
    ensures forall i :: 0 <= i < |UnderscoreRuns(s)| ==> IsLower(UnderscoreRuns(s)[i]) || UnderscoreRuns(s)[i] == '_'
  {
    var u := UnderscoreRuns(s);
    forall i | 0 <= i < |u| ensures IsLower(u[i]) || u[i] == '_' {
      if u[i] != '_' {
        assert IsAlnumLower(u[i]) && u[i] in s;
      }
    }
  }

  /** The text matched between `>` and `<`: it starts with a capital and
      holds five to fifty further letters or white-space characters. */
  predicate TextMatchEnds(s: string, k: nat) {
    |s| >= 2 && s[0] == '>' && IsUpper(s[1]) && 2 <= k < |s|
    && k == SpanEnd(s, 2, IsLetterOrSpace) && 5 <= k - 2 <= 50 && s[k] == '<'
  }

  /** A matched text passes the kept-text test and holds letters and white
      space only. */
  lemma MatchedTextAccepted(s: string, k: nat)
    requires TextMatchEnds(s, k)
    ensures TextAccepted(Trim(s[1..k]))
    ensures forall c :: c in Trim(s[1..k]) ==> IsLetterOrSpace(c)
  {
    var t := s[1..k];
    MatchedTextLetters(s, k);
    assert t[0] == s[1] && !IsSpace(t[0]);
    TrimLeadingWord(t);
    var text := Trim(t);
    assert !StartsWith(text, "<") by { assert text[..1][0] == s[1]; }
  }

  /** Text that starts with a non-space keeps its first character when
      trimmed, and loses only trailing white space. */
  lemma TrimLeadingWord(t: string)
    requires t != [] && !IsSpace(t[0])
    ensures Trim(t) != [] && Trim(t)[0] == t[0]
    ensures forall c :: c in Trim(t) ==> c in t
  {
    assert TrimStart(t) == t;
    assert Trim(t) == TrimEnd(t);
  }

  lemma MatchedTextLetters(s: string, k: nat)
    requires TextMatchEnds(s, k)
    ensures forall c :: c in s[1..k] ==> IsLetterOrSpace(c)
  {
    var t := s[1..k];
    forall c | c in t ensures IsLetterOrSpace(c) {
      var i :| 0 <= i < k - 1 && t[i] == c;
      assert s[1 + i] == c;
    }
  }

  /** Every match is kept: the text test in the loop never rejects, since a
      matched text starts with a capital and holds only letters and spaces. */
  function JsxTextAt(s: string): (r: Option<Hit>)
    ensures r.Some? ==> 0 < r.value.len <= |s| && TextKeyShape(r.value.entry.key)
    ensures r.Some? <==> (|s| >= 2 && TextMatchEnds(s, SpanEnd(s, 2, IsLetterOrSpace)))
  {
    if |s| >= 2 && s[0] == '>' && IsUpper(s[1]) then
      var k := SpanEnd(s, 2, IsLetterOrSpace);
      if 5 <= k - 2 <= 50 && k < |s| && s[k] == '<' then
        var text := Trim(s[1..k]);
        MatchedTextAccepted(s, k);
        TextKeyShapeOf(text);
        if TextAccepted(text) then Some(Hit(k + 1, Entry(TextKey(text), text)))
        else None
      else None
    else None
  }

  function HitAt(sc: Scanner, s: string): (r: Option<Hit>)
    ensures r.Some? ==> 0 < r.value.len <= |s|
  {
    match sc
    case PropPair => PropPairAt(s)
    case ConstDecl => ConstDeclAt(s)
    case JsxText => JsxTextAt(s)
  }

  /** `s.matchAll(pattern)`: matches left to right, each search resuming
      after the previous match. */
  function Scan(sc: Scanner, s: string): (es: seq<Entry>)
    decreases |s|
  {
    if s == [] then []
    else
      match HitAt(sc, s)
      case Some(h) => [h.entry] + Scan(sc, s[h.len..])
      case None => Scan(sc, s[1..])
  }

  /** `/const\s+slides[^=]*=\s*\[([\s\S]*?)\];/` at the front of `s`: the text
      between the `[` and the first `];` after it. */
  function SlidesAt(s: string): (r: Option<string>)
  {
    if StartsWith(s, "const") then
      var a := SpanEnd(s, 5, IsSpace);
      if a > 5 && StartsWith(s[a..], "slides") then
        var e := SpanEnd(s, a + 6, NotEquals);
        if e < |s| then
          var b := SpanEnd(s, e + 1, IsSpace);
          if b < |s| && s[b] == '[' then
            match IndexOf(s[b + 1..], "];")
            case Some(t) => Some(s[b + 1..b + 1 + t])
            case None => None
          else None
        else None
      else None
    else None
  }

  predicate NotEquals(c: char) { c != '=' }

  /** `/\{\s*id:\s*\d+,?\s*([\s\S]*?)\}/` at the front of `s`: what follows
      the numeric id up to the first `}`. */
  function FirstSlideAt(s: string): (r: Option<string>)
  {
    if s != [] && s[0] == '{' then
      var a := SpanEnd(s, 1, IsSpace);
      if StartsWith(s[a..], "id:") then
        var c := SpanEnd(s, a + 3, IsSpace);
        var d := SpanEnd(s, c, IsDigit);
        if d > c then
          var d' := if d < |s| && s[d] == ',' then d + 1 else d;
          var e := SpanEnd(s, d', IsSpace);
          match IndexOf(s[e..], "}")
          case Some(t) => Some(s[e..e + t])
          case None => None
        else None
      else None
    else None
  }

  /** The leftmost position where `at` matches (`|s|` when none does); the
      patterns used here never match empty text. */
  function LeftmostIndex(at: string -> Option<string>, s: string): (k: nat)
    ensures k <= |s|
    ensures k < |s| ==> at(s[k..]).Some?
    ensures forall j :: 0 <= j < k ==> at(s[j..]).None?
    decreases |s|
  {
    if s == [] then 0
    else if at(s).Some? then 0
    else
      var k := LeftmostIndex(at, s[1..]);
      assert forall j :: 1 <= j <= |s| ==> s[1..][j - 1..] == s[j..];
      k + 1
  }

  /** `s.match(pattern)` without the global flag: the first match's group. */
  function FirstMatch(at: string -> Option<string>, s: string): (r: Option<string>)
    ensures r.None? <==> forall j :: 0 <= j < |s| ==> at(s[j..]).None?
  {
    var k := LeftmostIndex(at, s);
    if k < |s| then at(s[k..]) else None
  }

  /** The properties of the first slide of a `slides` array, in order. */
  function SlideEntries(code: string): seq<Entry> {
    match FirstMatch(SlidesAt, code)
    case None => []
    case Some(group) =>
      match FirstMatch(FirstSlideAt, group)
      case None => []
      case Some(body) => Scan(PropPair, body)
  }

  /** Constant names that are component names, not content. */
  const ReservedNames := ["Hero", "Component", "App"]

  predicate NotReserved(e: Entry) { e.key !in ReservedNames }

  /** Every assignment `detectVariables` makes, in order: the first slide's
      properties, the string constants, then the texts between tags. */
  function Entries(code: string): seq<Entry> {
    SlideEntries(code) + Filter(NotReserved, Scan(ConstDecl, code)) + Scan(JsxText, code)
  }

  function Keys(es: seq<Entry>): (ks: seq<string>)
    ensures |ks| == |es| && forall i :: 0 <= i < |es| ==> ks[i] == es[i].key
  {
    if es == [] then [] else [es[0].key] + Keys(es[1..])
  }

  /** The value the last assignment to `k` leaves. */
  function LastValue(es: seq<Entry>, k: string): Option<string>
    decreases |es|
  {
    if es == [] then None
    else if es[|es| - 1].key == k then Some(es[|es| - 1].value)
    else LastValue(es[..|es| - 1], k)
  }

  lemma KeysPrefix(es: seq<Entry>, n: nat)
    requires n <= |es|
    ensures Keys(es[..n]) == Keys(es)[..n]
  {
  }

  /** The record after the assignments, in order, to an empty object. */
  function Assign(es: seq<Entry>): (t: VarTable)
    ensures t.Valid()
    ensures t.keys == Dedup(Keys(es))
    ensures forall k :: k in t.values ==> Some(t.values[k]) == LastValue(es, k)
    ensures forall k :: k in t.values <==> LastValue(es, k).Some?
    decreases |es|
  {
    if es == [] then Empty
    else
      var n := |es| - 1;
      var t := Assign(es[..n]);
      KeysPrefix(es, n);
      assert Keys(es)[..n] == Keys(es[..n]);
      DedupMembers(Keys(es[..n]));
      Put(t, es[n].key, es[n].value)
  }

  const FolderDefaults := VarTable(["title", "description"],
                                   map["title" := "Component Title", "description" := " Component description"])

  /** `detectVariables(code)`: the assignments, or two defaults when there
      are none. */
  function DetectFolderVariables(code: string): (t: VarTable)
    ensures t.Valid() && t.keys != []
    ensures Entries(code) == [] ==> t == FolderDefaults
    ensures Entries(code) != [] ==>
      t.keys == Dedup(Keys(Entries(code)))
      && forall k :: k in t.values ==> Some(t.values[k]) == LastValue(Entries(code), k)
  {
    var es := Entries(code);
    var t := Assign(es);
    AssignedKeys(es);
    DefaultsValid();
    if t.keys == [] then FolderDefaults
    else t
  }

  /** Some key is set exactly when there is some assignment. */
  lemma AssignedKeys(es: seq<Entry>)
    ensures Assign(es).keys == [] <==> es == []
  {
    DedupMembers(Keys(es));
    if es != [] {
      assert Keys(es)[0] in Keys(es);
    }
  }

  lemma DefaultsValid()
    ensures FolderDefaults.Valid() && FolderDefaults.keys != []
  {
    assert FolderDefaults.keys[0] != FolderDefaults.keys[1];
  }

  /** Every key found in text between tags has the text-key shape. */
  lemma {:induction false} TextKeysShaped(s: string)
    ensures forall e :: e in Scan(JsxText, s) ==> TextKeyShape(e.key)
    decreases |s|
  {
    if s != [] {
      match HitAt(JsxText, s)
      case Some(h) => TextKeysShaped(s[h.len..]);
      case None => TextKeysShaped(s[1..]);
    }
  }

  lemma LastValueAssigned(es: seq<Entry>, k: string)
    requires LastValue(es, k).Some?
    ensures exists e :: e in es && e.key == k
    decreases |es|
  {
    if es[|es| - 1].key != k {
      LastValueAssigned(es[..|es| - 1], k);
    }
  }

  /** `Hero`, `Component` and `App` become variables only through the first
      slide's properties: constants of those names are skipped and text keys
      are lower-case. */
  lemma ReservedOnlyFromSlides(code: string, k: string)
    requires k in ReservedNames && k in DetectFolderVariables(code).values
    ensures exists e :: e in SlideEntries(code) && e.key == k
  {
    var es := Entries(code);
    var t := DetectFolderVariables(code);
    assert es == [] ==> t == FolderDefaults;
    assert Some(t.values[k]) == LastValue(es, k);
    LastValueAssigned(es, k);
    var e :| e in es && e.key == k;
    ReservedNotScanned(code, k, e);
  }

  /** A reserved name is never the key of a kept constant or of a text key. */
  lemma ReservedNotScanned(code: string, k: string, e: Entry)
    requires k in ReservedNames && e.key == k
    ensures e !in Filter(NotReserved, Scan(ConstDecl, code)) + Scan(JsxText, code)
  {
    TextKeysShaped(code);
    assert !IsLower(k[0]) && k[0] != '_';
    assert e !in Filter(NotReserved, Scan(ConstDecl, code));
    assert e !in Scan(JsxText, code);
  }

  // ---------------------------------------------------------------------------
  // The whole import (`parseAndSubmit`, `handleFiles`)
  // ---------------------------------------------------------------------------

  /** What the importer hands on: name, category, markup, styles, variables. */
  datatype FolderComponent = FolderComponent(name: string, category: string, html: string, css: string,
                                             variables: VarTable)

  function Contents(us: seq<UploadedFile>): (cs: seq<string>)
    ensures |cs| == |us| && forall i :: 0 <= i < |us| ==> cs[i] == us[i].content
  {
    if us == [] then [] else [us[0].content] + Contents(us[1..])
  }

  /** `parseAndSubmit(files)`. */
  function ParseAndSubmit(up: seq<UploadedFile>, returnBlock: string -> Option<string>): (r: Result<FolderComponent>)
    ensures r.Failure? <==> forall i :: 0 <= i < |up| ==> up[i].kind != ComponentFile
    ensures r.Failure? ==> r.error == NoComponentFilesMessage
    ensures r.Success? ==>
      var main := MainUpload(up).value;
      r.value.name == ComponentParser.StripComponentExt(main.name) && r.value.category == "Hero"
      && r.value.html == ConvertFolder(main.content, returnBlock)
      && r.value.variables == DetectFolderVariables(main.content)
      && r.value.css == Join(Contents(Filter(IsStyleUpload, up)), "\n\n")
  {
    match MainUpload(up)
    case None => Failure(NoComponentFilesMessage)
    case Some(main) =>
      Success(FolderComponent(
        ComponentParser.StripComponentExt(main.name), "Hero",
        ConvertFolder(main.content, returnBlock),
        Join(Contents(Filter(IsStyleUpload, up)), "\n\n"),
        DetectFolderVariables(main.content)))
  }

  /** `handleFiles(fileList)`: read the kept files, give up when none is
      kept, else parse them. */
  function HandleFiles(files: seq<LocalFile>, returnBlock: string -> Option<string>): (r: Result<FolderComponent>)
    ensures Upload(files).Failure? ==> r == Failure(ReadFailedMessage)
    ensures Upload(files).Success? && Filter(IsKept, files) == [] ==> r == Failure(NoFilesMessage)
    ensures Upload(files).Success? && Filter(IsKept, files) != [] ==> r == ParseAndSubmit(Upload(files).value, returnBlock)
  {
    match Upload(files)
    case Failure(e) => Failure(e)
    case Success(up) => if up == [] then Failure(NoFilesMessage) else ParseAndSubmit(up, returnBlock)
  }

  /** A folder without component or style files is rejected before anything
      is read or parsed. */
  lemma NothingKept(files: seq<LocalFile>, returnBlock: string -> Option<string>)
    requires forall i :: 0 <= i < |files| ==> !IsKept(files[i])
    ensures HandleFiles(files, returnBlock) == Failure(NoFilesMessage)
  {
    UploadFailsIffUnreadable(files);
    assert Filter(IsKept, files) == [] by {
      if Filter(IsKept, files) != [] {
        assert Filter(IsKept, files)[0] in Filter(IsKept, files);
      }
    }
  }

  /** A readable folder of style sheets alone is rejected for lacking a component. */
  lemma StylesOnly(files: seq<LocalFile>, returnBlock: string -> Option<string>)
    requires exists i :: 0 <= i < |files| && IsKept(files[i])
    requires forall i :: 0 <= i < |files| ==> !IsComponentName(files[i].name) && files[i].content.Some?
    ensures HandleFiles(files, returnBlock) == Failure(NoComponentFilesMessage)
  {
    UploadFailsIffUnreadable(files);
    var kept := Filter(IsKept, files);
    var i :| 0 <= i < |files| && IsKept(files[i]);
    assert files[i] in files;
    assert kept != [] by { assert files[i] in kept; }
    var up := Upload(files).value;
    forall j | 0 <= j < |up| ensures up[j].kind != ComponentFile {
      assert Describes(up[j], kept[j]);
      assert kept[j] in files;
    }
  }
}
