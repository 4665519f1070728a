/** The component builder page (`src/pages/admin/ComponentBuilder.tsx`):
    placeholder detection on every edit of the markup, the slug and payload
    of a save, and the import of a parsed component into the form. */
module ComponentBuilder {
  import opened Wrappers
  import opened Strings
  import opened Collections
  import opened VarTables
  import Placeholders
  import Utils

  datatype SourceMode = Manual | FromGitHub

  /** The builder form. */
  datatype Form = Form(
    mode: SourceMode,
    name: string,
    category: string,
    html: string,
    css: string,
    variables: seq<string>,
    testValues: VarTable,
    saving: bool)

  /** The variable-detection effect: the distinct placeholder names of the
      markup, in first-occurrence order, recomputed whenever it changes. */
  function EditHtml(f: Form, html: string): (r: Form)
    ensures r.html == html && r.variables == Placeholders.DetectNames(html)
    ensures r.(html := f.html, variables := f.variables) == f
  {
    f.(html := html, variables := Placeholders.DetectNames(html))
  }

  /** After an edit the variables are exactly the placeholder names, once
      each, ordered by first occurrence; markup without `{{` has none. */
  lemma EditHtmlDetects(f: Form, html: string)
    ensures NoDup(EditHtml(f, html).variables)
    ensures forall n :: n in EditHtml(f, html).variables <==> n in Placeholders.HoleNames(Placeholders.Tokenize(html))
    ensures !Contains(html, "{{") ==> EditHtml(f, html).variables == []
  {
    if !Contains(html, "{{") {
      Placeholders.NoPlaceholderNoNames(html);
    }
  }

  // ---------------------------------------------------------------------------
  // Saving
  // ---------------------------------------------------------------------------

  /** The slug: lower-case, runs of other characters dashed, edge dashes
      removed; unlike a subdomain it is not cut to a length. */
  function Slug(name: string): (r: string)
    ensures forall i :: 0 <= i < |r| ==> Utils.IsLabelChar(r[i])
    ensures Utils.NoDoubleDash(r)
    ensures r == [] || (r[0] != '-' && r[|r| - 1] != '-')
    ensures Filter(IsAlnumLower, r) == Filter(IsAlnumLower, Lower(name))
  {
    var d := Utils.DashRuns(Lower(name));
    Utils.StripKeepsShape(d);
    Utils.DashRunsKeepsAlnum(Lower(name));
    Utils.StripKeepsAlnum(d);
    Utils.StripEdgeDashes(d)
  }

  /** A name that is already a slug (lower-case letters, digits and single
      inner dashes) is sent as its own slug. */
  lemma SlugOfClean(name: string)
    requires forall i :: 0 <= i < |name| ==> Utils.IsLabelChar(name[i])
    requires Utils.NoDoubleDash(name)
    requires name == [] || (name[0] != '-' && name[|name| - 1] != '-')
    ensures Slug(name) == name
  {
    Utils.LowerOfLabel(name);
    Utils.DashRunsOfLabel(name);
  }

  /** Two words of `[a-z0-9]` with a separator outside `[a-zA-Z0-9]` between
      them (a space, say) are joined by one dash: "hero section" gives
      "hero-section". */
  lemma SlugJoinsWords(a: string, sep: string, b: string)
    requires a != [] && forall i :: 0 <= i < |a| ==> IsAlnumLower(a[i])
    requires b != [] && forall i :: 0 <= i < |b| ==> IsAlnumLower(b[i])
    requires sep != [] && forall i :: 0 <= i < |sep| ==> !IsAlnumLower(sep[i]) && !IsUpper(sep[i])
    ensures Slug(a + sep + b) == a + "-" + b
  {
    Utils.JoinedNotUpper(a, sep, b);
    Utils.LowerOfLetters(a + sep + b);
    Utils.DashRunsJoin(a, sep, b);
    var d := a + "-" + b;
    assert d[0] == a[0] && d[|d| - 1] == b[|b| - 1];
  }

  /** A name that is already a slug is its own slug, so slugging is idempotent. */
  lemma SlugOfSlug(name: string)
    ensures Slug(Slug(name)) == Slug(name)
  {
    SlugOfClean(Slug(name));
  }

  /** What `createTemplate` receives. */
  datatype TemplatePayload = TemplatePayload(
    name: string,
    slug: string,
    category: string,
    htmlTemplate: string,
    cssTemplate: string,
    fields: seq<string>)

  /** The alerts a save can raise. */
  datatype Alert = AskForName | SavedAlert | SaveErrorAlert(message: string)

  /** The result of `handleSave`: the request made (if any), the alert, whether
      the page moved to `/admin`, and the form afterwards. */
  datatype SaveEffect = SaveEffect(request: Option<TemplatePayload>, alert: Alert, toAdmin: bool, form: Form)

  function PayloadOf(f: Form): (p: TemplatePayload)
    ensures p.name == f.name && p.category == f.category && p.slug == Slug(f.name)
    ensures p.htmlTemplate == f.html && p.cssTemplate == f.css && p.fields == f.variables
  {
    TemplatePayload(f.name, Slug(f.name), f.category, f.html, f.css, f.variables)
  }

  /** `handleSave`: without a name nothing is sent; otherwise the payload is
      sent and the outcome alerted; saving ends in every case. */
  function HandleSave(f: Form, createTemplate: TemplatePayload -> Result<()>): (r: SaveEffect)
    ensures r.request.None? <==> f.name == ""
    ensures f.name == "" ==> r.alert == AskForName && !r.toAdmin && r.form == f
    ensures r.request.Some? ==> r.request.value == PayloadOf(f) && r.form == f.(saving := false)
    ensures r.toAdmin <==> f.name != "" && createTemplate(PayloadOf(f)).Success?
    ensures f.name != "" && createTemplate(PayloadOf(f)).Failure? ==>
      r.alert == SaveErrorAlert(createTemplate(PayloadOf(f)).error)
  {
    if f.name == "" then SaveEffect(None, AskForName, false, f)
    else
      var p := PayloadOf(f);
      match createTemplate(p)
      case Success(_) => SaveEffect(Some(p), SavedAlert, true, f.(saving := false))
      case Failure(e) => SaveEffect(Some(p), SaveErrorAlert(e), false, f.(saving := false))
  }

  /** The saved fields are the detected variables: after editing the markup,
      a save sends exactly its distinct placeholder names. */
  lemma SaveCarriesDetected(f: Form, html: string, createTemplate: TemplatePayload -> Result<()>)
    requires f.name != ""
    ensures var r := HandleSave(EditHtml(f, html), createTemplate);
      r.request.Some? && r.request.value.fields == Placeholders.DetectNames(html)
      && r.request.value.htmlTemplate == html
  {
  }

  // ---------------------------------------------------------------------------
  // Import
  // ---------------------------------------------------------------------------

  /** The component an import hands over (the parser's or the folder
      importer's result). */
  datatype Imported = Imported(name: string, category: string, html: string, css: string, variables: VarTable)

  /** Copying `Object.entries(variables)` into a fresh record, key by key. */
  function CopyEntries(t: VarTable, keys: seq<string>, acc: VarTable): (r: VarTable)
    requires t.Valid() && acc.Valid()
    requires forall k :: k in keys ==> k in t.values
    ensures r.Valid()
    decreases |keys|
  {
    if keys == [] then acc
    else CopyEntries(t, keys[1..], Put(acc, keys[0], t.values[keys[0]]))
  }

  lemma TailFresh(t: VarTable, keys: seq<string>, acc: VarTable)
    requires t.Valid() && acc.Valid() && NoDup(keys) && keys != []
    requires forall k :: k in keys ==> k in t.values && k !in acc.values
    ensures NoDup(keys[1..])
    ensures forall k :: k in keys[1..] ==> k in t.values && k !in Put(acc, keys[0], t.values[keys[0]]).values
  {
    forall k | k in keys[1..] ensures k != keys[0] {
      var i :| 1 <= i < |keys| && keys[i] == k;
    }
  }

  /** Copying fresh, distinct keys appends them in order and takes their values. */
  lemma {:induction false} CopyEntriesSpec(t: VarTable, keys: seq<string>, acc: VarTable)
    requires t.Valid() && acc.Valid() && NoDup(keys)
    requires forall k :: k in keys ==> k in t.values && k !in acc.values
    ensures CopyEntries(t, keys, acc).keys == acc.keys + keys
    ensures forall k :: k in keys ==> CopyEntries(t, keys, acc).values[k] == t.values[k]
    decreases |keys|
  {
    if keys != [] {
      var acc' := Put(acc, keys[0], t.values[keys[0]]);
      assert acc'.keys == acc.keys + [keys[0]];
      TailFresh(t, keys, acc);
      CopyEntriesSpec(t, keys[1..], acc');
      assert (acc.keys + [keys[0]]) + keys[1..] == acc.keys + keys;
      CopyKeepsEarlier(t, keys[1..], acc', keys[0]);
    }
  }

  lemma {:induction false} CopyKeepsEarlier(t: VarTable, keys: seq<string>, acc: VarTable, k: string)
    requires t.Valid() && acc.Valid()
    requires forall j :: j in keys ==> j in t.values
    requires k in acc.values && k !in keys
    ensures k in CopyEntries(t, keys, acc).values && CopyEntries(t, keys, acc).values[k] == acc.values[k]
    decreases |keys|
  {
    if keys != [] {
      CopyKeepsEarlier(t, keys[1..], Put(acc, keys[0], t.values[keys[0]]), k);
    }
  }

  /** Copying every key of a table into an empty one gives the table back. */
  lemma CopyWhole(t: VarTable)
    requires t.Valid()
    ensures CopyEntries(t, t.keys, Empty) == t
  {
    var tv := CopyEntries(t, t.keys, Empty);
    CopyEntriesSpec(t, t.keys, Empty);
    assert tv.keys == t.keys;
    assert tv.values == t.values;
  }

  /** `handleGitHubImport`: the form takes the component's fields, the test
      values become exactly its variable table, and the mode is manual. The
      new markup triggers detection as any edit does. */
  function HandleImport(f: Form, c: Imported): (r: Form)
    requires c.variables.Valid()
    ensures r.name == c.name && r.category == c.category && r.html == c.html && r.css == c.css
    ensures r.mode == Manual && r.saving == f.saving
    ensures r.variables == Placeholders.DetectNames(c.html)
    ensures r.testValues == c.variables
  {
    var tv := CopyEntries(c.variables, c.variables.keys, Empty);
    CopyWhole(c.variables);
    EditHtml(f.(name := c.name, category := c.category, css := c.css, testValues := tv, mode := Manual), c.html)
  }
}
