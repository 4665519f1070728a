/** The three-step site wizard (`src/pages/dashboard/CreateWebsiteWizard.tsx`):
    step navigation, the feature toggle, the form's defaults and the outcome
    of the generation request. */
module Wizard {
  import opened Wrappers
  import opened Strings
  import opened Collections
  import Constants

  datatype Preferences = Preferences(style: string, targetAudience: string, features: seq<string>,
                                     colorPreference: string)

  /** The request sent to the generator. */
  datatype SiteRequest = SiteRequest(userId: string, businessName: string, businessSector: string,
                                     description: string, preferences: Preferences)

  /** The wizard: current step, generating flag, error (none when `None`) and form. */
  datatype WizardState = WizardState(step: int, generating: bool, error: Option<string>, form: SiteRequest)

  const BusinessNameRequired := "Business name is required"
  const GenerateFailedMessage := "Failed to generate website"
  const UnexpectedMessage := "An unexpected error occurred"

  /** The first render: step 1, and the form's defaults; the user id is the
      signed-in user's, or empty. */
  function Initial(userId: Option<string>): (w: WizardState)
    ensures w.step == 1 && !w.generating && w.error.None?
    ensures w.form.userId == OrElse(userId, "")
    ensures w.form.businessName == "" && w.form.description == ""
  {
    WizardState(1, false, None,
      SiteRequest(OrElse(userId, ""), "", "general", "",
        Preferences("modern", "b2c", ["contact-form", "testimonials"], "auto")))
  }

  /** Every default choice is an option of its table, so each is selectable
      and shown as selected. */
  lemma DefaultsFromTables(userId: Option<string>)
    ensures var p := Initial(userId).form.preferences;
      && Initial(userId).form.businessSector in Constants.Values(Constants.BusinessSectors)
      && p.style in Constants.WebsiteStyles
      && p.targetAudience in Constants.TargetAudiences
      && (forall f :: f in p.features ==> f in Constants.WebsiteFeatures)
      && p.colorPreference in Constants.ColorPreferences
  {
    var s := Constants.BusinessSectors;
    assert Constants.Values(s)[45] == "general";
    assert Constants.WebsiteFeatures[4] == "contact-form";
    assert Constants.WebsiteFeatures[5] == "testimonials";
  }

  predicate Blank(s: string) {
    Trim(s) == []
  }

  /** `handleNext`: step 1 with a blank name shows the error and stays;
      otherwise the error clears and the step advances, at most to 3. */
  function Next(w: WizardState): (r: WizardState)
    ensures r.form == w.form && r.generating == w.generating
    ensures w.step == 1 && Blank(w.form.businessName) ==> r == w.(error := Some(BusinessNameRequired))
    ensures !(w.step == 1 && Blank(w.form.businessName)) ==>
      r.error.None? && r.step == (if w.step + 1 < 3 then w.step + 1 else 3)
  {
    if w.step == 1 && Blank(w.form.businessName) then w.(error := Some(BusinessNameRequired))
    else w.(error := None, step := if w.step + 1 < 3 then w.step + 1 else 3)
  }

  /** `handleBack`: one step back, never below 1. */
  function Back(w: WizardState): (r: WizardState)
    ensures r == w.(step := if w.step - 1 > 1 then w.step - 1 else 1)
  {
    w.(step := if w.step - 1 > 1 then w.step - 1 else 1)
  }

  /** The step stays within 1..3 under both moves, and Back undoes a Next
      that moved. */
  lemma StepsStayInRange(w: WizardState)
    requires 1 <= w.step <= 3
    ensures 1 <= Next(w).step <= 3 && 1 <= Back(w).step <= 3
    ensures Next(w).step != w.step ==> Back(Next(w)).step == w.step
    ensures w.step < 3 && !Blank(w.form.businessName) ==> Next(w).step == w.step + 1
  {
  }

  /** A whitespace-only name blocks step 1 whatever it contains. */
  lemma WhitespaceNameBlocks(w: WizardState)
    requires w.step == 1
    requires forall i :: 0 <= i < |w.form.businessName| ==> IsSpace(w.form.businessName[i])
    ensures Next(w).step == 1 && Next(w).error == Some(BusinessNameRequired)
  {
    TrimBlank(w.form.businessName);
  }

  function Without(fs: seq<string>, f: string): (r: seq<string>)
    ensures f !in r
    ensures forall g :: g != f ==> (g in r <==> g in fs)
  {
    Filter((g: string) => g != f, fs)
  }

  /** The feature toggle: a selected feature is removed (every occurrence),
      another one is appended. */
  function ToggleFeature(fs: seq<string>, f: string): (r: seq<string>)
    ensures f in r <==> f !in fs
    ensures f !in fs ==> r == fs + [f]
    ensures f in fs ==> r == Without(fs, f)
  {
    if f in fs then Without(fs, f) else fs + [f]
  }

  /** The other features keep their order, and toggling an unselected feature
      twice gives the list back. */
  lemma ToggleKeepsOthers(fs: seq<string>, f: string)
    ensures Without(ToggleFeature(fs, f), f) == Without(fs, f)
    ensures f !in fs ==> ToggleFeature(ToggleFeature(fs, f), f) == fs
  {
    if f !in fs {
      FilterSnoc((g: string) => g != f, fs, f);
      FilterAll((g: string) => g != f, fs);
    } else {
      WithoutTwice(fs, f);
    }
  }

  lemma WithoutTwice(fs: seq<string>, f: string)
    ensures Without(Without(fs, f), f) == Without(fs, f)
  {
    var w := Without(fs, f);
    assert forall i :: 0 <= i < |w| ==> w[i] in w;
    FilterAll((g: string) => g != f, w);
  }

  /** What the generator answers, or what it throws (`isError` when the
      thrown value is an `Error`). */
  datatype GenerateReply =
    | Replied(success: bool, websiteId: string, error: Option<string>)
    | Thrown(isError: bool, message: string)

  /** The outcome of `handleGenerate`: the state and the route navigated to. */
  datatype GenerateEffect = GenerateEffect(state: WizardState, navigate: Option<string>)

  function BuilderRoute(websiteId: string): string {
    "/dashboard/websites/" + websiteId + "/builder"
  }

  /** `handleGenerate`: success opens the builder of the new site; a failure
      reply shows its error or the default; a throw shows its message when
      it is an `Error`. Generating ends in every case. */
  function Generate(w: WizardState, generate: SiteRequest -> GenerateReply): (r: GenerateEffect)
    ensures !r.state.generating && r.state.form == w.form && r.state.step == w.step
    ensures r.navigate.Some? <==> generate(w.form).Replied? && generate(w.form).success
    ensures r.navigate.Some? ==> r.navigate.value == BuilderRoute(generate(w.form).websiteId) && r.state.error.None?
    ensures generate(w.form).Replied? && !generate(w.form).success ==>
      r.state.error == Some(OrElse(generate(w.form).error, GenerateFailedMessage))
    ensures generate(w.form).Thrown? ==>
      r.state.error == Some(if generate(w.form).isError then generate(w.form).message else UnexpectedMessage)
  {
    var started := w.(generating := true, error := None);
    match generate(w.form)
    case Replied(success, id, e) =>
      if success then GenerateEffect(started.(generating := false), Some(BuilderRoute(id)))
      else GenerateEffect(started.(generating := false, error := Some(OrElse(e, GenerateFailedMessage))), None)
    case Thrown(isError, msg) =>
      GenerateEffect(started.(generating := false, error := Some(if isError then msg else UnexpectedMessage)), None)
  }

  /** The route names the site: two routes are equal only for the same id,
      so the builder opened is the one of the site just created. */
  lemma BuilderRouteNamesSite(a: string, b: string)
    ensures BuilderRoute(a) == BuilderRoute(b) <==> a == b
  {
    var pre := "/dashboard/websites/";
    if BuilderRoute(a) == BuilderRoute(b) {
      assert |a| == |b|;
      assert BuilderRoute(a)[|pre|..|pre| + |a|] == a;
      assert BuilderRoute(b)[|pre|..|pre| + |b|] == b;
    }
  }

  /** Generating again from the state a generation left behind sends the
      same request and, with the same answer, ends in the same place: the
      outcome depends only on the form and the answer. */
  lemma GenerateRetry(w: WizardState, generate: SiteRequest -> GenerateReply)
    ensures Generate(Generate(w, generate).state, generate) == Generate(w, generate)
  {
    var r := Generate(w, generate);
    assert r.state.form == w.form;
    assert r.state == w.(generating := false, error := r.state.error);
  }
}
