/** The site builder page (`src/pages/builder/SiteBuilder.tsx`): the joint
    load of a website and its home-page components, and the rendering of each
    component from its template and custom content. */
module SiteBuilder {
  import opened Wrappers
  import opened Strings
  import Placeholders

  /** The parts of a component template the builder reads. */
  datatype Template = Template(htmlTemplate: string, cssTemplate: string)

  /** A placed component: its template, when joined in, and its custom
      content (string values only). */
  datatype PlacedComponent = PlacedComponent(template: Option<Template>, customContent: Option<map<string, string>>)

  /** What `RenderedComponent` puts on the page: a style block and the markup. */
  datatype Rendered = Rendered(css: string, html: string)

  /** `RenderedComponent`: nothing without a template; otherwise the template's
      styles verbatim and its markup with the custom content filled in. */
  function RenderComponent(c: PlacedComponent): (r: Option<Rendered>)
    ensures r.None? <==> c.template.None?
    ensures r.Some? ==> r.value.css == c.template.value.cssTemplate
    ensures r.Some? && c.customContent.None? ==> r.value.html == c.template.value.htmlTemplate
    ensures r.Some? && c.customContent.Some? ==>
      r.value.html == Placeholders.Substitute(c.template.value.htmlTemplate, c.customContent.value)
  {
    match c.template
    case None => None
    case Some(t) =>
      var variables := if c.customContent.Some? then c.customContent.value else map[];
      Placeholders.SubstituteNoBindings(t.htmlTemplate);
      Some(Rendered(t.cssTemplate, Placeholders.Substitute(t.htmlTemplate, variables)))
  }

  /** A leading placeholder whose key has a non-empty custom value shows the
      value; one whose key is missing or empty stays in the markup verbatim. */
  lemma RenderLeadingHole(inner: string, rest: string, t: Template, content: map<string, string>)
    requires inner != [] && '}' !in inner
    requires t.htmlTemplate == "{{" + inner + "}}" + rest
    ensures var r := RenderComponent(PlacedComponent(Some(t), Some(content)));
      && r.Some?
      && (Placeholders.Bound(content, inner) ==> StartsWith(r.value.html, content[Trim(inner)]))
      && (!Placeholders.Bound(content, inner) ==> StartsWith(r.value.html, "{{" + inner + "}}"))
  {
    if Placeholders.Bound(content, inner) {
      Placeholders.SubstituteBoundHole(inner, rest, content);
      StartsWithConcat(content[Trim(inner)], Placeholders.Substitute(rest, content));
    } else {
      Placeholders.SubstituteUnboundHole(inner, rest, content);
      StartsWithConcat("{{" + inner + "}}", Placeholders.Substitute(rest, content));
    }
  }

  /** A placeholder after markup without `{`: the markup before it is kept,
      a non-empty custom value replaces it (a missing or empty one keeps it
      verbatim), and the markup after it is filled on its own. */
  lemma RenderHoleAfterText(text: string, inner: string, rest: string, t: Template, content: map<string, string>)
    requires '{' !in text && inner != [] && '}' !in inner
    requires t.htmlTemplate == text + "{{" + inner + "}}" + rest
    ensures var r := RenderComponent(PlacedComponent(Some(t), Some(content)));
      && r.Some?
      && (Placeholders.Bound(content, inner) ==>
            r.value.html == text + content[Trim(inner)] + Placeholders.Substitute(rest, content))
      && (!Placeholders.Bound(content, inner) ==>
            r.value.html == text + "{{" + inner + "}}" + Placeholders.Substitute(rest, content))
  {
    Placeholders.SubstituteHoleAfterText(text, inner, rest, content);
  }

  // ---------------------------------------------------------------------------
  // Loading
  // ---------------------------------------------------------------------------

  const LoadFailedMessage := "Failed to load website data"
  const NotFoundMessage := "Website not found"

  /** The page's state: loading flag, website, components and error. */
  datatype BuilderState<W, C> = BuilderState(loading: bool, website: Option<W>, components: seq<C>,
                                             error: Option<string>)

  /** The first render: loading, so the spinner shows, with nothing kept. */
  function Initial<W, C>(): (st: BuilderState<W, C>)
    ensures ViewOf(st) == Spinner
    ensures st.website.None? && st.components == [] && st.error.None?
  {
    BuilderState(true, None, [], None)
  }

  /** `loadData`: both requests must succeed for either result to be kept;
      any failure sets the error; loading ends in every case. */
  function LoadData<W, C>(st: BuilderState<W, C>, site: Result<W>, comps: Result<seq<C>>): (r: BuilderState<W, C>)
    ensures !r.loading
    ensures site.Success? && comps.Success? ==>
      r.website == Some(site.value) && r.components == comps.value && r.error == st.error
    ensures site.Failure? || comps.Failure? ==>
      r.error == Some(LoadFailedMessage) && r.website == st.website && r.components == st.components
  {
    if site.Success? && comps.Success? then st.(loading := false, website := Some(site.value), components := comps.value)
    else st.(loading := false, error := Some(LoadFailedMessage))
  }

  /** What the page shows. */
  datatype View<C> = Spinner | ErrorView(message: string) | NoComponents | Canvas(components: seq<C>)

  function ViewOf<W, C>(st: BuilderState<W, C>): (v: View<C>)
    ensures st.loading <==> v == Spinner
    ensures v.ErrorView? <==> !st.loading && (Truthy(st.error) || st.website.None?)
    ensures v.Canvas? ==> v.components == st.components && st.components != []
  {
    if st.loading then Spinner
    else if Truthy(st.error) || st.website.None? then ErrorView(OrElse(st.error, NotFoundMessage))
    else if st.components == [] then NoComponents
    else Canvas(st.components)
  }

  /** From the first load, a failure of either request always ends on the
      error view with the load-failure message. */
  lemma FailedLoadShowsError<W, C>(site: Result<W>, comps: Result<seq<C>>)
    requires site.Failure? || comps.Failure?
    ensures ViewOf(LoadData(Initial<W, C>(), site, comps)) == ErrorView(LoadFailedMessage)
  {
  }

  /** From the first load, success shows the components (or the empty canvas). */
  lemma LoadedShowsComponents<W, C>(site: W, comps: seq<C>)
    ensures var v := ViewOf(LoadData(Initial<W, C>(), Success(site), Success(comps)));
      (comps == [] ==> v == NoComponents) && (comps != [] ==> v == Canvas(comps))
  {
  }
}
