/** The admin live preview (`src/components/admin/LivePreview.tsx`): the
    template's placeholders are filled from the test values and the result is
    written, under a base reset and the component's styles, into an iframe. */
module LivePreview {
  import opened Wrappers
  import opened Strings
  import Placeholders

  /** The document text up to the component's styles: doctype, head and the
      opening of the one style block with its base reset. */
  const DocumentHead :=
    "\n            <!DOCTYPE html>\n            <html>\n                <head>\n                    <style>\n"
    + "                        /* Base reset */\n"
    + "                        body { margin: 0; font-family: sans-serif; }\n"
    + "                        * { box-sizing: border-box; }\n"
    + "                        "

  /** Between the styles and the markup: the style block closes and the body opens. */
  const DocumentMiddle :=
    "\n                    </style>\n                </head>\n                <body>\n                    "

  const DocumentTail := "\n                </body>\n            </html>\n        "

  /** The text written into the frame for the given styles and filled markup. */
  function Document(css: string, body: string): string {
    DocumentHead + (css + (DocumentMiddle + (body + DocumentTail)))
  }

  /** Where the markup sits in a document whose styles are `cssLength` long. */
  function BodyStart(cssLength: nat): nat {
    |DocumentHead| + cssLength + |DocumentMiddle|
  }

  /** `d` is the document of `css` and `body`, read part by part. */
  predicate Laid(d: string, css: string, body: string) {
    && OccursAt(d, DocumentHead, 0)
    && OccursAt(d, css, |DocumentHead|)
    && OccursAt(d, DocumentMiddle, |DocumentHead| + |css|)
    && OccursAt(d, body, BodyStart(|css|))
    && d[BodyStart(|css|) + |body|..] == DocumentTail
  }

  lemma FiveParts(a: string, b: string, c: string, d: string, e: string)
    ensures var s := a + (b + (c + (d + e)));
      && OccursAt(s, a, 0) && OccursAt(s, b, |a|) && OccursAt(s, c, |a| + |b|)
      && OccursAt(s, d, |a| + |b| + |c|) && s[|a| + |b| + |c| + |d|..] == e
  {
    var s := a + (b + (c + (d + e)));
    assert s[|a|..] == b + (c + (d + e));
    assert s[|a| + |b|..] == c + (d + e);
    assert s[|a| + |b| + |c|..] == d + e;
  }

  /** The styles and the markup can be read back from the document: each is
      placed exactly once, between the fixed parts. */
  lemma DocumentParts(css: string, body: string)
    ensures Laid(Document(css, body), css, body)
  {
    FiveParts(DocumentHead, css, DocumentMiddle, body, DocumentTail);
  }

  /** A document determines the styles and markup it was made from (given the
      length of the styles): the layout can be parsed back. */
  lemma LaidUnique(d: string, css1: string, body1: string, css2: string, body2: string)
    requires |css1| == |css2| && Laid(d, css1, body1) && Laid(d, css2, body2)
    ensures css1 == css2 && body1 == body2
  {
    var k := BodyStart(|css1|);
    assert |d[k + |body1|..]| == |d[k + |body2|..]|;
  }

  /** Two documents are equal exactly when their styles and markup are. */
  lemma DocumentInjective(css1: string, body1: string, css2: string, body2: string)
    requires |css1| == |css2|
    ensures Document(css1, body1) == Document(css2, body2) <==> css1 == css2 && body1 == body2
  {
    DocumentParts(css1, body1);
    DocumentParts(css2, body2);
    if Document(css1, body1) == Document(css2, body2) {
      LaidUnique(Document(css1, body1), css1, body1, css2, body2);
    }
  }

  /** What the preview finds when its effect runs. */
  datatype Frame = NoFrame | NoDocument | Ready

  /** `processedHtml`: the template with its bound placeholders filled. */
  function ProcessedHtml(html: string, variables: map<string, string>): (r: string)
    ensures variables == map[] ==> r == html
  {
    Placeholders.SubstituteNoBindings(html);
    Placeholders.Substitute(html, variables)
  }

  /** The effect: nothing is written without a frame and its document;
      otherwise the document holds the styles and the filled markup. */
  function Render(frame: Frame, html: string, css: string, variables: map<string, string>): (r: Option<string>)
    ensures r.None? <==> frame != Ready
    ensures r.Some? ==> Laid(r.value, css, ProcessedHtml(html, variables))
  {
    if frame != Ready then None
    else
      DocumentParts(css, ProcessedHtml(html, variables));
      Some(Document(css, ProcessedHtml(html, variables)))
  }

  /** A template whose leading placeholder has a test value shows that value
      at the start of the body, and the value is not expanded again. */
  lemma RenderFillsLeadingHole(inner: string, rest: string, css: string, variables: map<string, string>)
    requires inner != [] && '}' !in inner
    requires Placeholders.Bound(variables, inner)
    ensures var r := Render(Ready, "{{" + inner + "}}" + rest, css, variables);
      r.Some? && OccursAt(r.value, variables[Trim(inner)], BodyStart(|css|))
  {
    var html := "{{" + inner + "}}" + rest;
    var v := variables[Trim(inner)];
    Placeholders.SubstituteBoundHole(inner, rest, variables);
    var body := ProcessedHtml(html, variables);
    assert body == v + Placeholders.Substitute(rest, variables);
    var d := Render(Ready, html, css, variables).value;
    assert body[..|v|] == v;
    OccursInPrefix(d, body, v, BodyStart(|css|));
  }

  /** A placeholder after markup without `{` (`<h1>{{title}}</h1>`, say) that
      has a test value shows the markup before it followed by the value,
      where the body starts. */
  lemma RenderFillsHoleAfterText(text: string, inner: string, rest: string, css: string,
                                 variables: map<string, string>)
    requires '{' !in text && inner != [] && '}' !in inner
    requires Placeholders.Bound(variables, inner)
    ensures var r := Render(Ready, text + "{{" + inner + "}}" + rest, css, variables);
      r.Some? && OccursAt(r.value, text + variables[Trim(inner)], BodyStart(|css|))
  {
    var html := text + "{{" + inner + "}}" + rest;
    var shown := text + variables[Trim(inner)];
    Placeholders.SubstituteHoleAfterText(text, inner, rest, variables);
    var body := ProcessedHtml(html, variables);
    assert body == shown + Placeholders.Substitute(rest, variables);
    var d := Render(Ready, html, css, variables).value;
    assert body[..|shown|] == shown;
    OccursInPrefix(d, body, shown, BodyStart(|css|));
  }

  /** A prefix of what occurs at `k` occurs at `k` too. */
  lemma OccursInPrefix(d: string, body: string, v: string, k: int)
    requires OccursAt(d, body, k) && |v| <= |body| && body[..|v|] == v
    ensures OccursAt(d, v, k)
  {
    assert d[k..k + |v|] == d[k..k + |body|][..|v|];
  }
}
