/** The `{{name}}` template language: locating placeholders with the pattern
    `\{\{([^}]+)\}\}` (global, left to right), deriving variable names and
    human labels from them, and substituting bound values in one pass. */
module Placeholders {
  import opened Wrappers
  import opened Strings
  import opened Collections
  import opened VarTables

  /** A template read left to right: a literal character, or a placeholder
      `{{inner}}` keeping its raw inner text (non-empty, without `}`). */
  datatype Piece = Lit(c: char) | Hole(inner: string)

  /** Index of the first `}` at or after `j`, or `|s|` if there is none. */
  function NextClose(s: string, j: nat): (k: nat)
    requires j <= |s|
    ensures j <= k <= |s|
    ensures k < |s| ==> s[k] == '}'
    ensures forall i :: j <= i < k ==> s[i] != '}'
    decreases |s| - j
  {
    if j == |s| || s[j] == '}' then j else NextClose(s, j + 1)
  }

  /** If a placeholder match starts at the front of `s`, the index where its
      inner text ends (the closing `}}` follows). The inner run `[^}]+` stops
      at the first `}`, so a match exists exactly when that `}` is not the
      first inner character and is doubled. */
  function HoleEnd(s: string): (r: Option<nat>)
    ensures r.Some? ==> 2 < r.value && r.value + 2 <= |s|
  {
    if |s| >= 2 && s[0] == '{' && s[1] == '{' then
      var k := NextClose(s, 2);
      if k > 2 && k + 1 < |s| && s[k + 1] == '}' then Some(k) else None
    else None
  }

  predicate WellFormedPiece(p: Piece) {
    p.Hole? ==> p.inner != [] && '}' !in p.inner
  }

  /** The template read left to right into literal characters and
      placeholders; every placeholder read has a non-empty inner text
      without `}`. */
  function Tokenize(s: string): (ps: seq<Piece>)
    ensures forall i :: 0 <= i < |ps| ==> WellFormedPiece(ps[i])
    decreases |s|
  {
    if s == [] then []
    else
      match HoleEnd(s)
      case Some(k) => [Hole(s[2..k])] + Tokenize(s[k + 2..])
      case None => [Lit(s[0])] + Tokenize(s[1..])
  }

  /** The text a piece was read from. */
  function PieceText(p: Piece): string {
    match p
    case Lit(c) => [c]
    case Hole(inner) => "{{" + inner + "}}"
  }

  function Flatten(ps: seq<Piece>): string {
    if ps == [] then "" else PieceText(ps[0]) + Flatten(ps[1..])
  }

  lemma FlattenCons(p: Piece, ps: seq<Piece>)
    ensures Flatten([p] + ps) == PieceText(p) + Flatten(ps)
  {
    assert ([p] + ps)[1..] == ps;
  }

  lemma SplitAtHole(s: string, k: nat)
    requires HoleEnd(s) == Some(k)
    ensures s == "{{" + s[2..k] + "}}" + s[k + 2..]
  {
    assert s[k] == '}';
    assert s[..2] == "{{" && s[k..k + 2] == "}}";
    assert s == s[..2] + s[2..k] + s[k..k + 2] + s[k + 2..];
  }

  /** Reading a template into pieces loses nothing. */
  lemma {:induction false} TokenizeRoundTrip(s: string)
    ensures Flatten(Tokenize(s)) == s
    decreases |s|
  {
    if s != [] {
      match HoleEnd(s)
      case Some(k) =>
        TokenizeRoundTrip(s[k + 2..]);
        FlattenCons(Hole(s[2..k]), Tokenize(s[k + 2..]));
        SplitAtHole(s, k);
      case None =>
        TokenizeRoundTrip(s[1..]);
        FlattenCons(Lit(s[0]), Tokenize(s[1..]));
        assert s == [s[0]] + s[1..];
    }
  }

  /** A template that begins with a well-formed placeholder is read as that
      placeholder followed by the rest. */
  lemma LeadingHole(inner: string, rest: string)
    requires inner != [] && '}' !in inner
    ensures Tokenize("{{" + inner + "}}" + rest) == [Hole(inner)] + Tokenize(rest)
  {
    var s := "{{" + inner + "}}" + rest;
    var k := |inner| + 2;
    assert s[k] == '}';
    assert forall i :: 2 <= i < k ==> s[i] == inner[i - 2];
    assert NextClose(s, 2) == k;
    assert s[2..k] == inner;
    assert s[k + 2..] == rest;
  }

  // ---------------------------------------------------------------------------
  // Substitution (LivePreview.tsx, SiteBuilder.tsx)
  // ---------------------------------------------------------------------------

  /** The lookup key of a placeholder: its inner text, trimmed. */
  function Key(inner: string): string {
    Trim(inner)
  }

  /** `bindings[key.trim()] || match`: a bound, non-empty value replaces the
      placeholder; an absent key or an empty value keeps it verbatim. */
  function Fill(p: Piece, bindings: map<string, string>): (r: string)
    ensures p.Hole? && Key(p.inner) in bindings && bindings[Key(p.inner)] != "" ==>
      r == bindings[Key(p.inner)]
    ensures p.Hole? && (Key(p.inner) !in bindings || bindings[Key(p.inner)] == "") ==>
      r == PieceText(p)
    ensures p.Lit? ==> r == [p.c]
  {
    match p
    case Lit(c) => [c]
    case Hole(inner) =>
      if Key(inner) in bindings && bindings[Key(inner)] != "" then bindings[Key(inner)]
      else PieceText(p)
  }

  function FillAll(ps: seq<Piece>, bindings: map<string, string>): string {
    if ps == [] then "" else Fill(ps[0], bindings) + FillAll(ps[1..], bindings)
  }

  /** A binding is in force for a placeholder when its trimmed key maps to a
      non-empty value. */
  predicate Bound(bindings: map<string, string>, inner: string) {
    Key(inner) in bindings && bindings[Key(inner)] != ""
  }

  /** `html.replace(/\{\{([^}]+)\}\}/g, (match, key) => bindings[key.trim()] || match)`.
      When no placeholder of the template is bound (in particular, with no
      bindings at all) the output is the input. */
  function Substitute(html: string, bindings: map<string, string>): (r: string)
    ensures (forall p :: p in Tokenize(html) && p.Hole? ==> !Bound(bindings, p.inner)) ==> r == html
  {
    UnboundKeepsTemplate(html, bindings);
    FillAll(Tokenize(html), bindings)
  }

  lemma {:induction false} FillAllUnbound(ps: seq<Piece>, bindings: map<string, string>)
    requires forall i :: 0 <= i < |ps| && ps[i].Hole? ==> !Bound(bindings, ps[i].inner)
    ensures FillAll(ps, bindings) == Flatten(ps)
  {
    if ps != [] {
      FillAllUnbound(ps[1..], bindings);
    }
  }

  lemma UnboundKeepsTemplate(html: string, bindings: map<string, string>)
    ensures (forall p :: p in Tokenize(html) && p.Hole? ==> !Bound(bindings, p.inner)) ==>
      FillAll(Tokenize(html), bindings) == html
  {
    var ps := Tokenize(html);
    if forall p :: p in ps && p.Hole? ==> !Bound(bindings, p.inner) {
      assert forall i :: 0 <= i < |ps| ==> ps[i] in ps;
      FillAllUnbound(ps, bindings);
      TokenizeRoundTrip(html);
    }
  }

  lemma SubstituteNoBindings(html: string)
    ensures Substitute(html, map[]) == html
  {
  }

  /** A leading placeholder whose key is bound is replaced by the value
      exactly as given: the value is not scanned again, even if it contains
      `{{…}}` itself; the rest of the template is substituted on its own. */
  lemma SubstituteBoundHole(inner: string, rest: string, bindings: map<string, string>)
    requires inner != [] && '}' !in inner
    requires Bound(bindings, inner)
    ensures Substitute("{{" + inner + "}}" + rest, bindings)
         == bindings[Trim(inner)] + Substitute(rest, bindings)
  {
    LeadingHole(inner, rest);
    var ps := [Hole(inner)] + Tokenize(rest);
    assert ps[1..] == Tokenize(rest);
  }

  /** A leading placeholder whose key is absent or bound to `''` stays verbatim. */
  lemma SubstituteUnboundHole(inner: string, rest: string, bindings: map<string, string>)
    requires inner != [] && '}' !in inner
    requires !Bound(bindings, inner)
    ensures Substitute("{{" + inner + "}}" + rest, bindings)
         == "{{" + inner + "}}" + Substitute(rest, bindings)
  {
    LeadingHole(inner, rest);
    var ps := [Hole(inner)] + Tokenize(rest);
    assert ps[1..] == Tokenize(rest);
  }

  /** A template that does not open with a placeholder keeps its first
      character, and the search resumes at the next one. */
  lemma SubstituteLiteral(s: string, bindings: map<string, string>)
    requires s != [] && HoleEnd(s).None?
    ensures Substitute(s, bindings) == [s[0]] + Substitute(s[1..], bindings)
  {
    FillLiteral(s, bindings);
  }

  lemma FillLiteral(s: string, bindings: map<string, string>)
    requires s != [] && HoleEnd(s).None?
    ensures FillAll(Tokenize(s), bindings) == [s[0]] + FillAll(Tokenize(s[1..]), bindings)
  {
    var ps := Tokenize(s);
    assert ps == [Lit(s[0])] + Tokenize(s[1..]);
    assert ps[1..] == Tokenize(s[1..]);
  }

  /** A template that opens with a placeholder gives its filling, and the
      search resumes after the closing `}}`. With `SubstituteLiteral` this
      fixes the result on every template, one step at a time. */
  lemma SubstituteHoleAt(s: string, k: nat, bindings: map<string, string>)
    requires HoleEnd(s) == Some(k)
    ensures Substitute(s, bindings) == Fill(Hole(s[2..k]), bindings) + Substitute(s[k + 2..], bindings)
  {
    FillHoleAt(s, k, bindings);
  }

  lemma FillHoleAt(s: string, k: nat, bindings: map<string, string>)
    requires HoleEnd(s) == Some(k)
    ensures FillAll(Tokenize(s), bindings) == Fill(Hole(s[2..k]), bindings) + FillAll(Tokenize(s[k + 2..]), bindings)
  {
    var ps := Tokenize(s);
    assert ps == [Hole(s[2..k])] + Tokenize(s[k + 2..]);
    assert ps[1..] == Tokenize(s[k + 2..]);
  }

  /** Text without `{` before a template is copied unchanged, and the
      template after it is substituted as if it stood alone. */
  lemma SubstituteAfterText(text: string, rest: string, bindings: map<string, string>)
    requires '{' !in text
    ensures Substitute(text + rest, bindings) == text + Substitute(rest, bindings)
  {
    FillAfterText(text, rest, bindings);
  }

  lemma {:induction false} FillAfterText(text: string, rest: string, bindings: map<string, string>)
    requires '{' !in text
    ensures FillAll(Tokenize(text + rest), bindings) == text + FillAll(Tokenize(rest), bindings)
    decreases |text|
  {
    if text == [] {
      assert text + rest == rest;
    } else {
      TailWithoutBrace(text);
      FillAfterText(text[1..], rest, bindings);
      FillAfterTextStep(text, rest, bindings);
    }
  }

  /** One character of text: the induction step of `FillAfterText`. */
  lemma FillAfterTextStep(text: string, rest: string, bindings: map<string, string>)
    requires text != [] && text[0] != '{'
    requires FillAll(Tokenize(text[1..] + rest), bindings) == text[1..] + FillAll(Tokenize(rest), bindings)
    ensures FillAll(Tokenize(text + rest), bindings) == text + FillAll(Tokenize(rest), bindings)
  {
    var s := text + rest;
    TailOfConcat(text, rest);
    NoBraceNoHole(s);
    FillLiteral(s, bindings);
    ConsConcat(text, FillAll(Tokenize(rest), bindings));
  }

  lemma TailWithoutBrace(text: string)
    requires text != [] && '{' !in text
    ensures '{' !in text[1..]
  {
    forall i | 0 <= i < |text| - 1 ensures text[1..][i] != '{' {
      assert text[1..][i] == text[i + 1];
    }
  }

  lemma ConsConcat(text: string, r: string)
    requires text != []
    ensures [text[0]] + (text[1..] + r) == text + r
  {
    assert text == [text[0]] + text[1..];
  }

  /** No placeholder opens where the text does not start with `{`. */
  lemma NoBraceNoHole(s: string)
    requires s != [] && s[0] != '{'
    ensures HoleEnd(s).None?
  {
  }

  /** A placeholder anywhere after text without `{`: a non-empty value
      replaces it, otherwise it stays verbatim; what precedes it is kept and
      what follows is substituted on its own. */
  lemma SubstituteHoleAfterText(text: string, inner: string, rest: string, bindings: map<string, string>)
    requires '{' !in text && inner != [] && '}' !in inner
    ensures Bound(bindings, inner) ==>
      Substitute(text + "{{" + inner + "}}" + rest, bindings)
        == text + bindings[Trim(inner)] + Substitute(rest, bindings)
    ensures !Bound(bindings, inner) ==>
      Substitute(text + "{{" + inner + "}}" + rest, bindings)
        == text + "{{" + inner + "}}" + Substitute(rest, bindings)
  {
    var hole := "{{" + inner + "}}" + rest;
    HoleAfterText(text, inner, rest);
    SubstituteAfterText(text, hole, bindings);
    var r := Substitute(rest, bindings);
    if Bound(bindings, inner) {
      SubstituteBoundHole(inner, rest, bindings);
      ConcatAssoc(text, bindings[Trim(inner)], r);
    } else {
      SubstituteUnboundHole(inner, rest, bindings);
      HoleAfterText(text, inner, r);
    }
  }

  lemma HoleAfterText(text: string, inner: string, rest: string)
    ensures text + "{{" + inner + "}}" + rest == text + ("{{" + inner + "}}" + rest)
  {
  }

  /** The common case of one placeholder inside markup without other braces,
      such as `<h1>{{title}}</h1>`: the value takes its place. */
  lemma SubstituteInMarkup(open: string, inner: string, close: string, bindings: map<string, string>)
    requires '{' !in open && '{' !in close && inner != [] && '}' !in inner
    requires Bound(bindings, inner)
    ensures Substitute(open + "{{" + inner + "}}" + close, bindings) == open + bindings[Trim(inner)] + close
  {
    SubstituteHoleAfterText(open, inner, close, bindings);
    SubstituteAfterText(close, "", bindings);
    assert close + "" == close;
    assert Substitute("", bindings) == "";
  }

  // ---------------------------------------------------------------------------
  // Detection (componentParser.ts autoDetectVariables, ComponentBuilder.tsx)
  // ---------------------------------------------------------------------------

  /** `s.replace(/\{\{|\}\}/g, '')` on the inner text of a match: the opening
      `{{` and every later non-overlapping `{{` are removed (the inner text
      holds no `}`, so the only `}}` is the closing one). */
  function DropOpenPairs(s: string): (r: string)
    ensures forall c :: c in r ==> c in s
    decreases |s|
  {
    if |s| >= 2 && s[0] == '{' && s[1] == '{' then DropOpenPairs(s[2..])
    else if s == [] then []
    else [s[0]] + DropOpenPairs(s[1..])
  }

  /** The variable name a detector derives from one placeholder match. */
  function NameOf(inner: string): string {
    Trim(DropOpenPairs(inner))
  }

  function HoleNames(ps: seq<Piece>): (names: seq<string>)
    ensures |names| <= |ps|
  {
    if ps == [] then []
    else if ps[0].Hole? then [NameOf(ps[0].inner)] + HoleNames(ps[1..])
    else HoleNames(ps[1..])
  }

  /** The distinct variable names of a template: exactly the names of its
      placeholders, each once, ordered by first occurrence. */
  function DetectNames(html: string): (names: seq<string>)
    ensures NoDup(names)
    ensures forall n :: n in names <==> n in HoleNames(Tokenize(html))
    ensures forall i, j :: 0 <= i < j < |names| ==>
      FirstIndex(HoleNames(Tokenize(html)), names[i]) < FirstIndex(HoleNames(Tokenize(html)), names[j])
  {
    var all := HoleNames(Tokenize(html));
    DedupNoDup(all);
    DedupMembers(all);
    DedupOrder(all);
    Dedup(all)
  }

  lemma {:induction false} NoOpenPairNoHoles(s: string)
    requires !Contains(s, "{{")
    ensures forall p :: p in Tokenize(s) ==> p.Lit?
    decreases |s|
  {
    if s != [] {
      assert !StartsWith(s, "{{");
      assert HoleEnd(s).None?;
      NoOpenPairNoHoles(s[1..]);
    }
  }

  lemma {:induction false} NoHolesNoNames(ps: seq<Piece>)
    requires forall p :: p in ps ==> p.Lit?
    ensures HoleNames(ps) == []
  {
    if ps != [] {
      assert ps[0] in ps;
      assert forall p :: p in ps[1..] ==> p in ps;
      NoHolesNoNames(ps[1..]);
    }
  }

  /** Text without `{{` has no variables. */
  lemma NoPlaceholderNoNames(html: string)
    requires !Contains(html, "{{")
    ensures DetectNames(html) == []
  {
    NoOpenPairNoHoles(html);
    NoHolesNoNames(Tokenize(html));
  }

  // ---------------------------------------------------------------------------
  // Labels
  // ---------------------------------------------------------------------------

  /** `.replace(/([A-Z])/g, ' $1')`: a space before every capital. */
  function SpaceBeforeCapitals(s: string): (r: string)
    ensures forall c :: c in r ==> c in s || c == ' '
  {
    if s == [] then []
    else (if IsUpper(s[0]) then [' ', s[0]] else [s[0]]) + SpaceBeforeCapitals(s[1..])
  }

  /** `.replace(/_/g, ' ')`. */
  function UnderscoresToSpaces(s: string): (r: string)
    ensures |r| == |s|
    ensures '_' !in r
    ensures forall i :: 0 <= i < |s| ==> r[i] == (if s[i] == '_' then ' ' else s[i])
  {
    if s == [] then []
    else [if s[0] == '_' then ' ' else s[0]] + UnderscoresToSpaces(s[1..])
  }

  /** `.replace(/^./, c => c.toUpperCase())` on a trimmed string (whose first
      character, if any, is not a line terminator). */
  function CapitalizeFirst(s: string): (r: string)
    ensures |r| == |s|
    ensures s != [] ==> r[0] == UpperChar(s[0]) && r[1..] == s[1..]
  {
    if s == [] then [] else [UpperChar(s[0])] + s[1..]
  }

  /** The human label of a variable name: `firstName` becomes `First name`,
      `hero_title` becomes `Hero title`. */
  function Label(name: string): string {
    CapitalizeFirst(Lower(Trim(UnderscoresToSpaces(SpaceBeforeCapitals(name)))))
  }

  lemma LowerKeepsSpace(c: char)
    ensures IsSpace(LowerChar(c)) <==> IsSpace(c)
  {
  }

  lemma UpperKeepsSpace(c: char)
    ensures IsSpace(UpperChar(c)) <==> IsSpace(c)
  {
  }

  lemma LowerShape(t: string)
    requires '_' !in t
    requires t == [] || (!IsSpace(t[0]) && !IsSpace(t[|t| - 1]))
    ensures '_' !in Lower(t)
    ensures Lower(t) == [] || (!IsSpace(Lower(t)[0]) && !IsSpace(Lower(t)[|t| - 1]))
    ensures forall i :: 0 <= i < |t| ==> !IsUpper(Lower(t)[i])
  {
    var l := Lower(t);
    forall i | 0 <= i < |l| ensures l[i] != '_' {
      assert t[i] in t;
    }
    if t != [] {
      LowerKeepsSpace(t[0]);
      LowerKeepsSpace(t[|t| - 1]);
    }
  }

  /** A label has no underscore, no white space at either end, and no capital
      after its first character. */
  lemma LabelShape(name: string)
    ensures '_' !in Label(name)
    ensures Label(name) == [] || (!IsSpace(Label(name)[0]) && !IsSpace(Label(name)[|Label(name)| - 1]))
    ensures forall i :: 1 <= i < |Label(name)| ==> !IsUpper(Label(name)[i])
  {
    var u := UnderscoresToSpaces(SpaceBeforeCapitals(name));
    var t := Trim(u);
    assert '_' !in t;
    LowerShape(t);
    var l := Lower(t);
    var r := CapitalizeFirst(l);
    assert r == Label(name);
    if l != [] {
      UpperKeepsSpace(l[0]);
      assert r[0] == UpperChar(l[0]);
      assert forall i :: 1 <= i < |r| ==> r[i] == l[i];
      assert UpperChar(l[0]) != '_';
    }
  }

  lemma {:induction false} SpacedConcat(a: string, b: string)
    ensures SpaceBeforeCapitals(a + b) == SpaceBeforeCapitals(a) + SpaceBeforeCapitals(b)
  {
    if a != [] {
      assert (a + b)[1..] == a[1..] + b;
      assert (a + b)[0] == a[0];
      SpacedConcat(a[1..], b);
    } else {
      assert a + b == b;
    }
  }

  lemma {:induction false} SpacedNoCapitals(s: string)
    requires forall i :: 0 <= i < |s| ==> !IsUpper(s[i])
    ensures SpaceBeforeCapitals(s) == s
  {
    if s != [] {
      SpacedNoCapitals(s[1..]);
    }
  }

  /** `autoDetectVariables(html)`: each distinct placeholder name, in
      first-occurrence order, mapped to its label. */
  function DetectVariables(html: string): (t: VarTable)
    ensures t.Valid()
    ensures t.keys == DetectNames(html)
    ensures forall k :: k in t.values ==> t.values[k] == Label(k)
  {
    FromKeys(DetectNames(html), Label)
  }
}
