/** Global regular-expression replacement (`s.replace(/…/g, …)`) for the fixed
    set of patterns the two JSX-to-HTML converters use. Each pattern is a
    hand-written recogniser that says whether a match starts at the front of
    a string, how long it is, and what replaces it; `ReplaceAll` then scans
    left to right the way a global replace does, resuming after each match.
    Every pattern here matches only non-empty text. */
module JsxRewrite {
  import opened Wrappers
  import opened Strings

  datatype Match = Match(len: nat, out: string)

  datatype Rule =
    | Literal(pat: string, rep: string)
      /** `/<motion\.(\w+)/g` → `<$1` */
    | MotionOpen
      /** `/<\/motion\.(\w+)/g` → `</$1` */
    | MotionClose
      /** `/<AnimatePresence[^>]*>/g` → `` */
    | PresenceOpen
      /** `/<(\w+)([^>]*)\s*\/>/g` → `<$1$2></$1>` */
    | SelfClosing
      /** ``/\{\`([^`]+)\`\}/g`` → `$1` */
    | TemplateLiteral
      /** `/\{(['"])([^'"]+)\1\}/g` → `$2` */
    | StringLiteral
      /** `/<(\w+)\s+[\w\s]*:\s*[\w<>[\]|]+\s*=/g` → `<$1 ` */
    | TypeAnnotation
      /** `/\s+on[A-Z]\w*=\{[^}]+\}/g` → `` */
    | EventHandler
      /** `/\s+ref=\{[^}]+\}/g` → `` */
    | RefAttribute
      /** `/\{currentSlideData\.(\w+)\}/g` → `{{$1}}` */
    | SlideField
      /** `/\{(\w+)\.(\w+)\}/g` → `{{$1_$2}}` */
    | MemberAccess
      /** `/\{(\w+)\}/g` → `{{$1}}` */
    | SimpleExpr
      /** `/\s+/g` → ` ` */
    | Whitespace
      /** `/\{[\s\S]*?\}/g` with a callback that turns a match mentioning
          `currentSlideData` into `{{…}}` and leaves any other match alone. */
    | SlideExpression

  predicate NotClose(c: char) { c != '}' }
  predicate NotGreater(c: char) { c != '>' }
  predicate NotBacktick(c: char) { c != '`' }
  predicate NotQuote(c: char) { c != '\'' && c != '"' }
  predicate IsTypeChar(c: char) { IsWordChar(c) || c == '<' || c == '>' || c == '[' || c == ']' || c == '|' }
  predicate IsWordOrSpace(c: char) { IsWordChar(c) || IsSpace(c) }

  /** The longest non-empty run of word characters at `j`, if there is one. */
  function WordAt(s: string, j: nat): (r: Option<nat>)
    requires j <= |s|
    ensures r.Some? ==> j < r.value <= |s| && (forall i :: j <= i < r.value ==> IsWordChar(s[i]))
    ensures r.Some? ==> r.value == |s| || !IsWordChar(s[r.value])
  {
    var k := SpanEnd(s, j, IsWordChar);
    if k > j then Some(k) else None
  }

  /** `{` + a non-empty run without `}` + `}` starting at `j`: the index just
      after the closing brace. */
  function BracedAt(s: string, j: nat): (r: Option<nat>)
    requires j <= |s|
    ensures r.Some? ==> j + 2 < r.value <= |s| && s[r.value - 1] == '}'
  {
    if j < |s| && s[j] == '{' then
      var k := SpanEnd(s, j + 1, NotClose);
      if k > j + 1 && k < |s| then Some(k + 1) else None
    else None
  }

  function MatchMotion(s: string, prefix: string, open: string): (r: Option<Match>)
    requires |prefix| > 0
    ensures r.Some? ==> 0 < r.value.len <= |s|
  {
    if StartsWith(s, prefix) then
      match WordAt(s, |prefix|)
      case Some(k) => Some(Match(k, open + s[|prefix|..k]))
      case None => None
    else None
  }

  function MatchSelfClosing(s: string): (r: Option<Match>)
    ensures r.Some? ==> 0 < r.value.len <= |s|
  {
    if StartsWith(s, "<") then
      match WordAt(s, 1)
      case Some(w) =>
        var g := SpanEnd(s, w, NotGreater);
        if g < |s| && w < g && s[g - 1] == '/' then
          var tag := s[1..w];
          Some(Match(g + 1, "<" + tag + s[w..g - 1] + "></" + tag + ">"))
        else None
      case None => None
    else None
  }

  function MatchTemplateLiteral(s: string): (r: Option<Match>)
    ensures r.Some? ==> 0 < r.value.len <= |s|
  {
    if StartsWith(s, "{`") then
      var k := SpanEnd(s, 2, NotBacktick);
      if k > 2 && k + 1 < |s| && s[k + 1] == '}' then Some(Match(k + 2, s[2..k])) else None
    else None
  }

  function MatchStringLiteral(s: string): (r: Option<Match>)
    ensures r.Some? ==> 0 < r.value.len <= |s|
  {
    if |s| >= 2 && s[0] == '{' && !NotQuote(s[1]) then
      var k := SpanEnd(s, 2, NotQuote);
      if k > 2 && k + 1 < |s| && s[k] == s[1] && s[k + 1] == '}' then Some(Match(k + 2, s[2..k])) else None
    else None
  }

  function MatchTypeAnnotation(s: string): (r: Option<Match>)
    ensures r.Some? ==> 0 < r.value.len <= |s|
  {
    if StartsWith(s, "<") then
      match WordAt(s, 1)
      case Some(w) =>
        var c := SpanEnd(s, w, IsWordOrSpace);
        if w < |s| && IsSpace(s[w]) && c < |s| && s[c] == ':' then
          var t0 := SpanEnd(s, c + 1, IsSpace);
          var t1 := SpanEnd(s, t0, IsTypeChar);
          var e := SpanEnd(s, t1, IsSpace);
          if t1 > t0 && e < |s| && s[e] == '=' then Some(Match(e + 1, "<" + s[1..w] + " ")) else None
        else None
      case None => None
    else None
  }

  /** White space, then `attr` (after which `rest` decides the remaining
      shape), then `={…}`: the handler and ref attribute patterns. */
  function MatchSpacedAttribute(s: string, isHandler: bool): (r: Option<Match>)
    ensures r.Some? ==> 0 < r.value.len <= |s|
  {
    if s != [] && IsSpace(s[0]) then
      var a := SpanEnd(s, 0, IsSpace);
      var nameEnd :=
        if isHandler then
          (if a + 2 < |s| && s[a..a + 2] == "on" && IsUpper(s[a + 2]) then Some(SpanEnd(s, a + 3, IsWordChar)) else None)
        else
          (if a + 3 <= |s| && s[a..a + 3] == "ref" then Some(a + 3) else None);
      match nameEnd
      case Some(e) =>
        if e < |s| && s[e] == '=' then
          match BracedAt(s, e + 1)
          case Some(k) => Some(Match(k, ""))
          case None => None
        else None
      case None => None
    else None
  }

  function MatchSlideField(s: string): (r: Option<Match>)
    ensures r.Some? ==> 0 < r.value.len <= |s|
  {
    var p := "{currentSlideData.";
    if StartsWith(s, p) then
      match WordAt(s, |p|)
      case Some(k) =>
        if k < |s| && s[k] == '}' then Some(Match(k + 1, "{{" + s[|p|..k] + "}}")) else None
      case None => None
    else None
  }

  function MatchMemberAccess(s: string): (r: Option<Match>)
    ensures r.Some? ==> 0 < r.value.len <= |s|
  {
    if StartsWith(s, "{") then
      match WordAt(s, 1)
      case Some(d) =>
        if d < |s| && s[d] == '.' then
          match WordAt(s, d + 1)
          case Some(k) =>
            if k < |s| && s[k] == '}' then
              Some(Match(k + 1, "{{" + s[1..d] + "_" + s[d + 1..k] + "}}"))
            else None
          case None => None
        else None
      case None => None
    else None
  }

  function MatchSimpleExpr(s: string): (r: Option<Match>)
    ensures r.Some? ==> 0 < r.value.len <= |s|
  {
    if StartsWith(s, "{") then
      match WordAt(s, 1)
      case Some(k) =>
        if k < |s| && s[k] == '}' then Some(Match(k + 1, "{{" + s[1..k] + "}}")) else None
      case None => None
    else None
  }

  function MatchSlideExpression(s: string): (r: Option<Match>)
    ensures r.Some? ==> 0 < r.value.len <= |s|
  {
    if StartsWith(s, "{") then
      var k := SpanEnd(s, 1, NotClose);
      if k < |s| then
        var m := s[..k + 1];
        Some(Match(k + 1, if Contains(m, "currentSlideData") then "{{" + Trim(s[1..k]) + "}}" else m))
      else None
    else None
  }

  /** The match of `rule` at the front of `s`, if any. */
  function MatchAt(rule: Rule, s: string): (r: Option<Match>)
    ensures r.Some? ==> 0 < r.value.len <= |s|
  {
    match rule
    case Literal(pat, rep) => if pat != [] && StartsWith(s, pat) then Some(Match(|pat|, rep)) else None
    case MotionOpen => MatchMotion(s, "<motion.", "<")
    case MotionClose => MatchMotion(s, "</motion.", "</")
    case PresenceOpen =>
      if StartsWith(s, "<AnimatePresence") then
        var g := SpanEnd(s, 16, NotGreater);
        if g < |s| then Some(Match(g + 1, "")) else None
      else None
    case SelfClosing => MatchSelfClosing(s)
    case TemplateLiteral => MatchTemplateLiteral(s)
    case StringLiteral => MatchStringLiteral(s)
    case TypeAnnotation => MatchTypeAnnotation(s)
    case EventHandler => MatchSpacedAttribute(s, true)
    case RefAttribute => MatchSpacedAttribute(s, false)
    case SlideField => MatchSlideField(s)
    case MemberAccess => MatchMemberAccess(s)
    case SimpleExpr => MatchSimpleExpr(s)
    case Whitespace =>
      if s != [] && IsSpace(s[0]) then Some(Match(SpanEnd(s, 0, IsSpace), " ")) else None
    case SlideExpression => MatchSlideExpression(s)
  }

  /** `s.replace(pattern, replacement)` with the global flag: scan left to
      right, replace each match, and resume just after it. */
  function ReplaceAll(rule: Rule, s: string): string
    decreases |s|
  {
    if s == [] then []
    else
      match MatchAt(rule, s)
      case Some(m) => m.out + ReplaceAll(rule, s[m.len..])
      case None => [s[0]] + ReplaceAll(rule, s[1..])
  }

  /** Several global replacements applied in order. */
  function ApplyAll(rules: seq<Rule>, s: string): string
    decreases |rules|
  {
    if rules == [] then s else ApplyAll(rules[1..], ReplaceAll(rules[0], s))
  }

  // ---------------------------------------------------------------------------
  // Properties of the scan
  // ---------------------------------------------------------------------------

  lemma ReplaceAllAtMatch(rule: Rule, s: string, m: Match)
    requires s != [] && MatchAt(rule, s) == Some(m)
    ensures ReplaceAll(rule, s) == m.out + ReplaceAll(rule, s[m.len..])
  {
  }

  lemma ReplaceAllNoMatchAt(rule: Rule, s: string)
    requires s != [] && MatchAt(rule, s).None?
    ensures ReplaceAll(rule, s) == [s[0]] + ReplaceAll(rule, s[1..])
  {
  }

  /** The patterns that can only match text starting with `{`. */
  predicate OpensWithBrace(rule: Rule) {
    rule.TemplateLiteral? || rule.StringLiteral? || rule.SlideField? || rule.MemberAccess?
      || rule.SimpleExpr? || rule.SlideExpression?
  }

  lemma BraceRuleMatch(rule: Rule, s: string)
    requires OpensWithBrace(rule)
    ensures MatchAt(rule, s).Some? ==> s != [] && s[0] == '{'
  {
  }

  /** Text without `{` is left alone by every brace pattern. */
  lemma BraceFree(rule: Rule, s: string)
    requires OpensWithBrace(rule) && '{' !in s
    ensures ReplaceAll(rule, s) == s
  {
    forall i | 0 <= i < |s| ensures MatchAt(rule, s[i..]).None? {
      BraceRuleMatch(rule, s[i..]);
      assert s[i..][0] == s[i] && s[i] in s;
    }
    ReplaceAllNoMatch(rule, s);
  }

  /** A pattern that matches nowhere leaves the text unchanged. */
  lemma {:induction false} ReplaceAllNoMatch(rule: Rule, s: string)
    requires forall i :: 0 <= i < |s| ==> MatchAt(rule, s[i..]).None?
    ensures ReplaceAll(rule, s) == s
    decreases |s|
  {
    if s != [] {
      assert s[0..] == s;
      forall i | 0 <= i < |s[1..]| ensures MatchAt(rule, s[1..][i..]).None? {
        assert s[1..][i..] == s[i + 1..];
      }
      ReplaceAllNoMatch(rule, s[1..]);
      assert s == [s[0]] + s[1..];
    }
  }

  /** Replacing text by itself is the identity. */
  lemma {:induction false} LiteralSelf(p: string, s: string)
    ensures ReplaceAll(Literal(p, p), s) == s
    decreases |s|
  {
    if s != [] {
      match MatchAt(Literal(p, p), s)
      case Some(m) =>
        LiteralSelf(p, s[m.len..]);
        assert s == s[..|p|] + s[|p|..];
      case None =>
        LiteralSelf(p, s[1..]);
        assert s == [s[0]] + s[1..];
    }
  }

  predicate NoDoubleSpace(s: string) {
    forall i :: 0 <= i < |s| - 1 ==> !(IsSpace(s[i]) && IsSpace(s[i + 1]))
  }

  function DropSpaces(s: string): (r: string)
    ensures forall i :: 0 <= i < |r| ==> !IsSpace(r[i])
  {
    if s == [] then [] else (if IsSpace(s[0]) then [] else [s[0]]) + DropSpaces(s[1..])
  }

  lemma DropSpacesOfRun(s: string, k: nat)
    requires k <= |s| && forall i :: 0 <= i < k ==> IsSpace(s[i])
    ensures DropSpaces(s) == DropSpaces(s[k..])
    decreases k
  {
    if k > 0 {
      DropSpacesOfRun(s[1..], k - 1);
      assert s[1..][k - 1..] == s[k..];
    }
  }

  /** `/\s+/g` → `' '`: no two white-space characters are left side by side,
      every other character is kept in order, and the result starts with
      white space only when the input does. */
  lemma {:induction false} CollapseSpaces(s: string)
    ensures NoDoubleSpace(ReplaceAll(Whitespace, s))
    ensures DropSpaces(ReplaceAll(Whitespace, s)) == DropSpaces(s)
    ensures ReplaceAll(Whitespace, s) != [] && IsSpace(ReplaceAll(Whitespace, s)[0]) ==> s != [] && IsSpace(s[0])
    ensures ReplaceAll(Whitespace, s) == [] <==> s == []
    decreases |s|
  {
    if s != [] {
      var r := ReplaceAll(Whitespace, s);
      if IsSpace(s[0]) {
        var k := SpanEnd(s, 0, IsSpace);
        var rest := ReplaceAll(Whitespace, s[k..]);
        CollapseSpaces(s[k..]);
        assert r == " " + rest;
        assert rest != [] ==> !IsSpace(rest[0]);
        DropSpacesOfRun(s, k);
        assert DropSpaces(r) == DropSpaces(rest) by {
          assert r[1..] == rest;
        }
      } else {
        var rest := ReplaceAll(Whitespace, s[1..]);
        CollapseSpaces(s[1..]);
        assert r == [s[0]] + rest;
        assert r[1..] == rest;
      }
    }
  }

  lemma NoDoubleSpaceInfix(s: string, a: nat, b: nat)
    requires NoDoubleSpace(s) && a <= b <= |s|
    ensures NoDoubleSpace(s[a..b])
  {
    var t := s[a..b];
    forall i | 0 <= i < |t| - 1 ensures !(IsSpace(t[i]) && IsSpace(t[i + 1])) {
      assert t[i] == s[a + i] && t[i + 1] == s[a + i + 1];
    }
  }

  // ---------------------------------------------------------------------------
  // The three placeholder patterns on single expressions
  // ---------------------------------------------------------------------------

  /** A non-empty run of word characters (`\w+`). */
  predicate IsWord(w: string) {
    w != [] && forall i :: 0 <= i < |w| ==> IsWordChar(w[i])
  }

  lemma WordAtExact(s: string, j: nat, w: string)
    requires IsWord(w) && j + |w| <= |s| && s[j..j + |w|] == w
    requires j + |w| == |s| || !IsWordChar(s[j + |w|])
    ensures WordAt(s, j) == Some(j + |w|)
  {
    forall i | j <= i < j + |w| ensures IsWordChar(s[i]) {
      assert s[i] == w[i - j];
    }
    SpanEndExact(s, j, j + |w|, IsWordChar);
  }

  lemma NoWordAt(s: string, j: nat)
    requires j < |s| && !IsWordChar(s[j])
    ensures WordAt(s, j).None?
  {
    SpanEndExact(s, j, j, IsWordChar);
  }

  lemma SimpleExprMatch(w: string, rest: string)
    requires IsWord(w)
    ensures MatchAt(SimpleExpr, "{" + w + "}" + rest) == Some(Match(|w| + 2, "{{" + w + "}}"))
  {
    var s := "{" + w + "}" + rest;
    assert s[1..|w| + 1] == w && s[|w| + 1] == '}';
    WordAtExact(s, 1, w);
    assert s[..1] == "{";
  }

  /** A bare word in braces becomes a placeholder. */
  lemma SimpleExprOfWord(w: string)
    requires IsWord(w)
    ensures ReplaceAll(SimpleExpr, "{" + w + "}") == "{{" + w + "}}"
  {
    var s := "{" + w + "}";
    SimpleExprMatch(w, "");
    assert s + "" == s;
    ReplaceAllAtMatch(SimpleExpr, s, Match(|w| + 2, "{{" + w + "}}"));
    assert s[|w| + 2..] == [];
  }

  const SlidePrefix := "{currentSlideData."

  lemma SlideFieldMatch(w: string)
    requires IsWord(w)
    ensures MatchAt(SlideField, SlidePrefix + w + "}") == Some(Match(|w| + 19, "{{" + w + "}}"))
  {
    var s := SlidePrefix + w + "}";
    assert s[..18] == SlidePrefix;
    assert s[18..18 + |w|] == w && s[18 + |w|] == '}';
    WordAtExact(s, 18, w);
  }

  /** A field of the current slide becomes a placeholder named after the field. */
  lemma SlideFieldOfWord(w: string)
    requires IsWord(w)
    ensures ReplaceAll(SlideField, SlidePrefix + w + "}") == "{{" + w + "}}"
  {
    var s := SlidePrefix + w + "}";
    SlideFieldMatch(w);
    ReplaceAllAtMatch(SlideField, s, Match(|w| + 19, "{{" + w + "}}"));
    assert s[|w| + 19..] == [];
  }

  lemma MemberAccessMatch(a: string, b: string)
    requires IsWord(a) && IsWord(b)
    ensures MatchAt(MemberAccess, "{" + a + "." + b + "}")
      == Some(Match(|a| + |b| + 3, "{{" + a + "_" + b + "}}"))
  {
    var s := "{" + a + "." + b + "}";
    var d, k := |a| + 1, |a| + |b| + 2;
    assert s[1..d] == a && s[d] == '.' && s[d + 1..k] == b && s[k] == '}' && s[..1] == "{";
    assert WordAt(s, 1) == Some(d) by { WordAtExact(s, 1, a); }
    assert WordAt(s, d + 1) == Some(k) by { WordAtExact(s, d + 1, b); }
  }

  /** `{a.b}` becomes the placeholder `{{a_b}}`. */
  lemma MemberAccessOfWords(a: string, b: string)
    requires IsWord(a) && IsWord(b)
    ensures ReplaceAll(MemberAccess, "{" + a + "." + b + "}") == "{{" + a + "_" + b + "}}"
  {
    var s := "{" + a + "." + b + "}";
    MemberAccessMatch(a, b);
    ReplaceAllAtMatch(MemberAccess, s, Match(|a| + |b| + 3, "{{" + a + "_" + b + "}}"));
    assert s[|a| + |b| + 3..] == [];
  }

  /** After position `i` a brace pattern finds nothing when no `{` follows. */
  lemma BraceFreeFrom(rule: Rule, s: string, i: nat)
    requires OpensWithBrace(rule) && i < |s| && s[i] != '{'
    ensures MatchAt(rule, s[i..]).None?
  {
    BraceRuleMatch(rule, s[i..]);
  }

  /** The member-access pattern leaves a placeholder alone. */
  lemma MemberAccessSkipsPlaceholder(w: string)
    requires IsWord(w)
    ensures ReplaceAll(MemberAccess, "{{" + w + "}}") == "{{" + w + "}}"
  {
    var s := "{{" + w + "}}";
    forall i | 0 <= i < |s| ensures MatchAt(MemberAccess, s[i..]).None? {
      if i == 0 {
        assert s[0..] == s;
        NoWordAt(s, 1);
      } else if i == 1 {
        var t := s[1..];
        assert t[1..1 + |w|] == w && t[1 + |w|] == '}';
        WordAtExact(t, 1, w);
      } else {
        assert s[i] == (if i < |w| + 2 then w[i - 2] else '}');
        BraceFreeFrom(MemberAccess, s, i);
      }
    }
    ReplaceAllNoMatch(MemberAccess, s);
  }

  /** The slide-field pattern leaves a placeholder alone. */
  lemma SlideFieldSkipsPlaceholder(w: string)
    requires IsWord(w)
    ensures ReplaceAll(SlideField, "{{" + w + "}}") == "{{" + w + "}}"
  {
    var s := "{{" + w + "}}";
    forall i | 0 <= i < |s| ensures MatchAt(SlideField, s[i..]).None? {
      if i == 0 {
        assert s[0..] == s;
        assert !StartsWith(s, SlidePrefix) by {
          assert |s| >= 18 ==> s[..18][1] == '{' != SlidePrefix[1];
        }
      } else if i == 1 {
        var t := s[1..];
        assert !StartsWith(t, SlidePrefix) by {
          assert |t| >= 18 ==> t[..18][17] == (if 17 < |w| + 1 then w[16] else '}');
        }
      } else {
        assert s[i] == (if i < |w| + 2 then w[i - 2] else '}');
        BraceFreeFrom(SlideField, s, i);
      }
    }
    ReplaceAllNoMatch(SlideField, s);
  }

  /** The bare-word pattern wraps a placeholder in a second pair of braces. */
  lemma SimpleExprRewrapsPlaceholder(w: string)
    requires IsWord(w)
    ensures ReplaceAll(SimpleExpr, "{{" + w + "}}") == "{{{" + w + "}}}"
  {
    var s := "{{" + w + "}}";
    var t := "{" + w + "}" + "}";
    assert s[1..] == t;
    assert ReplaceAll(SimpleExpr, s) == "{" + ReplaceAll(SimpleExpr, t) by {
      NoWordAt(s, 1);
      ReplaceAllNoMatchAt(SimpleExpr, s);
    }
    assert ReplaceAll(SimpleExpr, t) == "{{" + w + "}}" + ReplaceAll(SimpleExpr, "}") by {
      SimpleExprMatch(w, "}");
      ReplaceAllAtMatch(SimpleExpr, t, Match(|w| + 2, "{{" + w + "}}"));
      assert t[|w| + 2..] == "}";
    }
    assert ReplaceAll(SimpleExpr, "}") == "}" by {
      BraceFreeFrom(SimpleExpr, "}", 0);
      ReplaceAllNoMatchAt(SimpleExpr, "}");
    }
    assert "{" + ("{{" + w + "}}" + "}") == "{{{" + w + "}}}";
  }

  /** Inside `{a.b}` only the first character is a brace opener. */
  lemma MemberAccessOneOpener(a: string, b: string, i: nat)
    requires IsWord(a) && IsWord(b) && 0 < i < |a| + |b| + 3
    ensures ("{" + a + "." + b + "}")[i] != '{'
  {
    var s := "{" + a + "." + b + "}";
    assert s[i] == (if i < |a| + 1 then a[i - 1] else if i == |a| + 1 then '.'
                    else if i < |a| + |b| + 2 then b[i - |a| - 2] else '}');
  }

  /** The bare-word pattern leaves a member access alone. */
  lemma SimpleExprSkipsMemberAccess(a: string, b: string)
    requires IsWord(a) && IsWord(b)
    ensures ReplaceAll(SimpleExpr, "{" + a + "." + b + "}") == "{" + a + "." + b + "}"
  {
    var s := "{" + a + "." + b + "}";
    forall i | 0 <= i < |s| ensures MatchAt(SimpleExpr, s[i..]).None? {
      if i == 0 {
        assert s[0..] == s;
        assert s[1..|a| + 1] == a && s[|a| + 1] == '.';
        WordAtExact(s, 1, a);
      } else {
        MemberAccessOneOpener(a, b, i);
        BraceFreeFrom(SimpleExpr, s, i);
      }
    }
    ReplaceAllNoMatch(SimpleExpr, s);
  }

  /** `{a.b}` starts with the slide-field prefix only when `a` is `currentSlideData`. */
  lemma SlidePrefixOfMemberAccess(a: string, b: string)
    requires IsWord(a) && IsWord(b) && a != "currentSlideData"
    ensures !StartsWith("{" + a + "." + b + "}", SlidePrefix)
  {
    var s := "{" + a + "." + b + "}";
    if |s| >= 18 {
      assert s[1..|a| + 1] == a && s[|a| + 1] == '.';
      if |a| < 16 {
        assert s[..18][|a| + 1] == '.' != SlidePrefix[|a| + 1];
      } else if |a| > 16 {
        assert s[..18][17] == a[16] != SlidePrefix[17];
      } else {
        assert s[..18][1..17] == a != SlidePrefix[1..17];
      }
    }
  }

  /** The slide-field pattern leaves any other member access alone. */
  lemma SlideFieldSkipsMemberAccess(a: string, b: string)
    requires IsWord(a) && IsWord(b) && a != "currentSlideData"
    ensures ReplaceAll(SlideField, "{" + a + "." + b + "}") == "{" + a + "." + b + "}"
  {
    var s := "{" + a + "." + b + "}";
    forall i | 0 <= i < |s| ensures MatchAt(SlideField, s[i..]).None? {
      if i == 0 {
        assert s[0..] == s;
        SlidePrefixOfMemberAccess(a, b);
      } else {
        MemberAccessOneOpener(a, b, i);
        BraceFreeFrom(SlideField, s, i);
      }
    }
    ReplaceAllNoMatch(SlideField, s);
  }
}
