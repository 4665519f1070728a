/** The character filter both subdomain inputs apply: lower-case, then drop
    everything outside `[a-z0-9-]`. */
module SubdomainField {
  import opened Strings
  import opened Collections
  import Utils

  /** `.toLowerCase().replace(/[^a-z0-9-]/g, '')`. */
  function KeepLabelChars(s: string): (r: string)
    ensures forall i :: 0 <= i < |r| ==> Utils.IsLabelChar(r[i])
    ensures forall c :: c in r <==> c in Lower(s) && Utils.IsLabelChar(c)
    ensures |r| <= |s|
  {
    Filter(Utils.IsLabelChar, Lower(s))
  }

  /** The kept characters are in their order, and a typed subdomain that is
      already clean is kept as typed. */
  lemma KeepLabelCharsSpec(s: string)
    ensures Subsequence(KeepLabelChars(s), Lower(s))
    ensures (forall i :: 0 <= i < |s| ==> Utils.IsLabelChar(s[i])) ==> KeepLabelChars(s) == s
  {
    FilterSubsequence(Utils.IsLabelChar, Lower(s));
    if forall i :: 0 <= i < |s| ==> Utils.IsLabelChar(s[i]) {
      Utils.LowerOfLabel(s);
      FilterAll(Utils.IsLabelChar, s);
    }
  }

  /** Filtering twice filters once. */
  lemma KeepLabelCharsIdempotent(s: string)
    ensures KeepLabelChars(KeepLabelChars(s)) == KeepLabelChars(s)
  {
    KeepLabelCharsSpec(KeepLabelChars(s));
  }
}

/** The new-site dialog (`src/components/dashboard/CreateWebsiteModal.tsx`):
    the subdomain that follows the typed name, and the submit. */
module CreateWebsiteModal {
  import opened Wrappers
  import opened Strings
  import opened Collections
  import opened SubdomainField
  import Utils

  /** `.replace(/\s+/g, '-')`: every run of white space becomes one dash. */
  function SpaceRuns(s: string): (r: string)
    ensures forall i :: 0 <= i < |r| ==> !IsSpace(r[i])
    ensures |r| <= |s|
    ensures r == [] <==> s == []
    decreases |s|
  {
    if s == [] then []
    else if !IsSpace(s[0]) then [s[0]] + SpaceRuns(s[1..])
    else
      var k := SpanEnd(s, 0, IsSpace);
      "-" + SpaceRuns(s[k..])
  }

  predicate Visible(c: char) {
    !IsSpace(c) && c != '-'
  }

  /** Apart from the dashes, the dashed string has exactly the non-space
      characters of the input, in order; text without white space is kept. */
  lemma {:induction false} SpaceRunsKeepsText(s: string)
    ensures Filter(Visible, SpaceRuns(s)) == Filter(Visible, s)
    ensures (forall i :: 0 <= i < |s| ==> !IsSpace(s[i])) ==> SpaceRuns(s) == s
    decreases |s|
  {
    if s != [] {
      if !IsSpace(s[0]) {
        SpaceRunsKeepsText(s[1..]);
        assert ([s[0]] + SpaceRuns(s[1..]))[1..] == SpaceRuns(s[1..]);
      } else {
        var k := SpanEnd(s, 0, IsSpace);
        SpaceRunsKeepsText(s[k..]);
        assert ("-" + SpaceRuns(s[k..]))[1..] == SpaceRuns(s[k..]);
        SkipSpaces(s, k);
      }
    }
  }

  lemma {:induction false} SkipSpaces(s: string, k: nat)
    requires k <= |s| && forall i :: 0 <= i < k ==> IsSpace(s[i])
    ensures Filter(Visible, s) == Filter(Visible, s[k..])
    decreases k
  {
    if k > 0 {
      assert s[1..][k - 1..] == s[k..];
      SkipSpaces(s[1..], k - 1);
    }
  }

  /** The subdomain suggested for a name: lower-case, white-space runs dashed,
      then filtered. */
  function AutoSubdomain(name: string): (r: string)
    ensures forall i :: 0 <= i < |r| ==> Utils.IsLabelChar(r[i])
  {
    KeepLabelChars(SpaceRuns(Lower(name)))
  }

  /** The dialog's fields. `error == ""` means none is shown. */
  datatype Dialog = Dialog(name: string, subdomain: string, loading: bool, error: string)

  /** `handleNameChange` as written: the subdomain follows the name while it
      is empty or equal to the OLD name filtered without dashing its white
      space. */
  function NameChangeAsWritten(d: Dialog, newName: string): (r: Dialog)
    ensures r.name == newName && r.loading == d.loading && r.error == d.error
    ensures d.subdomain == "" || d.subdomain == KeepLabelChars(d.name) ==> r.subdomain == AutoSubdomain(newName)
    ensures !(d.subdomain == "" || d.subdomain == KeepLabelChars(d.name)) ==> r.subdomain == d.subdomain
  {
    if d.subdomain == "" || d.subdomain == KeepLabelChars(d.name) then d.(name := newName, subdomain := AutoSubdomain(newName))
    else d.(name := newName)
  }

  /** The follow rule compares with the wrong suggestion: after "a b" was
      suggested as "a-b", typing one more letter no longer updates it. */
  lemma AsWrittenStopsFollowing()
    ensures var d := Dialog("a b", "a-b", false, "");
      && d.subdomain == AutoSubdomain(d.name)
      && NameChangeAsWritten(d, "a bc").subdomain == "a-b"
      && AutoSubdomain("a bc") != "a-b"
  {
    SuggestAB();
    SuggestABC();
    FilteredAB();
  }

  lemma SuggestAB()
    ensures AutoSubdomain("a b") == "a-b"
  {
    SuggestionOfOneSpace("a", "b");
    assert "a" + " " + "b" == "a b";
    assert "a" + "-" + "b" == "a-b";
  }

  lemma SuggestABC()
    ensures AutoSubdomain("a bc") == "a-bc"
  {
    SuggestionOfOneSpace("a", "bc");
    assert "a" + " " + "bc" == "a bc";
    assert "a" + "-" + "bc" == "a-bc";
  }

  lemma FilteredAB()
    ensures KeepLabelChars("a b") == "ab"
  {
    LowerPlain("a b");
    assert "a b"[1..] == " b";
    assert " b"[1..] == "b";
    assert "b"[1..] == [];
    assert Filter(Utils.IsLabelChar, "b") == "b";
    assert Filter(Utils.IsLabelChar, " b") == "b";
  }

  /** Two lower-case words separated by one space are suggested with a dash. */
  lemma SuggestionOfOneSpace(a: string, b: string)
    requires a != [] && b != []
    requires forall i :: 0 <= i < |a| ==> IsAlnumLower(a[i])
    requires forall i :: 0 <= i < |b| ==> IsAlnumLower(b[i])
    ensures AutoSubdomain(a + " " + b) == a + "-" + b
  {
    var s := a + " " + b;
    LowerPlain(s);
    OneSpaceDashed(a, b);
    var d := a + "-" + b;
    assert forall i :: 0 <= i < |d| ==> Utils.IsLabelChar(d[i]);
    KeepLabelCharsSpec(d);
  }

  lemma OneSpaceDashed(a: string, b: string)
    requires b != []
    requires forall i :: 0 <= i < |a| ==> !IsSpace(a[i])
    requires forall i :: 0 <= i < |b| ==> !IsSpace(b[i])
    ensures SpaceRuns(a + " " + b) == a + "-" + b
  {
    var t := " " + b;
    SpaceThenWord(b);
    SpaceRunsPlain(a, t);
    assert a + " " + b == a + t;
    assert a + "-" + b == a + ("-" + b);
  }

  lemma SpaceThenWord(b: string)
    requires b != []
    requires forall i :: 0 <= i < |b| ==> !IsSpace(b[i])
    ensures SpaceRuns(" " + b) == "-" + b
  {
    var t := " " + b;
    assert t[1..] == b;
    assert !IsSpace(t[1]);
    SpanEndExact(t, 0, 1, IsSpace);
    SpaceRunsKeepsText(b);
  }

  /** A leading word without white space passes through unchanged. */
  lemma {:induction false} SpaceRunsPlain(a: string, rest: string)
    requires forall i :: 0 <= i < |a| ==> !IsSpace(a[i])
    ensures SpaceRuns(a + rest) == a + SpaceRuns(rest)
    decreases |a|
  {
    if a != [] {
      assert (a + rest)[1..] == a[1..] + rest;
      SpaceRunsPlain(a[1..], rest);
      assert a == [a[0]] + a[1..];
    } else {
      assert a + rest == rest;
    }
  }

  lemma LowerPlain(s: string)
    requires forall i :: 0 <= i < |s| ==> !IsUpper(s[i])
    ensures Lower(s) == s
  {
  }

  /** `handleNameChange`, following while the subdomain is empty or still the
      suggestion for the old name. */
  function NameChange(d: Dialog, newName: string): (r: Dialog)
    ensures r.name == newName && r.loading == d.loading && r.error == d.error
    ensures d.subdomain == "" || d.subdomain == AutoSubdomain(d.name) ==> r.subdomain == AutoSubdomain(newName)
    ensures !(d.subdomain == "" || d.subdomain == AutoSubdomain(d.name)) ==> r.subdomain == d.subdomain
  {
    if d.subdomain == "" || d.subdomain == AutoSubdomain(d.name) then d.(name := newName, subdomain := AutoSubdomain(newName))
    else d.(name := newName)
  }

  /** Tracking is kept through any sequence of name edits until the user
      types a subdomain of their own. */
  lemma {:induction false} FollowingPersists(d: Dialog, names: seq<string>)
    requires d.subdomain == AutoSubdomain(d.name)
    ensures var r := NameChanges(d, names);
      r.subdomain == AutoSubdomain(r.name) && (names != [] ==> r.name == names[|names| - 1])
    decreases |names|
  {
    if names != [] {
      var d1 := NameChange(d, names[0]);
      FollowStep(d, names[0]);
      FollowingPersists(d1, names[1..]);
      assert NameChanges(d, names) == NameChanges(d1, names[1..]);
      if |names| > 1 {
        assert names[|names| - 1] == names[1..][|names[1..]| - 1];
      }
    }
  }

  /** One edit of a followed name is followed, and takes the new name. */
  lemma FollowStep(d: Dialog, name: string)
    requires d.subdomain == AutoSubdomain(d.name)
    ensures NameChange(d, name).subdomain == AutoSubdomain(name) && NameChange(d, name).name == name
  {
  }

  function NameChanges(d: Dialog, names: seq<string>): Dialog
    decreases |names|
  {
    if names == [] then d else NameChanges(NameChange(d, names[0]), names[1..])
  }

  /** `onChange` of the subdomain input. */
  function SubdomainChange(d: Dialog, typed: string): (r: Dialog)
    ensures r == d.(subdomain := KeepLabelChars(typed))
  {
    d.(subdomain := KeepLabelChars(typed))
  }

  const CreateFailedMessage := "Web sitesi olu\U{15F}turulamad\U{131}."

  datatype SubmitEffect = SubmitEffect(dialog: Dialog, call: Option<(string, string)>)

  /** `handleSubmit`: nothing happens without both fields; success clears
      them; failure keeps them and shows the message or the default. */
  function Submit(d: Dialog, create: (string, string) -> Result<()>): (r: SubmitEffect)
    ensures r.call.None? <==> d.name == "" || d.subdomain == ""
    ensures r.call.None? ==> r.dialog == d
    ensures r.call.Some? ==> r.call.value == (d.name, d.subdomain) && !r.dialog.loading
    ensures r.call.Some? && create(d.name, d.subdomain).Success? ==> r.dialog == Dialog("", "", false, "")
    ensures r.call.Some? && create(d.name, d.subdomain).Failure? ==>
      r.dialog == Dialog(d.name, d.subdomain, false,
                         OrElse(Some(create(d.name, d.subdomain).error), CreateFailedMessage))
  {
    if d.name == "" || d.subdomain == "" then SubmitEffect(d, None)
    else
      match create(d.name, d.subdomain)
      case Success(_) => SubmitEffect(Dialog("", "", false, ""), Some((d.name, d.subdomain)))
      case Failure(e) =>
        SubmitEffect(Dialog(d.name, d.subdomain, false, OrElse(Some(e), CreateFailedMessage)), Some((d.name, d.subdomain)))
  }

  /** After a successful create the dialog is empty, so the subdomain
      follows the next name typed again; after a failure the fields are kept
      and submitting again sends the same pair. */
  lemma SubmitThenType(d: Dialog, create: (string, string) -> Result<()>, name: string)
    requires Submit(d, create).call.Some?
    ensures create(d.name, d.subdomain).Success? ==> NameChange(Submit(d, create).dialog, name).subdomain == AutoSubdomain(name)
    ensures create(d.name, d.subdomain).Failure? ==> Submit(Submit(d, create).dialog, create).call == Submit(d, create).call
  {
  }
}
