/** The string helpers of `src/lib/utils.ts`: subdomain generation,
    truncation, relative-time buckets and video-id extraction. */
module Utils {
  import opened Wrappers
  import opened Strings
  import opened Collections

  // ---------------------------------------------------------------------------
  // generateSubdomain
  // ---------------------------------------------------------------------------

  /** The longest subdomain label DNS allows. */
  const MaxLabel := 63

  predicate IsLabelChar(c: char) { IsAlnumLower(c) || c == '-' }
  predicate NotAlnumLower(c: char) { !IsAlnumLower(c) }

  /** No two dashes in a row. */
  predicate NoDoubleDash(s: string) {
    forall i :: 0 <= i < |s| - 1 ==> !(s[i] == '-' && s[i + 1] == '-')
  }

  /** A well-formed label: `[a-z0-9-]`, at most 63 long, no dash at either end,
      no double dash. */
  predicate CleanLabel(s: string) {
    && |s| <= MaxLabel
    && (forall i :: 0 <= i < |s| ==> IsLabelChar(s[i]))
    && (s == [] || (s[0] != '-' && s[|s| - 1] != '-'))
    && NoDoubleDash(s)
  }

  /** `.replace(/[^a-z0-9]+/g, '-')`: every maximal run of other characters
      becomes one dash. */
  function DashRuns(s: string): (r: string)
    ensures forall i :: 0 <= i < |r| ==> IsLabelChar(r[i])
    ensures NoDoubleDash(r)
    ensures r == [] <==> s == []
    ensures s != [] ==> r[0] == (if IsAlnumLower(s[0]) then s[0] else '-')
    decreases |s|
  {
    if s == [] then []
    else if IsAlnumLower(s[0]) then [s[0]] + DashRuns(s[1..])
    else
      var k := SpanEnd(s, 0, NotAlnumLower);
      assert k > 0;
      var rest := DashRuns(s[k..]);
      assert rest != [] ==> rest[0] != '-';
      "-" + rest
  }

  /** The dash replacement keeps every character of `[a-z0-9]`, in order,
      and adds no other: only the runs in between change. */
  lemma {:induction false} DashRunsKeepsAlnum(s: string)
    ensures Filter(IsAlnumLower, DashRuns(s)) == Filter(IsAlnumLower, s)
    decreases |s|
  {
    if s != [] {
      FilterCons(IsAlnumLower, s[0], s[1..]);
      assert s == [s[0]] + s[1..];
      if IsAlnumLower(s[0]) {
        DashRunsKeepsAlnum(s[1..]);
        FilterCons(IsAlnumLower, s[0], DashRuns(s[1..]));
      } else {
        var k := SpanEnd(s, 0, NotAlnumLower);
        DashRunsKeepsAlnum(s[k..]);
        FilterSkip(IsAlnumLower, s, k);
        FilterCons(IsAlnumLower, '-', DashRuns(s[k..]));
      }
    }
  }

  /** `.replace(/^-|-$/g, '')`: a leading dash and a trailing dash go. */
  function StripEdgeDashes(s: string): (r: string)
    ensures s != [] && s[0] != '-' && s[|s| - 1] != '-' ==> r == s
    ensures |s| - 2 <= |r| <= |s|
  {
    var t := if s != [] && s[0] == '-' then s[1..] else s;
    if t != [] && t[|t| - 1] == '-' then t[..|t| - 1] else t
  }

  /** Stripping the edge dashes removes dashes only. */
  lemma StripKeepsAlnum(s: string)
    ensures Filter(IsAlnumLower, StripEdgeDashes(s)) == Filter(IsAlnumLower, s)
  {
    var t := if s != [] && s[0] == '-' then s[1..] else s;
    if s != [] && s[0] == '-' {
      FilterCons(IsAlnumLower, '-', s[1..]);
      assert s == [s[0]] + s[1..];
    }
    if t != [] && t[|t| - 1] == '-' {
      FilterSnoc(IsAlnumLower, t[..|t| - 1], '-');
      assert t == t[..|t| - 1] + ['-'];
    }
  }

  /** `s.substring(0, n)` for `n >= 0`. */
  function Prefix(s: string, n: nat): (r: string)
    ensures |r| == if |s| <= n then |s| else n
    ensures r == s[..|r|]
  {
    if |s| <= n then s else s[..n]
  }

  /** `generateSubdomain(businessName)` as written: lower-case, dash the runs,
      strip the edge dashes, then cut to 63. */
  function GenerateSubdomainAsWritten(businessName: string): (r: string)
    ensures |r| <= MaxLabel
    ensures forall i :: 0 <= i < |r| ==> IsLabelChar(r[i])
    ensures r == [] || r[0] != '-'
    ensures NoDoubleDash(r)
  {
    var d := DashRuns(Lower(businessName));
    var t := StripEdgeDashes(d);
    StripKeepsShape(d);
    Prefix(t, MaxLabel)
  }

  /** The cut to 63 comes last, so it can land just after a dash. */
  lemma AsWrittenTrailingDash()
    ensures var r := GenerateSubdomainAsWritten(Repeat('a', 62) + " b");
      |r| == MaxLabel && r[|r| - 1] == '-'
  {
    var s := Repeat('a', 62) + " b";
    LowerOfLetters(s);
    var d := DashRuns(s);
    DashRunsOfLetters(Repeat('a', 62));
    assert StripEdgeDashes(d) == d;
    assert Prefix(d, MaxLabel) == Repeat('a', 62) + "-";
  }

  lemma DashRunsOfLetters(w: string)
    requires forall i :: 0 <= i < |w| ==> w[i] == 'a'
    ensures DashRuns(w + " b") == w + "-b"
  {
    assert forall i :: 0 <= i < |w| ==> IsAlnumLower(w[i]);
    DashRunsOfWord(w, " b");
    DashRunsOfSpaceB();
  }

  lemma DashRunsOfSpaceB()
    ensures DashRuns(" b") == "-b"
  {
    DashRunsOfRun(" ", "b");
    assert " " + "b" == " b";
    DashRunsOfWord("b", []);
    assert "b" + [] == "b";
  }

  /** `generateSubdomain` with the cut moved before the dash stripping, so the
      label never ends with a dash. */
  function GenerateSubdomain(businessName: string): (r: string)
    ensures CleanLabel(r)
  {
    var d := DashRuns(Lower(businessName));
    var t := StripEdgeDashes(Prefix(d, MaxLabel));
    StripKeepsShape(Prefix(d, MaxLabel));
    t
  }

  /** A clean label is already its own subdomain: generating twice changes
      nothing. */
  lemma GenerateSubdomainOfClean(s: string)
    requires CleanLabel(s)
    ensures GenerateSubdomain(s) == s
  {
    LowerOfLabel(s);
    DashRunsOfLabel(s);
  }

  lemma GenerateSubdomainIdempotent(businessName: string)
    ensures GenerateSubdomain(GenerateSubdomain(businessName)) == GenerateSubdomain(businessName)
  {
    GenerateSubdomainOfClean(GenerateSubdomain(businessName));
  }

  function Repeat(c: char, n: nat): (r: string)
    ensures |r| == n && forall i :: 0 <= i < n ==> r[i] == c
  {
    if n == 0 then [] else [c] + Repeat(c, n - 1)
  }

  lemma StripKeepsShape(s: string)
    requires forall i :: 0 <= i < |s| ==> IsLabelChar(s[i])
    requires NoDoubleDash(s)
    ensures var r := StripEdgeDashes(s);
      && (forall i :: 0 <= i < |r| ==> IsLabelChar(r[i]))
      && NoDoubleDash(r)
      && (r == [] || (r[0] != '-' && r[|r| - 1] != '-'))
  {
    var t := if s != [] && s[0] == '-' then s[1..] else s;
    assert t != [] ==> t[0] != '-';
    assert forall i :: 0 <= i < |t| ==> IsLabelChar(t[i]);
    assert NoDoubleDash(t);
    if t != [] && t[|t| - 1] == '-' {
      assert |t| >= 2;
      assert t[|t| - 2] != '-';
    }
  }

  lemma LowerOfLetters(s: string)
    requires forall i :: 0 <= i < |s| ==> !IsUpper(s[i])
    ensures Lower(s) == s
  {
  }

  lemma LowerOfLabel(s: string)
    requires forall i :: 0 <= i < |s| ==> IsLabelChar(s[i])
    ensures Lower(s) == s
  {
  }

  lemma {:induction false} DashRunsOfWord(w: string, rest: string)
    requires forall i :: 0 <= i < |w| ==> IsAlnumLower(w[i])
    ensures DashRuns(w + rest) == w + DashRuns(rest)
  {
    if w != [] {
      assert (w + rest)[0] == w[0];
      assert (w + rest)[1..] == w[1..] + rest;
      DashRunsOfWord(w[1..], rest);
      calc {
        DashRuns(w + rest);
        [w[0]] + DashRuns(w[1..] + rest);
        [w[0]] + (w[1..] + DashRuns(rest));
        ([w[0]] + w[1..]) + DashRuns(rest);
        { assert [w[0]] + w[1..] == w; }
        w + DashRuns(rest);
      }
    } else {
      assert w + rest == rest;
    }
  }

  /** A run of characters outside `[a-z0-9]`, up to the next letter or digit
      or the end, becomes exactly one dash. */
  lemma DashRunsOfRun(run: string, rest: string)
    requires run != [] && forall i :: 0 <= i < |run| ==> !IsAlnumLower(run[i])
    requires rest == [] || IsAlnumLower(rest[0])
    ensures DashRuns(run + rest) == "-" + DashRuns(rest)
  {
    var s := run + rest;
    assert forall i :: 0 <= i < |run| ==> s[i] == run[i];
    assert |run| < |s| ==> s[|run|] == rest[0];
    SpanEndExact(s, 0, |run|, NotAlnumLower);
    assert s[|run|..] == rest;
  }

  /** Two words of `[a-z0-9]` with a run of other characters between them
      are joined by one dash. */
  lemma DashRunsJoin(a: string, sep: string, b: string)
    requires forall i :: 0 <= i < |a| ==> IsAlnumLower(a[i])
    requires forall i :: 0 <= i < |b| ==> IsAlnumLower(b[i])
    requires sep != [] && forall i :: 0 <= i < |sep| ==> !IsAlnumLower(sep[i])
    ensures DashRuns(a + sep + b) == a + "-" + b
  {
    ConcatAssoc(a, sep, b);
    DashRunsOfWord(a, sep + b);
    DashRunsOfRun(sep, b);
    DashRunsOfWholeWord(b);
    ConcatAssoc(a, "-", b);
  }

  lemma DashRunsOfWholeWord(w: string)
    requires forall i :: 0 <= i < |w| ==> IsAlnumLower(w[i])
    ensures DashRuns(w) == w
  {
    DashRunsOfWord(w, []);
    assert w + [] == w;
  }

  /** A business name of two words of `[a-z0-9]` with a separator outside
      `[a-zA-Z0-9]` becomes the two words joined by a dash, when that fits in
      a label. */
  lemma GenerateSubdomainJoinsWords(a: string, sep: string, b: string)
    requires a != [] && forall i :: 0 <= i < |a| ==> IsAlnumLower(a[i])
    requires b != [] && forall i :: 0 <= i < |b| ==> IsAlnumLower(b[i])
    requires sep != [] && forall i :: 0 <= i < |sep| ==> !IsAlnumLower(sep[i]) && !IsUpper(sep[i])
    requires |a| + 1 + |b| <= MaxLabel
    ensures GenerateSubdomain(a + sep + b) == a + "-" + b
  {
    var s := a + sep + b;
    JoinedNotUpper(a, sep, b);
    LowerOfLetters(s);
    DashRunsJoin(a, sep, b);
    var d := a + "-" + b;
    assert d[0] == a[0] && d[|d| - 1] == b[|b| - 1];
  }

  /** The pieces of such a name have no capital letter. */
  lemma JoinedNotUpper(a: string, sep: string, b: string)
    requires forall i :: 0 <= i < |a| ==> IsAlnumLower(a[i])
    requires forall i :: 0 <= i < |b| ==> IsAlnumLower(b[i])
    requires forall i :: 0 <= i < |sep| ==> !IsUpper(sep[i])
    ensures forall i :: 0 <= i < |a + sep + b| ==> !IsUpper((a + sep + b)[i])
  {
    var s := a + sep + b;
    forall i | 0 <= i < |s| ensures !IsUpper(s[i]) {
      if i < |a| { assert s[i] == a[i]; }
      else if i < |a| + |sep| { assert s[i] == sep[i - |a|]; }
      else { assert s[i] == b[i - |a| - |sep|]; }
    }
  }

  /** Dashing the runs leaves a string with single dashes unchanged. */
  lemma {:induction false} DashRunsOfLabel(s: string)
    requires forall i :: 0 <= i < |s| ==> IsLabelChar(s[i])
    requires NoDoubleDash(s)
    ensures DashRuns(s) == s
  {
    if s != [] {
      if !IsAlnumLower(s[0]) {
        SpanEndExact(s, 0, 1, NotAlnumLower);
      }
      DashRunsOfLabel(s[1..]);
    }
  }

  // ---------------------------------------------------------------------------
  // truncate
  // ---------------------------------------------------------------------------

  /** `truncate(text, length)`: text up to `length` long is kept, longer text
      is cut and ellipsed; a negative length cuts to nothing. */
  function Truncate(text: string, length: int): (r: string)
    ensures |text| <= length ==> r == text
    ensures |text| > length ==>
      var n := if length < 0 then 0 else length;
      |r| == n + 3 && r[..n] == text[..n] && r[n..] == "..."
  {
    if |text| <= length then text
    else Prefix(text, if length < 0 then 0 else length) + "..."
  }

  /** Truncating a truncated text again changes nothing. */
  lemma TruncateIdempotent(text: string, length: nat)
    ensures Truncate(Truncate(text, length), length) == Truncate(text, length)
  {
    var r := Truncate(text, length);
    if |text| > length {
      assert r[..length] == text[..length];
    }
  }

  // ---------------------------------------------------------------------------
  // formatRelativeTime
  // ---------------------------------------------------------------------------

  /** Which wording `formatRelativeTime` picks. */
  datatype Bucket = JustNow | MinutesAgo(n: nat) | HoursAgo(n: nat) | DaysAgo(n: nat) | Absolute

  /** Whole seconds between `then` and `now`, both in milliseconds
      (`Math.floor((now - then) / 1000)`, rounding toward minus infinity). */
  function ElapsedSeconds(nowMs: int, thenMs: int): int {
    (nowMs - thenMs) / 1000
  }

  function BucketOf(seconds: int): (b: Bucket)
    ensures b == JustNow <==> seconds < 60
    ensures b.MinutesAgo? <==> 60 <= seconds < 3600
    ensures b.HoursAgo? <==> 3600 <= seconds < 86400
    ensures b.DaysAgo? <==> 86400 <= seconds < 604800
    ensures b == Absolute <==> 604800 <= seconds
    ensures b.MinutesAgo? ==> 1 <= b.n < 60 && b.n * 60 <= seconds < (b.n + 1) * 60
    ensures b.HoursAgo? ==> 1 <= b.n < 24 && b.n * 3600 <= seconds < (b.n + 1) * 3600
    ensures b.DaysAgo? ==> 1 <= b.n < 7 && b.n * 86400 <= seconds < (b.n + 1) * 86400
  {
    if seconds < 60 then JustNow
    else if seconds < 3600 then MinutesAgo(seconds / 60)
    else if seconds < 86400 then HoursAgo(seconds / 3600)
    else if seconds < 604800 then DaysAgo(seconds / 86400)
    else Absolute
  }

  /** `formatRelativeTime(date)`; `formatDate` (an `Intl` call) is a parameter. */
  function FormatRelativeTime(nowMs: int, thenMs: int, formatDate: int -> string): (r: string)
    ensures ElapsedSeconds(nowMs, thenMs) < 60 ==> r == "just now"
    ensures 60 <= ElapsedSeconds(nowMs, thenMs) < 3600 ==>
      r == NatToString(ElapsedSeconds(nowMs, thenMs) / 60) + " minutes ago"
    ensures 3600 <= ElapsedSeconds(nowMs, thenMs) < 86400 ==>
      r == NatToString(ElapsedSeconds(nowMs, thenMs) / 3600) + " hours ago"
    ensures 86400 <= ElapsedSeconds(nowMs, thenMs) < 604800 ==>
      r == NatToString(ElapsedSeconds(nowMs, thenMs) / 86400) + " days ago"
    ensures ElapsedSeconds(nowMs, thenMs) >= 604800 ==> r == formatDate(thenMs)
  {
    match BucketOf(ElapsedSeconds(nowMs, thenMs))
    case JustNow => "just now"
    case MinutesAgo(n) => NatToString(n) + " minutes ago"
    case HoursAgo(n) => NatToString(n) + " hours ago"
    case DaysAgo(n) => NatToString(n) + " days ago"
    case Absolute => formatDate(thenMs)
  }

  /** A date in the future still reads "just now". */
  lemma FutureIsJustNow(nowMs: int, thenMs: int, formatDate: int -> string)
    requires thenMs > nowMs
    ensures FormatRelativeTime(nowMs, thenMs, formatDate) == "just now"
  {
  }

  /** Later moments never fall in an earlier bucket: the buckets are ordered
      by elapsed time. */
  function Rank(b: Bucket): nat {
    match b
    case JustNow => 0
    case MinutesAgo(_) => 1
    case HoursAgo(_) => 2
    case DaysAgo(_) => 3
    case Absolute => 4
  }

  lemma BucketMonotone(s: int, t: int)
    requires s <= t
    ensures Rank(BucketOf(s)) <= Rank(BucketOf(t))
  {
  }

  // ---------------------------------------------------------------------------
  // getYouTubeVideoId
  // ---------------------------------------------------------------------------

  /** The alternatives of `(youtu.be\/|v\/|u\/\w\/|embed\/|watch\?v=|&v=)` in
      order; the `.` in `youtu.be` matches any character but a line terminator. */
  function YouTubeMarkerAt(s: string, p: nat): (r: Option<nat>)
    ensures r.Some? ==> p + r.value <= |s| && r.value > 0
  {
    if p + 8 <= |s| && s[p..p + 5] == "youtu" && !IsLineTerminator(s[p + 5]) && s[p + 6..p + 8] == "be" then
      if p + 9 <= |s| && s[p + 8] == '/' then Some(9) else YouTubeMarkerAfterDot(s, p)
    else YouTubeMarkerAfterDot(s, p)
  }

  function YouTubeMarkerAfterDot(s: string, p: nat): (r: Option<nat>)
    ensures r.Some? ==> p + r.value <= |s| && r.value > 0
  {
    if OccursAt(s, "v/", p) then Some(2)
    else if p + 4 <= |s| && s[p..p + 2] == "u/" && IsWordChar(s[p + 2]) && s[p + 3] == '/' then Some(4)
    else if OccursAt(s, "embed/", p) then Some(6)
    else if OccursAt(s, "watch?v=", p) then Some(8)
    else if OccursAt(s, "&v=", p) then Some(3)
    else None
  }

  /** `.*` before the group cannot cross a line terminator. */
  predicate SameLine(s: string, p: nat)
    requires p <= |s|
  {
    forall i :: 0 <= i < p ==> !IsLineTerminator(s[i])
  }

  predicate NotIdStop(c: char) { c != '#' && c != '&' && c != '?' }

  /** The greedy `^.*` makes the marker the last one on the first line:
      the largest start `p` at or below `hi` where an alternative matches. */
  function LastMarker(s: string, hi: nat): (r: Option<(nat, nat)>)
    requires hi <= |s|
    ensures r.Some? ==>
      r.value.0 <= hi && SameLine(s, r.value.0) && YouTubeMarkerAt(s, r.value.0) == Some(r.value.1)
    ensures r.Some? ==> forall q: nat :: r.value.0 < q <= hi && SameLine(s, q) ==> YouTubeMarkerAt(s, q).None?
    ensures r.None? ==> forall q: nat :: q <= hi && SameLine(s, q) ==> YouTubeMarkerAt(s, q).None?
    decreases hi
  {
    if SameLine(s, hi) && YouTubeMarkerAt(s, hi).Some? then Some((hi, YouTubeMarkerAt(s, hi).value))
    else if hi == 0 then None
    else LastMarker(s, hi - 1)
  }

  /** `getYouTubeVideoId(url)`: the run of characters other than `#&?` after
      the marker, when it is exactly 11 long. */
  function YouTubeVideoId(url: string): (r: Option<string>)
    ensures r.Some? ==> |r.value| == 11 && forall i :: 0 <= i < 11 ==> NotIdStop(r.value[i])
    ensures LastMarker(url, |url|).None? ==> r.None?
    ensures LastMarker(url, |url|).Some? ==>
      var start := LastMarker(url, |url|).value.0 + LastMarker(url, |url|).value.1;
      && (r.Some? <==> IdAt(url, start))
      && (r.Some? ==> OccursAt(url, r.value, start))
  {
    match LastMarker(url, |url|)
    case None => None
    case Some((p, len)) =>
      var e := SpanEnd(url, p + len, NotIdStop);
      IdAtIsRun(url, p + len);
      if e - (p + len) == 11 then
        Some(url[p + len..e])
      else None
  }

  /** Eleven characters other than `#&?` start at `k`, followed by the end of
      the text or by one of those three. */
  predicate IdAt(s: string, k: nat) {
    && k + 11 <= |s|
    && (forall i :: k <= i < k + 11 ==> NotIdStop(s[i]))
    && (k + 11 == |s| || !NotIdStop(s[k + 11]))
  }

  /** The run of id characters from `k` is 11 long exactly when an id is at `k`. */
  lemma IdAtIsRun(s: string, k: nat)
    requires k <= |s|
    ensures IdAt(s, k) <==> SpanEnd(s, k, NotIdStop) - k == 11
  {
    if IdAt(s, k) {
      SpanEndExact(s, k, k + 11, NotIdStop);
    }
  }

  /** Every alternative of the marker holds a `/`, a `=` or a `&`, so a
      stretch without them starts no marker. */
  lemma NoMarkerWithoutSlash(s: string, q: nat)
    requires q <= |s| && forall i :: q <= i < |s| ==> s[i] != '/' && s[i] != '=' && s[i] != '&'
    ensures YouTubeMarkerAt(s, q).None?
  {
    assert q + 9 <= |s| ==> s[q + 8] != '/';
    assert !OccursAt(s, "v/", q) by { assert q + 2 <= |s| ==> s[q..q + 2][1] == s[q + 1]; }
    assert q + 4 <= |s| ==> s[q..q + 2] != "u/" by {
      assert q + 4 <= |s| ==> s[q..q + 2][1] == s[q + 1];
    }
    assert !OccursAt(s, "embed/", q) by { assert q + 6 <= |s| ==> s[q..q + 6][5] == s[q + 5]; }
    assert !OccursAt(s, "watch?v=", q) by { assert q + 8 <= |s| ==> s[q..q + 8][7] == s[q + 7]; }
    assert !OccursAt(s, "&v=", q) by { assert q + 3 <= |s| ==> s[q..q + 3][0] == s[q]; }
    assert YouTubeMarkerAfterDot(s, q).None?;
  }

  /** Below a stretch where no marker starts the search just carries on. */
  lemma {:induction false} LastMarkerSkipNone(s: string, lo: nat, hi: nat)
    requires lo <= hi <= |s|
    requires forall q :: lo < q <= hi ==> YouTubeMarkerAt(s, q).None?
    ensures LastMarker(s, hi) == LastMarker(s, lo)
    decreases hi
  {
    if lo < hi {
      LastMarkerStep(s, hi);
      LastMarkerSkipNone(s, lo, hi - 1);
    }
  }

  /** A valid id: eleven characters, none of `#&?/=` (YouTube ids use
      letters, digits, `-` and `_`). */
  predicate IdChars(id: string) {
    |id| == 11 && forall i :: 0 <= i < 11 ==> NotIdStop(id[i]) && id[i] != '/' && id[i] != '='
  }

  /** No marker starts inside an id at the end of the text. */
  lemma NoMarkerInId(s: string, k: nat, id: string)
    requires IdChars(id) && k + 11 == |s| && s[k..] == id
    ensures forall q :: k <= q <= |s| ==> YouTubeMarkerAt(s, q).None?
  {
    assert forall i :: k <= i < |s| ==> s[i] == id[i - k];
    forall q | k <= q <= |s| ensures YouTubeMarkerAt(s, q).None? {
      NoMarkerWithoutSlash(s, q);
    }
  }

  /** The id found after a marker ending at `k`, when the marker is the last
      one and only the id follows. */
  lemma IdAfterMarker(s: string, k: nat, id: string)
    requires IdChars(id) && k + 11 == |s| && s[k..] == id
    requires LastMarker(s, |s|).Some? && LastMarker(s, |s|).value.0 + LastMarker(s, |s|).value.1 == k
    ensures YouTubeVideoId(s) == Some(id)
  {
    forall i | k <= i < k + 11 ensures NotIdStop(s[i]) {
      assert s[i] == s[k..][i - k];
    }
    assert IdAt(s, k);
    var r := YouTubeVideoId(s);
    assert OccursAt(s, r.value, k);
    assert s[k..k + 11] == s[k..];
  }

  /** Characters at which some alternative of the marker can start. */
  predicate MarkerStart(c: char) {
    c == 'y' || c == 'v' || c == 'u' || c == 'e' || c == 'w' || c == '&'
  }

  lemma MarkerNeedsStart(s: string, q: nat)
    requires q < |s| ==> !MarkerStart(s[q])
    ensures YouTubeMarkerAt(s, q).None?
  {
    assert q + 5 <= |s| ==> s[q..q + 5][0] == s[q];
    assert q + 2 <= |s| ==> s[q..q + 2][0] == s[q];
    assert q + 6 <= |s| ==> s[q..q + 6][0] == s[q];
    assert q + 8 <= |s| ==> s[q..q + 8][0] == s[q];
    assert q + 3 <= |s| ==> s[q..q + 3][0] == s[q];
  }

  /** A `u` not followed by `/` and an `e` not followed by `m` start nothing. */
  lemma NoMarkerBefore(s: string, q: nat)
    requires q + 1 < |s|
    requires s[q] != 'y' && s[q] != 'v' && s[q] != 'w' && s[q] != '&'
    requires s[q] == 'u' ==> s[q + 1] != '/'
    requires s[q] == 'e' ==> s[q + 1] != 'm'
    ensures YouTubeMarkerAt(s, q).None?
  {
    assert q + 5 <= |s| ==> s[q..q + 5] != "youtu" by {
      assert q + 5 <= |s| ==> s[q..q + 5][0] == s[q];
    }
    assert !OccursAt(s, "v/", q) by { assert q + 2 <= |s| ==> s[q..q + 2][0] == s[q]; }
    assert q + 4 <= |s| ==> s[q..q + 2] != "u/" by {
      assert q + 4 <= |s| ==> s[q..q + 2][0] == s[q] && s[q..q + 2][1] == s[q + 1];
    }
    assert !OccursAt(s, "embed/", q) by {
      assert q + 6 <= |s| ==> s[q..q + 6][0] == s[q] && s[q..q + 6][1] == s[q + 1];
    }
    assert !OccursAt(s, "watch?v=", q) by { assert q + 8 <= |s| ==> s[q..q + 8][0] == s[q]; }
    assert !OccursAt(s, "&v=", q) by { assert q + 3 <= |s| ==> s[q..q + 3][0] == s[q]; }
    assert YouTubeMarkerAfterDot(s, q).None?;
  }

  /** Inside `youtu.be/` no position after the first starts a marker. */
  lemma ShortLinkInside(s: string, n: nat)
    requires n + 9 <= |s|
    requires s[n + 1] == 'o' && s[n + 2] == 'u' && s[n + 3] == 't' && s[n + 4] == 'u'
    requires s[n + 5] == '.' && s[n + 6] == 'b' && s[n + 7] == 'e' && s[n + 8] == '/'
    ensures LastMarker(s, n + 8) == LastMarker(s, n)
  {
    MarkerNeedsStart(s, n + 8);
    LastMarkerStep(s, n + 8);
    NoMarkerBefore(s, n + 7);
    LastMarkerStep(s, n + 7);
    MarkerNeedsStart(s, n + 6);
    LastMarkerStep(s, n + 6);
    MarkerNeedsStart(s, n + 5);
    LastMarkerStep(s, n + 5);
    NoMarkerBefore(s, n + 4);
    LastMarkerStep(s, n + 4);
    MarkerNeedsStart(s, n + 3);
    LastMarkerStep(s, n + 3);
    NoMarkerBefore(s, n + 2);
    LastMarkerStep(s, n + 2);
    MarkerNeedsStart(s, n + 1);
    LastMarkerStep(s, n + 1);
  }

  lemma LastMarkerStep(s: string, hi: nat)
    requires 0 < hi <= |s| && YouTubeMarkerAt(s, hi).None?
    ensures LastMarker(s, hi) == LastMarker(s, hi - 1)
  {
  }

  /** Inside `youtu.be/` only its own start is a marker. */
  lemma ShortLinkMarker(pre: string, rest: string)
    requires SameLine(pre + "youtu.be/" + rest, |pre|)
    ensures var r := LastMarker(pre + "youtu.be/" + rest, |pre| + 8);
      r.Some? && r.value.0 == |pre| && r.value.1 == 9
  {
    var s := pre + "youtu.be/" + rest;
    assert s[|pre|..|pre| + 9] == "youtu.be/";
    ShortLinkMarkerAt(s, |pre|);
  }

  lemma ShortLinkMarkerAt(s: string, n: nat)
    requires n + 9 <= |s| && s[n..n + 9] == "youtu.be/" && SameLine(s, n)
    ensures var r := LastMarker(s, n + 8);
      r.Some? && r.value.0 == n && r.value.1 == 9
  {
    var m := s[n..n + 9];
    assert s[n + 1] == m[1] && s[n + 2] == m[2] && s[n + 3] == m[3] && s[n + 4] == m[4];
    assert s[n + 5] == m[5] && s[n + 6] == m[6] && s[n + 7] == m[7] && s[n + 8] == m[8];
    ShortLinkInside(s, n);
    assert YouTubeMarkerAt(s, n) == Some(9) by {
      assert s[n..n + 5] == m[..5] == "youtu";
      assert s[n + 6..n + 8] == m[6..8] == "be";
    }
  }

  /** A short link: the id after `youtu.be/` is found whatever comes before,
      so long as it is on the same line. */
  lemma YouTubeShortLink(pre: string, id: string)
    requires forall i :: 0 <= i < |pre| ==> !IsLineTerminator(pre[i])
    requires IdChars(id)
    ensures YouTubeVideoId(pre + "youtu.be/" + id) == Some(id)
  {
    var s := pre + "youtu.be/" + id;
    var n := |pre|;
    assert s[n + 9..] == id;
    assert SameLine(s, n) by { assert forall i :: 0 <= i < n ==> s[i] == pre[i]; }
    NoMarkerInId(s, n + 9, id);
    LastMarkerSkipNone(s, n + 8, |s|);
    ShortLinkMarker(pre, id);
    IdAfterMarker(s, n + 9, id);
  }

  /** A watch link: the id after `watch?v=` is found whatever comes before,
      so long as it is on the same line. */
  lemma YouTubeWatchLink(pre: string, id: string)
    requires forall i :: 0 <= i < |pre| ==> !IsLineTerminator(pre[i])
    requires IdChars(id)
    ensures YouTubeVideoId(pre + "watch?v=" + id) == Some(id)
  {
    var s := pre + "watch?v=" + id;
    var n := |pre|;
    assert s[n + 8..] == id;
    assert SameLine(s, n) by { assert forall i :: 0 <= i < n ==> s[i] == pre[i]; }
    NoMarkerInId(s, n + 8, id);
    WatchInside(s, n);
    LastMarkerSkipNone(s, n, |s|);
    assert YouTubeMarkerAt(s, n) == Some(8) by {
      assert s[n..n + 8] == "watch?v=";
      assert s[n] == 'w';
      assert s[n..n + 5] != "youtu" by { assert s[n..n + 5][0] == 'w'; }
      assert !OccursAt(s, "v/", n) by { assert s[n..n + 2][0] == 'w'; }
      assert s[n..n + 2] != "u/" by { assert s[n..n + 2][0] == 'w'; }
      assert !OccursAt(s, "embed/", n) by { assert s[n..n + 6][0] == 'w'; }
    }
    IdAfterMarker(s, n + 8, id);
  }

  /** Inside `watch?v=` no position after the first starts a marker. */
  lemma WatchInside(s: string, n: nat)
    requires n + 8 <= |s| && s[n..n + 8] == "watch?v="
    ensures forall q :: n < q < n + 8 ==> YouTubeMarkerAt(s, q).None?
  {
    assert forall q :: n <= q < n + 8 ==> s[q] == s[n..n + 8][q - n];
    forall q | n < q < n + 8 && q != n + 6 ensures YouTubeMarkerAt(s, q).None? {
      MarkerNeedsStart(s, q);
    }
    VBeforeEquals(s, n + 6);
  }

  /** A `v` followed by `=` is not the `v/` alternative. */
  lemma VBeforeEquals(s: string, q: nat)
    requires q + 1 < |s| && s[q] == 'v' && s[q + 1] == '='
    ensures YouTubeMarkerAt(s, q).None?
  {
    assert !OccursAt(s, "v/", q) by { assert q + 2 <= |s| ==> s[q..q + 2][1] == s[q + 1]; }
    assert q + 5 <= |s| ==> s[q..q + 5] != "youtu" by { assert q + 5 <= |s| ==> s[q..q + 5][0] == s[q]; }
    assert q + 4 <= |s| ==> s[q..q + 2] != "u/" by { assert q + 4 <= |s| ==> s[q..q + 2][0] == s[q]; }
    assert !OccursAt(s, "embed/", q) by { assert q + 6 <= |s| ==> s[q..q + 6][0] == s[q]; }
    assert !OccursAt(s, "watch?v=", q) by { assert q + 8 <= |s| ==> s[q..q + 8][0] == s[q]; }
    assert !OccursAt(s, "&v=", q) by { assert q + 3 <= |s| ==> s[q..q + 3][0] == s[q]; }
    assert YouTubeMarkerAfterDot(s, q).None?;
  }

  // ---------------------------------------------------------------------------
  // getVimeoVideoId
  // ---------------------------------------------------------------------------

  /** `vimeo`, matched case-insensitively at `q`. */
  predicate VimeoAt(s: string, q: nat) {
    q + 5 <= |s| && Lower(s[q..q + 5]) == "vimeo"
  }

  /** A `/` followed by a digit at `e`. */
  predicate SlashDigitAt(s: string, e: nat) {
    e + 1 < |s| && s[e] == '/' && IsDigit(s[e + 1])
  }

  /** The `.*` between `vimeo` and the `/` cannot cross a line terminator. */
  predicate Reachable(s: string, q: nat, e: nat)
    requires q + 5 <= e <= |s|
  {
    forall i :: q + 5 <= i < e ==> !IsLineTerminator(s[i])
  }

  /** The greedy `.*`: the last slash-digit reachable from `vimeo` at `q`. */
  function LastSlash(s: string, q: nat, hi: nat): (r: Option<nat>)
    requires q + 5 <= hi <= |s|
    ensures r.Some? ==> q + 5 <= r.value <= hi && Reachable(s, q, r.value) && SlashDigitAt(s, r.value)
    ensures r.Some? ==> forall e :: r.value < e <= hi && Reachable(s, q, e) ==> !SlashDigitAt(s, e)
    ensures r.None? ==> forall e :: q + 5 <= e <= hi && Reachable(s, q, e) ==> !SlashDigitAt(s, e)
    decreases hi
  {
    if Reachable(s, q, hi) && SlashDigitAt(s, hi) then Some(hi)
    else if hi == q + 5 then None
    else LastSlash(s, q, hi - 1)
  }

  /** `vimeo` at `q` with a slash-digit reachable after it: the pattern
      matches from `q`. */
  predicate VimeoHit(s: string, q: nat) {
    VimeoAt(s, q) && LastSlash(s, q, |s|).Some?
  }

  /** The pattern matches from no position in `q` up to, but not including, `j`. */
  predicate NoVimeoHitBetween(s: string, q: nat, j: nat) {
    forall p :: q <= p < j ==> !VimeoHit(s, p)
  }

  /** The leftmost `vimeo` after which a slash-digit is reachable, and that slash. */
  function VimeoMatch(s: string, q: nat): (r: Option<nat>)
    requires q <= |s|
    ensures r.Some? ==> r.value + 1 < |s| && SlashDigitAt(s, r.value)
    decreases |s| - q
  {
    if VimeoHit(s, q) then LastSlash(s, q, |s|)
    else if q == |s| then None
    else VimeoMatch(s, q + 1)
  }

  /** The match is made from the leftmost `vimeo` that reaches a slash-digit,
      at the last one it reaches; there is none exactly when no `vimeo` from
      `q` on reaches one. */
  lemma {:induction false} VimeoMatchLeftmost(s: string, q: nat)
    requires q <= |s|
    ensures var r := VimeoMatch(s, q);
      && (r.Some? ==> exists j :: q <= j <= |s| && VimeoHit(s, j) && LastSlash(s, j, |s|) == r
                                  && NoVimeoHitBetween(s, q, j))
      && (r.None? ==> NoVimeoHitBetween(s, q, |s| + 1))
    decreases |s| - q
  {
    if VimeoHit(s, q) {
      assert NoVimeoHitBetween(s, q, q);
    } else if q == |s| {
      assert NoVimeoHitBetween(s, q, |s| + 1) by {
        forall p | q <= p < |s| + 1 ensures !VimeoHit(s, p) { assert p == q; }
      }
    } else {
      VimeoMatchLeftmost(s, q + 1);
      VimeoLeftmostStep(s, q, VimeoMatch(s, q + 1));
    }
  }

  /** A leftmost match from `q + 1` is a leftmost match from `q` when the
      pattern does not match from `q`. */
  lemma VimeoLeftmostStep(s: string, q: nat, r: Option<nat>)
    requires q < |s| && !VimeoHit(s, q)
    requires r.Some? ==> exists j :: q + 1 <= j <= |s| && VimeoHit(s, j) && LastSlash(s, j, |s|) == r
                                     && NoVimeoHitBetween(s, q + 1, j)
    requires r.None? ==> NoVimeoHitBetween(s, q + 1, |s| + 1)
    ensures r.Some? ==> exists j :: q <= j <= |s| && VimeoHit(s, j) && LastSlash(s, j, |s|) == r
                                    && NoVimeoHitBetween(s, q, j)
    ensures r.None? ==> NoVimeoHitBetween(s, q, |s| + 1)
  {
    if r.Some? {
      var j :| q + 1 <= j <= |s| && VimeoHit(s, j) && LastSlash(s, j, |s|) == r && NoVimeoHitBetween(s, q + 1, j);
      assert NoVimeoHitBetween(s, q, j);
    }
  }

  /** `d` is the whole run of digits that starts at `k`. */
  predicate DigitRunAt(s: string, k: nat, d: string) {
    && d != [] && k + |d| <= |s|
    && (forall i :: 0 <= i < |d| ==> s[k + i] == d[i] && IsDigit(d[i]))
    && (k + |d| == |s| || !IsDigit(s[k + |d|]))
  }

  /** `getVimeoVideoId(url)`: the digits after the slash. An id is found
      exactly when some `vimeo` reaches a slash followed by a digit. */
  function VimeoVideoId(url: string): (r: Option<string>)
    ensures r.Some? ==> r.value != [] && forall i :: 0 <= i < |r.value| ==> IsDigit(r.value[i])
    ensures r.None? ==> forall q: nat :: q <= |url| && VimeoAt(url, q) ==> LastSlash(url, q, |url|).None?
  {
    match VimeoMatch(url, 0)
    case None =>
      VimeoMatchLeftmost(url, 0);
      forall q: nat | q <= |url|
        ensures !VimeoHit(url, q) && (VimeoAt(url, q) ==> LastSlash(url, q, |url|).None?)
      {
        assert 0 <= q < |url| + 1;
      }
      None
    case Some(e) => Some(url[e + 1..SpanEnd(url, e + 1, IsDigit)])
  }

  /** An id is found exactly when some `vimeo` reaches a slash followed by a
      digit. */
  lemma VimeoIdFound(url: string)
    ensures VimeoVideoId(url).Some? <==> exists q: nat :: q <= |url| && VimeoHit(url, q)
  {
    VimeoMatchLeftmost(url, 0);
    if VimeoMatch(url, 0).None? {
      forall q: nat | q <= |url| ensures !VimeoHit(url, q) {
        assert 0 <= q < |url| + 1;
      }
    }
  }

  /** `d` is the whole run of digits after the last slash reachable from the
      leftmost `vimeo` that reaches one. */
  predicate LeftmostDigitRun(url: string, d: string) {
    exists q: nat :: q <= |url| && VimeoHit(url, q) && NoVimeoHitBetween(url, 0, q)
                     && DigitRunAt(url, LastSlash(url, q, |url|).value + 1, d)
  }

  /** The id found is the whole run of digits after the last slash reachable
      from the leftmost `vimeo` that reaches one. */
  lemma VimeoIdIsDigitRun(url: string)
    ensures VimeoVideoId(url).Some? ==> LeftmostDigitRun(url, VimeoVideoId(url).value)
  {
    if VimeoMatch(url, 0).Some? {
      var e := VimeoMatch(url, 0).value;
      VimeoIdOfSome(url, e);
      MatchIsLeftmostRun(url, e);
    }
  }

  lemma MatchIsLeftmostRun(url: string, e: nat)
    requires VimeoMatch(url, 0) == Some(e)
    ensures LeftmostDigitRun(url, url[e + 1..SpanEnd(url, e + 1, IsDigit)])
  {
    VimeoMatchLeftmost(url, 0);
    var q: nat :| q <= |url| && VimeoHit(url, q) && LastSlash(url, q, |url|) == Some(e)
                  && NoVimeoHitBetween(url, 0, q);
    DigitRunOfSpan(url, e + 1);
    LeftmostRunWitness(url, q, e, url[e + 1..SpanEnd(url, e + 1, IsDigit)]);
  }

  lemma LeftmostRunWitness(url: string, q: nat, e: nat, d: string)
    requires q <= |url| && VimeoHit(url, q) && NoVimeoHitBetween(url, 0, q)
    requires LastSlash(url, q, |url|) == Some(e) && DigitRunAt(url, e + 1, d)
    ensures LeftmostDigitRun(url, d)
  {
  }

  lemma VimeoIdOfSome(url: string, e: nat)
    requires VimeoMatch(url, 0) == Some(e)
    ensures VimeoVideoId(url) == Some(url[e + 1..SpanEnd(url, e + 1, IsDigit)])
  {
  }

  /** The span of digits from `k`, when `k` holds a digit, is a whole run. */
  lemma DigitRunOfSpan(s: string, k: nat)
    requires k < |s| && IsDigit(s[k])
    ensures DigitRunAt(s, k, s[k..SpanEnd(s, k, IsDigit)])
  {
  }

  lemma {:induction false} VimeoMatchSkip(s: string, q: nat, hi: nat)
    requires q <= hi <= |s|
    requires forall p :: q <= p < hi ==> s[p] != 'v' && s[p] != 'V'
    ensures VimeoMatch(s, q) == VimeoMatch(s, hi)
    decreases hi - q
  {
    if q < hi {
      assert !VimeoAt(s, q) by {
        if q + 5 <= |s| {
          assert Lower(s[q..q + 5])[0] == LowerChar(s[q]);
        }
      }
      VimeoMatchSkip(s, q + 1, hi);
    }
  }

  lemma {:induction false} LastSlashSkip(s: string, q: nat, lo: nat, hi: nat)
    requires q + 5 <= lo <= hi <= |s|
    requires forall e :: lo < e <= hi ==> !SlashDigitAt(s, e)
    ensures LastSlash(s, q, hi) == LastSlash(s, q, lo)
    decreases hi
  {
    if lo < hi {
      LastSlashSkip(s, q, lo, hi - 1);
    }
  }

  lemma VimeoLinkMatch(s: string, n: nat)
    requires OccursAt(s, "vimeo.com/", n) && n + 10 < |s|
    requires forall i :: n + 10 <= i < |s| ==> IsDigit(s[i])
    ensures VimeoMatch(s, n) == Some(n + 9)
  {
    var m := s[n..n + 10];
    assert m == "vimeo.com/";
    assert forall i :: 0 <= i < 10 ==> s[n + i] == m[i];
    assert VimeoAt(s, n) by {
      assert s[n..n + 5] == m[..5] == "vimeo";
      LowerOfLetters("vimeo");
    }
    LastSlashSkip(s, n, n + 9, |s|);
    assert Reachable(s, n, n + 9);
    assert SlashDigitAt(s, n + 9);
  }

  /** A plain video link yields its number, whatever comes before it, so long
      as no `v` does. */
  lemma VimeoPlainLink(pre: string, digits: string)
    requires forall i :: 0 <= i < |pre| ==> pre[i] != 'v' && pre[i] != 'V'
    requires digits != [] && forall i :: 0 <= i < |digits| ==> IsDigit(digits[i])
    ensures VimeoVideoId(pre + "vimeo.com/" + digits) == Some(digits)
  {
    var s := pre + "vimeo.com/" + digits;
    var n := |pre|;
    assert s[n..n + 10] == "vimeo.com/";
    assert s[n + 10..] == digits;
    assert forall p :: 0 <= p < n ==> s[p] == pre[p];
    VimeoMatchSkip(s, 0, n);
    assert forall i :: n + 10 <= i < |s| ==> s[i] == digits[i - n - 10];
    VimeoLinkMatch(s, n);
    assert VimeoMatch(s, 0) == Some(n + 9);
    VimeoDigitsToEnd(s, n + 9);
  }

  /** A match whose slash is followed by digits up to the end yields those
      digits. */
  lemma VimeoDigitsToEnd(s: string, e: nat)
    requires VimeoMatch(s, 0) == Some(e) && e + 1 < |s|
    requires forall i :: e + 1 <= i < |s| ==> IsDigit(s[i])
    ensures VimeoVideoId(s) == Some(s[e + 1..])
  {
    SpanEndExact(s, e + 1, |s|, IsDigit);
    VimeoIdOfSome(s, e);
    SliceToEnd(s, e + 1, SpanEnd(s, e + 1, IsDigit));
  }

  lemma SliceToEnd(s: string, a: nat, b: nat)
    requires a <= b == |s|
    ensures s[a..b] == s[a..]
  {
  }
}
