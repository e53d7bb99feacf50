/** The cleanup rules `parse_metadata` applies to what each labelled pattern
    captured (`match.group(1)`), one function per field: `None` in stands for
    "the pattern did not match", `None` out for "the field is not stored". */
module FieldRules {
  import opened Wrappers
  import opened Text

  /** The three values the scraper treats as "no value". */
  predicate IsPlaceholder(s: string) {
    s == "" || s == "-" || s == "None"
  }

  // Boundary keywords of each `re.split(..., maxsplit=1)` call; the whitespace
  // alternative (`\s{3,}`, `\s{2,}` or none) is the `run` passed alongside.
  const CpuStops: seq<string> := ["Package ID", "SHA1", "Signature"]
  const DeveloperStops: seq<string> := ["Organization", "Local"]
  const OrganizationStops: seq<string> := ["Local", "Country"]
  const LocalStops: seq<string> := ["Country", "State"]
  const CountryStops: seq<string> := ["State", "Local"]
  const StateStops: seq<string> :=
    ["What", "How", "Can", "Why", "Where", "Package ID", "SHA1", "FAQ", "Download",
     "Ratings", "About", "Description", "?", "Latest"]

  /** The phrases that mark a state/city value as page text rather than a place. */
  const QuestionPhrases: seq<string> :=
    ["what is", "how to", "can i", "download", "app?", "facebook app", "whatsapp"]

  const SupportedSuffix: string := "SUPPORTED"

  /** `re.split(stops, text.strip(), maxsplit=1)[0].strip()`: the captured
      text cut at its first boundary and trimmed. The result is trimmed,
      holds no boundary at all, and is the piece of the capture that starts
      at its first non-whitespace character. */
  function CleanLine(text: string, stops: seq<string>, run: nat): (r: string)
    ensures Trimmed(r)
    ensures BoundaryFree(r, stops, run)
    ensures LeadingSpaces(text) + |r| <= |text|
    ensures r == text[LeadingSpaces(text)..LeadingSpaces(text) + |r|]
    ensures var t := Strip(text); var k := BoundaryIndex(t, stops, run, 0);
      |r| <= k && r == t[..|r|] && forall j | |r| <= j < k :: IsSpace(t[j])
  {
    var head := BeforeBoundary(Strip(text), stops, run);
    StripKeepsBoundaryFree(head, stops, run);
    HeadOfStripped(text, head);
    StrippedPrefix(Strip(text), |head|);
    Strip(head)
  }

  /** Stripping a prefix of trimmed text removes whitespace from its end only. */
  lemma StrippedPrefix(t: string, k: nat)
    requires k <= |t| && Trimmed(t)
    ensures var r := Strip(t[..k]);
      |r| <= k && r == t[..|r|] && forall j | |r| <= j < k :: IsSpace(t[j])
  {
    var head := t[..k];
    var r := Strip(head);
    assert LeadingSpaces(head) == 0 by {
      if head != [] { assert head[0] == t[0]; }
    }
    forall j | |r| <= j < k ensures IsSpace(t[j]) {
      assert t[j] == head[j];
    }
    assert r == head[..|r|];
  }

  /** A prefix of the stripped text, stripped again, is the piece of the
      text that starts at its first non-whitespace character. */
  lemma HeadOfStripped(text: string, head: string)
    requires |head| <= |Strip(text)| && head == Strip(text)[..|head|]
    ensures LeadingSpaces(text) + |Strip(head)| <= |text|
    ensures Strip(head) == text[LeadingSpaces(text)..LeadingSpaces(text) + |Strip(head)|]
  {
    var stripped, n := Strip(text), LeadingSpaces(text);
    var r := Strip(head);
    assert LeadingSpaces(head) == 0 by {
      if head != [] { assert head[0] == stripped[0]; }
    }
    forall i | 0 <= i < |r| ensures r[i] == text[n + i] {
      assert r[i] == head[i] && head[i] == stripped[i];
    }
  }

  // ---------------------------------------------------------------------------
  // Min screen, SHA1 signature, package id
  // ---------------------------------------------------------------------------

  /** `group(1).upper().removesuffix('SUPPORTED')`: always stored when the
      pattern matched, even when nothing is left. */
  function MinScreenRule(g: Option<string>): (r: Option<string>)
    ensures r.Some? <==> g.Some?
    ensures r.Some? ==> forall i | 0 <= i < |r.value| :: !IsAsciiLower(r.value[i])
    ensures r.Some? && EndsWith(Upper(g.value), SupportedSuffix) ==> r.value + SupportedSuffix == Upper(g.value)
    ensures r.Some? && !EndsWith(Upper(g.value), SupportedSuffix) ==> r.value == Upper(g.value)
  {
    match g
    case None => None
    case Some(text) => Some(RemoveSuffix(Upper(text), SupportedSuffix))
  }

  /** A character of the capture class `[A-F0-9:]` under `re.IGNORECASE`. */
  predicate IsHexOrColon(c: char) {
    IsDigit(c) || 'A' <= c <= 'F' || 'a' <= c <= 'f' || c == ':'
  }

  /** A SHA1 fingerprint as the service reports it. */
  predicate IsUpperFingerprint(s: string) {
    |s| == 59 && forall i | 0 <= i < |s| :: IsDigit(s[i]) || 'A' <= s[i] <= 'F' || s[i] == ':'
  }

  /** `group(1).upper()`. A capture of the shape the pattern admits becomes a
      59-character upper-case fingerprint. */
  function Sha1Rule(g: Option<string>): (r: Option<string>)
    ensures r.Some? <==> g.Some?
    ensures r.Some? ==> r.value == Upper(g.value)
    ensures r.Some? && |g.value| == 59 && (forall i | 0 <= i < 59 :: IsHexOrColon(g.value[i])) ==>
      IsUpperFingerprint(r.value)
  {
    match g
    case None => None
    case Some(text) => Some(Upper(text))
  }

  /** `package_id` is seeded with the requested name and overwritten only by
      a captured value equal to it, so it is always the requested name. */
  function PackageIdRule(seeded: string, g: Option<string>): (r: string)
    ensures r == seeded
  {
    if g.Some? && g.value == seeded then g.value else seeded
  }

  // ---------------------------------------------------------------------------
  // Supported CPU
  // ---------------------------------------------------------------------------

  /** Strip, cut at `Package ID|SHA1|Signature|\s{3,}`, strip, collapse
      whitespace runs to one space, and keep the result unless it is a
      placeholder. A stored value is trimmed, single-spaced and holds neither
      `SHA1` nor `Signature`. */
  function CpuRule(g: Option<string>): (r: Option<string>)
    ensures r.Some? ==> g.Some? && !IsPlaceholder(r.value)
    ensures r.Some? ==> r.value == Collapse(CleanLine(g.value, CpuStops, 3))
    ensures r.Some? ==> Trimmed(r.value) && SingleSpaced(r.value)
    ensures r.Some? ==> !Contains(r.value, "SHA1") && !Contains(r.value, "Signature")
    ensures g.Some? && !IsPlaceholder(Collapse(CleanLine(g.value, CpuStops, 3))) ==> r.Some?
  {
    match g
    case None => None
    case Some(text) =>
      var cut := CleanLine(text, CpuStops, 3);
      var v := Collapse(cut);
      if !IsPlaceholder(v) then
        CollapsedCpuShape(cut);
        Some(v)
      else None
  }

  /** A cleaned CPU value, once collapsed, is trimmed, single-spaced and free
      of `SHA1` and `Signature`. */
  lemma CollapsedCpuShape(cut: string)
    requires Trimmed(cut) && BoundaryFree(cut, CpuStops, 3)
    ensures var v := Collapse(cut);
      && Trimmed(v) && SingleSpaced(v)
      && !Contains(v, "SHA1") && !Contains(v, "Signature")
  {
    BoundaryFreeMeans(cut, CpuStops, 3);
    CollapseSingleSpaced(cut);
    CollapseEnds(cut);
    CollapseKeepsWordOut(cut, "SHA1");
    CollapseKeepsWordOut(cut, "Signature");
  }

  /** The cut runs before whitespace is collapsed, so a `Package ID` label
      written with a tab survives the cut and comes out as `Package ID`. */
  lemma CpuRuleMayKeepPackageId(text: string)
    requires text == "Package\tID"
    ensures CpuRule(Some(text)) == Some("Package ID")
  {
    TabbedLabelIsNotCut(text);
    TabbedLabelCollapses(text);
  }

  lemma TabbedLabelIsNotCut(text: string)
    requires text == "Package\tID"
    ensures CleanLine(text, CpuStops, 3) == text
  {
    assert Strip(text) == text by {
      assert !IsSpace(text[0]) && !IsSpace(text[|text| - 1]);
      StripOfTrimmed(text);
    }
    forall i | 0 <= i < |text| ensures !BoundaryAt(text, i, CpuStops, 3) {
      TabbedLabelHasNoBoundaryAt(text, i);
    }
    assert BoundaryIndex(text, CpuStops, 3, 0) == |text|;
    assert text[..|text|] == text;
  }

  lemma TabbedLabelHasNoBoundaryAt(text: string, i: nat)
    requires text == "Package\tID"
    requires i < |text|
    ensures !BoundaryAt(text, i, CpuStops, 3)
  {
    assert text[7] != "Package ID"[7];
    assert !WordAt(text, i, "Package ID");
    assert text[i] != 'S';
    assert !WordAt(text, i, "SHA1") by {
      if i + 4 <= |text| { assert text[i..i + 4][0] == text[i]; }
    }
    assert !WordAt(text, i, "Signature") by {
      if i + 9 <= |text| { assert text[i..i + 9][0] == text[i]; }
    }
    assert !SpaceRunAt(text, i, 3) by {
      if i + 3 <= |text| { assert !IsSpace(text[i]) || !IsSpace(text[i + 1]); }
    }
  }

  lemma TabbedLabelCollapses(text: string)
    requires text == "Package\tID"
    ensures Collapse(text) == "Package ID"
  {
    var word, rest := text[..7], text[7..];
    assert text == word + rest;
    CollapseKeepsWord(word, rest);
    assert LeadingSpaces(rest) == 1;
    CollapseStep(rest);
    assert rest[1..] == rest[1..] + [];
    CollapseKeepsWord(rest[1..], []);
  }

  // ---------------------------------------------------------------------------
  // Developer, organization, locality
  // ---------------------------------------------------------------------------

  /** Strip, cut at the field's keywords or at two whitespace characters in a
      row, strip, and keep the result unless it is a placeholder. */
  function FreeTextRule(g: Option<string>, stops: seq<string>): (r: Option<string>)
    ensures r.Some? ==> g.Some? && !IsPlaceholder(r.value)
    ensures r.Some? ==> r.value == CleanLine(g.value, stops, 2)
    ensures r.Some? ==> Trimmed(r.value) && BoundaryFree(r.value, stops, 2)
    ensures g.Some? && !IsPlaceholder(CleanLine(g.value, stops, 2)) ==> r.Some?
  {
    match g
    case None => None
    case Some(text) =>
      var v := CleanLine(text, stops, 2);
      if !IsPlaceholder(v) then Some(v) else None
  }

  /** No run of two whitespace characters anywhere in `s`. */
  predicate NoDoubleSpace(s: string) {
    forall i | 0 <= i <= |s| :: !SpaceRunAt(s, i, 2)
  }

  /** Developer (CN): stops at `Organization`, `Local` or a double space. */
  function DeveloperRule(g: Option<string>): (r: Option<string>)
    ensures r.Some? ==> !IsPlaceholder(r.value) && Trimmed(r.value) && NoDoubleSpace(r.value)
    ensures r.Some? ==> !Contains(r.value, "Organization") && !Contains(r.value, "Local")
    ensures g.Some? && !IsPlaceholder(CleanLine(g.value, DeveloperStops, 2)) ==> r.Some?
    ensures r.Some? ==> g.Some? && r.value == CleanLine(g.value, DeveloperStops, 2)
  {
    var r := FreeTextRule(g, DeveloperStops);
    if r.Some? then BoundaryFreeMeans(r.value, DeveloperStops, 2); r else r
  }

  /** Organization (O): stops at `Local`, `Country` or a double space. */
  function OrganizationRule(g: Option<string>): (r: Option<string>)
    ensures r.Some? ==> !IsPlaceholder(r.value) && Trimmed(r.value) && NoDoubleSpace(r.value)
    ensures r.Some? ==> !Contains(r.value, "Local") && !Contains(r.value, "Country")
    ensures g.Some? && !IsPlaceholder(CleanLine(g.value, OrganizationStops, 2)) ==> r.Some?
    ensures r.Some? ==> g.Some? && r.value == CleanLine(g.value, OrganizationStops, 2)
  {
    var r := FreeTextRule(g, OrganizationStops);
    if r.Some? then BoundaryFreeMeans(r.value, OrganizationStops, 2); r else r
  }

  /** Local (L): stops at `Country`, `State` or a double space. */
  function LocalRule(g: Option<string>): (r: Option<string>)
    ensures r.Some? ==> !IsPlaceholder(r.value) && Trimmed(r.value) && NoDoubleSpace(r.value)
    ensures r.Some? ==> !Contains(r.value, "Country") && !Contains(r.value, "State")
    ensures g.Some? && !IsPlaceholder(CleanLine(g.value, LocalStops, 2)) ==> r.Some?
    ensures r.Some? ==> g.Some? && r.value == CleanLine(g.value, LocalStops, 2)
  {
    var r := FreeTextRule(g, LocalStops);
    if r.Some? then BoundaryFreeMeans(r.value, LocalStops, 2); r else r
  }

  // ---------------------------------------------------------------------------
  // Country
  // ---------------------------------------------------------------------------

  /** `\b([A-Z]{2})\b` (case-sensitive) matches at `i`: two capitals with no
      word character on either side. */
  predicate CodeTokenAt(s: string, i: nat) {
    && i + 2 <= |s|
    && IsAsciiUpper(s[i]) && IsAsciiUpper(s[i + 1])
    && (i == 0 || !IsWordChar(s[i - 1]))
    && (i + 2 == |s| || !IsWordChar(s[i + 2]))
  }

  /** The leftmost standalone two-capital token at or after `from`, or `|s|`. */
  function FirstCodeToken(s: string, from: nat): (k: nat)
    requires from <= |s|
    ensures from <= k <= |s|
    ensures k < |s| ==> CodeTokenAt(s, k)
    ensures forall j | from <= j < k :: !CodeTokenAt(s, j)
    decreases |s| - from
  {
    if from == |s| then |s|
    else if CodeTokenAt(s, from) then from
    else FirstCodeToken(s, from + 1)
  }

  /** The country rule on a capture: clean it (cut at `State`, `Local` or a
      double space); two letters are upper-cased; otherwise a value that is
      not a placeholder yields its first standalone two-capital token, or
      itself when it has none. */
  function CountryRule(g: Option<string>): (r: Option<string>)
    ensures r.Some? ==> g.Some? && !IsPlaceholder(r.value) && Trimmed(r.value)
    ensures g.Some? && !IsPlaceholder(CleanLine(g.value, CountryStops, 2)) ==> r.Some?
    ensures g.Some? && IsPlaceholder(CleanLine(g.value, CountryStops, 2)) ==> r.None?
  {
    match g
    case None => None
    case Some(text) =>
      var c := CleanLine(text, CountryStops, 2);
      if |c| == 2 && IsAlpha(c) then Some(Upper(c))
      else if !IsPlaceholder(c) then
        var k := FirstCodeToken(c, 0);
        if k < |c| then Some(c[k..k + 2]) else Some(c)
      else None
  }

  /** The three outcomes of the country rule, with the token described by
      where it sits rather than by the search that finds it. */
  lemma CountryRuleCases(text: string, k: nat)
    ensures var c := CleanLine(text, CountryStops, 2);
      && (|c| == 2 && IsAlpha(c) ==>
            CountryRule(Some(text)) == Some(Upper(c)) && IsAlpha(Upper(c)))
      && (!(|c| == 2 && IsAlpha(c)) && !IsPlaceholder(c) && CodeTokenAt(c, k)
          && (forall j | 0 <= j < k :: !CodeTokenAt(c, j)) ==>
            CountryRule(Some(text)) == Some(c[k..k + 2]))
      && (!(|c| == 2 && IsAlpha(c)) && !IsPlaceholder(c)
          && (forall j | 0 <= j < |c| :: !CodeTokenAt(c, j)) ==>
            CountryRule(Some(text)) == Some(c))
  {
    var c := CleanLine(text, CountryStops, 2);
    if |c| == 2 && IsAlpha(c) {
      var u := Upper(c);
      assert IsAsciiUpper(u[0]) && IsAsciiUpper(u[1]);
    }
    if !(|c| == 2 && IsAlpha(c)) && !IsPlaceholder(c) && CodeTokenAt(c, k)
       && (forall j | 0 <= j < k :: !CodeTokenAt(c, j)) {
      var f := FirstCodeToken(c, 0);
      assert f <= k;
      assert f == k;
    }
  }

  // ---------------------------------------------------------------------------
  // State/City
  // ---------------------------------------------------------------------------

  /** A character of `[A-Za-z\s]`. */
  predicate IsLocationChar(c: char) {
    IsAsciiLetter(c) || IsSpace(c)
  }

  /** The lookahead `(?=What|How|Can|Why|$)` succeeds at `i`. */
  predicate LookaheadAt(s: string, i: nat) {
    || WordAt(s, i, "What") || WordAt(s, i, "How") || WordAt(s, i, "Can") || WordAt(s, i, "Why")
    || i == |s| || (i + 1 == |s| && s[i] == '\n')
  }

  /** The end of the lazy group `([A-Za-z\s]+?)` tried at lengths `k`,
      `k + 1`, ...: the first length whose characters all belong to the class
      and after which the lookahead succeeds. */
  function LocationEnd(s: string, k: nat): (e: Option<nat>)
    requires 1 <= k <= |s| + 1
    requires forall j | 0 <= j < k - 1 :: IsLocationChar(s[j])
    ensures e.Some? ==> k <= e.value <= |s| && LookaheadAt(s, e.value)
    ensures e.Some? ==> forall j | 0 <= j < e.value :: IsLocationChar(s[j])
    ensures e.Some? ==> forall n | k <= n < e.value :: !LookaheadAt(s, n)
    ensures e.None? ==> forall n | k <= n <= |s| ::
      !((forall j | 0 <= j < n :: IsLocationChar(s[j])) && LookaheadAt(s, n))
    decreases |s| + 1 - k
  {
    if k > |s| || !IsLocationChar(s[k - 1]) then None
    else if LookaheadAt(s, k) then Some(k)
    else LocationEnd(s, k + 1)
  }

  /** `re.match(r'^([A-Za-z\s]+?)(?=What|How|Can|Why|$)', s)` followed by
      `group(1).strip()`, or `None` when it does not match. */
  function LeadingLocation(s: string): (r: Option<string>)
    ensures r.Some? ==> exists e | 1 <= e <= |s| ::
      && r.value == Strip(s[..e]) && LookaheadAt(s, e)
      && (forall j | 0 <= j < e :: IsLocationChar(s[j]))
      && forall n | 1 <= n < e :: !LookaheadAt(s, n)
    ensures r.None? <==> forall e | 1 <= e <= |s| ::
      !((forall j | 0 <= j < e :: IsLocationChar(s[j])) && LookaheadAt(s, e))
  {
    match LocationEnd(s, 1)
    case None => None
    case Some(e) => Some(Strip(s[..e]))
  }

  /** On a trimmed value already cut at every state/city boundary the
      lookahead can only succeed at the end, so the re-extraction keeps the
      whole value when it is all letters and whitespace, and nothing otherwise. */
  lemma LeadingLocationAllOrNothing(s: string)
    requires Trimmed(s) && BoundaryFree(s, StateStops, 0)
    ensures LeadingLocation(s) ==
      if s != [] && forall i | 0 <= i < |s| :: IsLocationChar(s[i]) then Some(s) else None
  {
    assert StateStops[0] == "What" && StateStops[1] == "How";
    assert StateStops[2] == "Can" && StateStops[3] == "Why";
    BoundaryFreeExcludes(s, StateStops, 0, "What");
    BoundaryFreeExcludes(s, StateStops, 0, "How");
    BoundaryFreeExcludes(s, StateStops, 0, "Can");
    BoundaryFreeExcludes(s, StateStops, 0, "Why");
    NoLookaheadBeforeEnd(s);
    if s != [] && forall i | 0 <= i < |s| :: IsLocationChar(s[i]) {
      var e := LocationEnd(s, 1);
      assert LookaheadAt(s, |s|);
      assert e.Some?;
      assert e.value == |s|;
      assert s[..|s|] == s;
      StripOfTrimmed(s);
    }
  }

  /** The lookahead fails everywhere before the end of a trimmed value that
      holds none of its words. */
  lemma NoLookaheadBeforeEnd(s: string)
    requires Trimmed(s)
    requires !Contains(s, "What") && !Contains(s, "How") && !Contains(s, "Can") && !Contains(s, "Why")
    ensures forall n | 0 <= n < |s| :: !LookaheadAt(s, n)
  {
    forall n | 0 <= n < |s| ensures !LookaheadAt(s, n) {
      if n + 1 == |s| {
        assert s[n] != '\n';
      }
    }
  }

  /** Python's `any(word in s.lower() for word in QuestionPhrases)`. */
  predicate MentionsQuestion(s: string) {
    exists p | p in QuestionPhrases :: Contains(Lower(s), p)
  }

  /** The phrase test ignores case: upper-casing the value first changes nothing. */
  lemma MentionsQuestionIgnoresCase(s: string)
    ensures MentionsQuestion(Upper(s)) <==> MentionsQuestion(s)
  {
    var u := Upper(s);
    forall i | 0 <= i < |s| ensures Lower(u)[i] == Lower(s)[i] {
      assert u[i] == ToUpper(s[i]);
    }
    assert Lower(u) == Lower(s);
  }

  /** The state/city rule: clean the capture (cut at the first question word,
      section label or `?`); if question phrasing remains, re-extract the
      leading letters-and-spaces part; store the value only when it is
      non-empty, not a placeholder and shorter than 50 characters. A stored
      value is the cleaned capture itself, and one that mentions a question
      phrase is letters and whitespace only. */
  function StateCityRule(g: Option<string>): (r: Option<string>)
    ensures r.Some? ==> g.Some? && r.value == CleanLine(g.value, StateStops, 0)
    ensures r.Some? ==> 0 < |r.value| < 50 && !IsPlaceholder(r.value) && !Contains(r.value, "?")
    ensures r.Some? && MentionsQuestion(r.value) ==> forall i | 0 <= i < |r.value| :: IsLocationChar(r.value[i])
    ensures g.Some? ==> var s := CleanLine(g.value, StateStops, 0);
      (0 < |s| < 50 && !IsPlaceholder(s)
       && (MentionsQuestion(s) ==> forall i | 0 <= i < |s| :: IsLocationChar(s[i]))) ==> r == Some(s)
  {
    match g
    case None => None
    case Some(text) =>
      var s := CleanLine(text, StateStops, 0);
      LeadingLocationAllOrNothing(s);
      assert StateStops[12] == "?";
      BoundaryFreeExcludes(s, StateStops, 0, "?");
      var kept := if MentionsQuestion(s) then LeadingLocation(s) else Some(s);
      if kept.Some? && kept.value != [] && !IsPlaceholder(kept.value) && |kept.value| < 50 then kept
      else None
  }
}
