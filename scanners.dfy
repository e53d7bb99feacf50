/** The value half of each labelled pattern of `parse_metadata`, written as a
    scanner over the page text that follows the label's colon: each returns
    what `match.group(1)` holds when the pattern matches there, and `None`
    when it cannot. The scanners reproduce the backtracking of the patterns'
    greedy `\s*`; finding the label in the page is not part of them. */
module Scanners {
  import opened Wrappers
  import opened Text
  import opened FieldRules

  /** The end of the run of characters satisfying `p` that starts at `from`. */
  function RunEnd(s: string, from: nat, p: char -> bool): (e: nat)
    requires from <= |s|
    ensures from <= e <= |s|
    ensures forall j | from <= j < e :: p(s[j])
    ensures e < |s| ==> !p(s[e])
    decreases |s| - from
  {
    if from == |s| || !p(s[from]) then from else RunEnd(s, from + 1, p)
  }

  predicate NotNewline(c: char) { c != '\n' }

  /** A character of `[a-zA-Z0-9._]`. */
  predicate IsPackageChar(c: char) {
    IsAsciiLetter(c) || IsDigit(c) || c == '.' || c == '_'
  }

  /** The index of the last character before `k` that is not a newline. */
  function LastNotNewline(s: string, k: nat): (j: Option<nat>)
    requires k <= |s|
    ensures j.Some? ==> j.value < k && s[j.value] != '\n'
    ensures j.Some? ==> forall i | j.value < i < k :: s[i] == '\n'
    ensures j.None? ==> forall i | 0 <= i < k :: s[i] == '\n'
  {
    if k == 0 then None else if s[k - 1] != '\n' then Some(k - 1) else LastNotNewline(s, k - 1)
  }

  /** `\s*(\w+)` (min screen): the whole word run after the whitespace, which
      must not be empty. */
  function MinScreenValue(rest: string): (r: Option<string>)
    ensures r.Some? <==> LeadingSpaces(rest) < |rest| && IsWordChar(rest[LeadingSpaces(rest)])
    ensures r.Some? ==> var n := LeadingSpaces(rest);
      && r.value != [] && n + |r.value| <= |rest| && r.value == rest[n..n + |r.value|]
      && (forall i | 0 <= i < |r.value| :: IsWordChar(r.value[i]))
      && (n + |r.value| == |rest| || !IsWordChar(rest[n + |r.value|]))
  {
    var n := LeadingSpaces(rest);
    var e := RunEnd(rest, n, IsWordChar);
    if e > n then Some(rest[n..e]) else None
  }

  /** `\s*([a-zA-Z0-9._]+)` (package id, case-sensitive): the run of
      package-name characters after the whitespace, which must not be empty. */
  function PackageIdValue(rest: string): (r: Option<string>)
    ensures r.Some? <==> LeadingSpaces(rest) < |rest| && IsPackageChar(rest[LeadingSpaces(rest)])
    ensures r.Some? ==> var n := LeadingSpaces(rest);
      && r.value != [] && n + |r.value| <= |rest| && r.value == rest[n..n + |r.value|]
      && (forall i | 0 <= i < |r.value| :: IsPackageChar(r.value[i]))
      && (n + |r.value| == |rest| || !IsPackageChar(rest[n + |r.value|]))
  {
    var n := LeadingSpaces(rest);
    var e := RunEnd(rest, n, IsPackageChar);
    if e > n then Some(rest[n..e]) else None
  }

  /** `\s*([A-F0-9:]{59})` under `re.IGNORECASE`: exactly the 59 characters
      after the whitespace, all hex digits or colons. Giving back whitespace
      cannot help, as whitespace is outside the class. */
  function Sha1Value(rest: string): (r: Option<string>)
    ensures r.Some? <==> var n := LeadingSpaces(rest);
      n + 59 <= |rest| && forall j | n <= j < n + 59 :: IsHexOrColon(rest[j])
    ensures r.Some? ==> var n := LeadingSpaces(rest); n + 59 <= |rest| && r.value == rest[n..n + 59]
    ensures r.Some? ==> |r.value| == 59 && forall i | 0 <= i < 59 :: IsHexOrColon(r.value[i])
  {
    var n := LeadingSpaces(rest);
    if n + 59 <= |rest| && forall j | n <= j < n + 59 :: IsHexOrColon(rest[j]) then
      Some(rest[n..n + 59])
    else None
  }

  /** `\s*([^\n]+)` (CPU, developer, organization, locality): the rest of the
      line after the whitespace. When only whitespace follows, the greedy
      `\s*` gives characters back until `[^\n]+` can take the last one that is
      not a newline, so the capture is that single whitespace character. */
  function RestOfLine(rest: string): (r: Option<string>)
    ensures r.Some? ==> r.value != [] && forall i | 0 <= i < |r.value| :: r.value[i] != '\n'
    ensures LeadingSpaces(rest) < |rest| ==> var n := LeadingSpaces(rest);
      r == Some(rest[n..RunEnd(rest, n, NotNewline)])
    ensures LeadingSpaces(rest) == |rest| ==> r.None? || forall i | 0 <= i < |r.value| :: IsSpace(r.value[i])
    ensures LeadingSpaces(rest) == |rest| ==>
      (r.None? <==> forall i | 0 <= i < |rest| :: rest[i] == '\n')
    ensures LeadingSpaces(rest) == |rest| && r.Some? ==>
      exists j | 0 <= j < |rest| :: r.value == [rest[j]] && forall i | j < i < |rest| :: rest[i] == '\n'
  {
    var n := LeadingSpaces(rest);
    if n < |rest| then Some(rest[n..RunEnd(rest, n, NotNewline)])
    else
      match LastNotNewline(rest, n)
      case None => None
      case Some(j) => Some(rest[j..j + 1])
  }

  /** `\s*([A-Z]{2}|[^\n]+)` under `re.IGNORECASE` (country): the first
      alternative wins, so two letters after the whitespace are captured
      alone, whatever follows them; otherwise the rest of the line. */
  function CountryValue(rest: string): (r: Option<string>)
    ensures var n := LeadingSpaces(rest);
      n + 2 <= |rest| && IsAsciiLetter(rest[n]) && IsAsciiLetter(rest[n + 1]) ==> r == Some(rest[n..n + 2])
    ensures var n := LeadingSpaces(rest);
      !(n + 2 <= |rest| && IsAsciiLetter(rest[n]) && IsAsciiLetter(rest[n + 1])) ==> r == RestOfLine(rest)
  {
    var n := LeadingSpaces(rest);
    if n + 2 <= |rest| && IsAsciiLetter(rest[n]) && IsAsciiLetter(rest[n + 1]) then Some(rest[n..n + 2])
    else RestOfLine(rest)
  }

  /** `\s*(\w+[^\n])` (state/city): the word run after the whitespace and one
      more character that is not a newline; when the run ends the line (or
      the text), the run gives back its last character instead, which needs
      a run of at least two. */
  function StateValue(rest: string): (r: Option<string>)
    ensures r.Some? ==> var n := LeadingSpaces(rest);
      && 2 <= |r.value| && n + |r.value| <= |rest| && r.value == rest[n..n + |r.value|]
      && (forall i | 0 <= i < |r.value| - 1 :: IsWordChar(r.value[i]))
      && r.value[|r.value| - 1] != '\n'
    ensures r.Some? ==> var n := LeadingSpaces(rest); var e := RunEnd(rest, n, IsWordChar);
      || (e < |rest| && rest[e] != '\n' && |r.value| == e - n + 1)
      || ((e == |rest| || rest[e] == '\n') && |r.value| == e - n)
    ensures r.None? <==> var n := LeadingSpaces(rest);
      var e := RunEnd(rest, n, IsWordChar);
      e == n || ((e == |rest| || rest[e] == '\n') && e - n < 2)
  {
    var n := LeadingSpaces(rest);
    var e := RunEnd(rest, n, IsWordChar);
    if e == n then None
    else if e < |rest| && rest[e] != '\n' then Some(rest[n..e + 1])
    else if e - n >= 2 then Some(rest[n..e])
    else None
  }

  // ---------------------------------------------------------------------------
  // What the rules make of the scanned values
  // ---------------------------------------------------------------------------

  /** A stored minimum screen is upper-case word characters. */
  lemma MinScreenOfScan(rest: string)
    ensures var r := MinScreenRule(MinScreenValue(rest));
      r.Some? ==> forall i | 0 <= i < |r.value| :: IsWordChar(r.value[i]) && !IsAsciiLower(r.value[i])
  {
    var g := MinScreenValue(rest);
    if g.Some? {
      var u := Upper(g.value);
      var r := MinScreenRule(g).value;
      forall i | 0 <= i < |u| ensures IsWordChar(u[i]) {
        assert IsWordChar(g.value[i]);
      }
      if EndsWith(u, SupportedSuffix) {
        forall i | 0 <= i < |r| ensures IsWordChar(r[i]) {
          assert r[i] == (r + SupportedSuffix)[i];
        }
      }
    }
  }

  /** A stored SHA1 signature is always 59 upper-case hex digits and colons. */
  lemma Sha1OfScan(rest: string)
    ensures Sha1Rule(Sha1Value(rest)).Some? ==> IsUpperFingerprint(Sha1Rule(Sha1Value(rest)).value)
  {
    var g := Sha1Value(rest);
    if g.Some? {
      assert forall i | 0 <= i < 59 :: IsHexOrColon(g.value[i]);
    }
  }

  /** In text that is whitespace only, the leading run is all of it. */
  lemma {:induction false} BlankLeadingSpaces(s: string)
    requires forall i | 0 <= i < |s| :: IsSpace(s[i])
    ensures LeadingSpaces(s) == |s|
  {
    if s != [] {
      assert IsSpace(s[0]);
      forall i | 0 <= i < |s| - 1 ensures IsSpace(s[1..][i]) {
        assert s[1..][i] == s[i + 1];
      }
      BlankLeadingSpaces(s[1..]);
    }
  }

  /** Cleaning text that is whitespace only leaves nothing. */
  lemma CleanBlank(text: string, stops: seq<string>, run: nat)
    requires forall i | 0 <= i < |text| :: IsSpace(text[i])
    ensures CleanLine(text, stops, run) == []
  {
    BlankLeadingSpaces(text);
  }

  /** No free-text rule stores anything from a blank capture. */
  lemma FreeTextOfBlank(t: string, stops: seq<string>)
    requires forall i | 0 <= i < |t| :: IsSpace(t[i])
    ensures FreeTextRule(Some(t), stops).None?
  {
    CleanBlank(t, stops, 2);
  }

  /** Nor does the CPU rule. */
  lemma CpuOfBlank(t: string)
    requires forall i | 0 <= i < |t| :: IsSpace(t[i])
    ensures CpuRule(Some(t)).None?
  {
    CleanBlank(t, CpuStops, 3);
    assert Collapse([]) == [];
  }

  /** A label followed by nothing but whitespace stores no CPU, developer,
      organization or locality, even though the pattern still matches. */
  lemma BlankLineStoresNothing(rest: string)
    requires forall i | 0 <= i < |rest| :: IsSpace(rest[i])
    ensures CpuRule(RestOfLine(rest)).None?
    ensures DeveloperRule(RestOfLine(rest)).None?
    ensures OrganizationRule(RestOfLine(rest)).None?
    ensures LocalRule(RestOfLine(rest)).None?
  {
    BlankLeadingSpaces(rest);
    var g := RestOfLine(rest);
    if g.Some? {
      CpuOfBlank(g.value);
      FreeTextOfBlank(g.value, DeveloperStops);
      FreeTextOfBlank(g.value, OrganizationStops);
      FreeTextOfBlank(g.value, LocalStops);
    }
  }

  /** Two letters cannot hold a country boundary, so cleaning keeps them. */
  lemma CleanTwoLetters(v: string)
    requires |v| == 2 && IsAsciiLetter(v[0]) && IsAsciiLetter(v[1])
    ensures CleanLine(v, CountryStops, 2) == v
  {
    StripOfTrimmed(v);
    forall i | 0 <= i < 2 ensures !BoundaryAt(v, i, CountryStops, 2) {
      assert !SpaceRunAt(v, i, 2) by {
        if i + 2 <= |v| { assert !IsSpace(v[i]); }
      }
      forall w | w in CountryStops ensures !WordAt(v, i, w) {
        assert |w| == 5;
      }
    }
    var head := BeforeBoundary(v, CountryStops, 2);
    assert |head| == 2;
    assert head == v;
  }

  /** The country rule upper-cases a capture of two letters. */
  lemma CountryRuleOfLetters(v: string)
    requires |v| == 2 && IsAsciiLetter(v[0]) && IsAsciiLetter(v[1])
    ensures CountryRule(Some(v)) == Some(Upper(v))
  {
    CleanTwoLetters(v);
  }

  /** So `United States` is captured as `Un` and stored as `UN`. */
  lemma CountryOfUnitedStates(rest: string)
    requires rest == " United States"
    ensures CountryValue(rest) == Some(rest[1..3])
    ensures CountryRule(Some(rest[1..3])) == Some("UN")
  {
    assert LeadingSpaces(rest) == 1;
    var v := rest[1..3];
    CountryRuleOfLetters(v);
    var u := Upper(v);
    assert u[0] == 'U' && u[1] == 'N';
    assert u == "UN";
  }

  /** A stored state/city holds no whitespace: everything but its last
      character is a word character, because the capture is one word and a
      single character more. */
  lemma StateCityOfScan(rest: string)
    ensures var r := StateCityRule(StateValue(rest));
      r.Some? ==> && (forall i | 0 <= i < |r.value| :: !IsSpace(r.value[i]))
                  && (forall i | 0 <= i < |r.value| - 1 :: IsWordChar(r.value[i]))
  {
    var g := StateValue(rest);
    if g.Some? {
      CleanKeepsWordShape(g.value, StateStops, 0);
    }
  }

  /** Cleaning a word followed by one character keeps a prefix of it with no
      whitespace. */
  lemma CleanKeepsWordShape(t: string, stops: seq<string>, run: nat)
    requires 2 <= |t| && forall i | 0 <= i < |t| - 1 :: IsWordChar(t[i])
    ensures var v := CleanLine(t, stops, run);
      && (forall i | 0 <= i < |v| :: !IsSpace(v[i]))
      && (forall i | 0 <= i < |v| - 1 :: IsWordChar(v[i]))
  {
    var v := CleanLine(t, stops, run);
    assert LeadingSpaces(t) == 0 by { assert IsWordChar(t[0]); }
    forall i | 0 <= i < |v| - 1 ensures IsWordChar(v[i]) && !IsSpace(v[i]) {
      assert v[i] == t[i];
    }
  }

  /** For one: no page yields the state/city `New York`. */
  lemma StateCityNeverTwoWords(rest: string)
    ensures StateCityRule(StateValue(rest)) != Some("New York")
  {
    StateCityOfScan(rest);
    var v := "New York";
    assert IsSpace(v[3]);
  }
}
