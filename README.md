# Aptoide package scraper: locator, metadata rules and query validation

This project models, in Dafny, the core of a small FastAPI service. Given an
Android package name, the service finds the app's page on the Aptoide store
and scrapes metadata from it. Three pieces of `main.py` are modelled.

- **The locator** (`search_app_by_package`, module `Locator`).
  - A search-API status other than 200 is passed through as that status.
  - A missing `datalist.list` is a 404.
  - Otherwise the candidates are scanned in order. The first whose `package`
    equals the query exactly decides the page URL.
  - The URL uses a non-empty `uname` first, then a non-empty store name, then
    the package name with dots replaced by hyphens.
  - A candidate whose `store` member is not an object (JSON `null`) makes the
    store-name lookup raise, which the service reports as a 500.
  - The scan is a method with a loop. It is proved equal to the recursive
    function `Locate`, and the promised properties are proved about `Locate`.
- **The metadata rules** (`parse_metadata`).
  - The page is not parsed. The `<h1>` heading and the text of each labelled
    pattern's first group are the inputs (`Metadata.PageCaptures`).
  - Module `FieldRules` holds one cleanup rule per field.
    - `str.strip` with the Unicode whitespace set.
    - `re.split(..., maxsplit=1)[0]` with the field's stop words and
      whitespace-run length.
    - `re.sub(r'\s+', ' ')` for the CPU.
    - The placeholder test against `''`, `'-'` and `'None'`.
    - The two-letter country heuristic.
    - The state/city question-phrase heuristic.
  - Module `Scanners` models what the value part of the minimum-screen,
    Supported CPU, package id, SHA1, developer, organization, locality,
    country and state/city patterns captures. This includes the greedy `\s*`
    giving characters back. The size, downloads, version and release-date
    patterns have no scanner; their captures are inputs of `Metadata`.
  - Module `Metadata` builds the record.
    - `ParseMetadata` is the method that builds the record one field at a
      time, in the source's order, and then runs the placeholder pass.
    - `NormalizePlaceholders` is that pass: a loop over the keys.
    - `ParseMetadata` is proved equal to the specification function `Parsed`,
      and `NormalizePlaceholders` to the function `Normalized` that `Parsed`
      applies last.
- **The query validator** on the `/aptoide` route (module `Validation`):
  length 3 to 255 over `[a-zA-Z0-9._-]`.

Consequences of the code as written that the model proves:

- A page showing `Country (C): United States` stores the country `UN`. The
  first alternative `[A-Z]{2}` of the case-insensitive pattern captures `Un`,
  and the rule upper-cases it.
- The state/city capture `\w+[^\n]` is one word plus one character, so a
  stored state/city never contains whitespace (`New York` can never be
  stored).
- In the state/city rule, the value has already been cut at every question
  word. So the re-extraction `^([A-Za-z\s]+?)(?=What|How|Can|Why|$)` can only
  stop at the end: it keeps the whole value or nothing.
- The CPU rule cuts at the literal `Package ID` before collapsing
  whitespace. A capture such as `Package<TAB>ID` is therefore stored as
  `Package ID`.
- The package name `None` passes the validator, and the final pass then
  clears the record's `package_id` to `None`.

## Model

| member | source | states |
|---|---|---|
| Locator.SearchAppByPackage | main.py:68-97 | A status other than 200 is passed through as the answer's status, a missing candidate list is not-found, and otherwise the early-return scan gives exactly `Locate` of the list; the answer's status is 200 exactly when a page was found |
| Locator.Locate | main.py:74-97 | The result is not-found exactly when no candidate's `package` equals the name, and is never an upstream error |
| Locator.LocateFirstMatch | main.py:77-92 | When candidate k is the first exact match, the outcome is the page derived from candidate k |
| Locator.LocateIgnoresLater | main.py:77-92 | Once the list holds a match, appending candidates does not change the outcome |
| Locator.PageUrl | main.py:78-88 | A matched candidate gives either a URL or the internal error, and the internal error happens exactly when `store` is not an object |
| Locator.PageUrlPriority | main.py:82-88 | For every candidate with an object or missing `store`: a non-empty `uname` gives `uname`/`app`, else a non-empty store name gives store/package name, else slug/`app`; when the chosen name has no `/`, the URL reads back into exactly those parts |
| Locator.Slug | main.py:87 | Each dot becomes a hyphen, other characters are kept, the length is kept, and no dot remains |
| Locator.SlugRoundTrip | main.py:87 | For a name without hyphens, reversing the replacement recovers the name |
| Locator.SplitAppUrl | main.py:83-88 | A URL that parses is `https://{sub}.en.aptoide.com/{path}` for the parsed sub-domain, which holds no `/`, and path |
| Locator.SplitAppUrlRoundTrip | main.py:83-88 | Every URL built from a sub-domain without `/`, dots included, parses back into that sub-domain and path |
| Text.Strip | main.py:176 | The result is trimmed, is the slice starting at the first non-whitespace character, and only whitespace follows it |
| Text.StripEmpty | main.py:180 | Stripping gives the empty string exactly when the text is all whitespace |
| Text.StripIdempotent | main.py:177 | Stripping twice equals stripping once |
| Text.BeforeBoundary | main.py:177 | The `maxsplit=1` head is the prefix before the leftmost match of the pattern: no match starts inside it, and one starts right after it when it is shorter than the text |
| Text.BoundaryFreeMeans | main.py:198 | A head without boundaries contains none of the stop words and no whitespace run of the split's length |
| Text.CollapseSingleSpaced | main.py:179 | After `re.sub(r'\s+', ' ')` there is no whitespace but single spaces |
| Text.CollapseEnds | main.py:179 | Collapsing keeps emptiness and the whitespace-ness of the first and last characters, so trimmed text stays trimmed |
| Text.CollapseKeepsWordOut | main.py:179 | Collapsing whitespace cannot create an occurrence of a word without whitespace |
| Text.Collapse | main.py:179 | `re.sub(r'\s+', ' ')` never makes the text longer |
| Text.CollapseKeepsText | main.py:179 | Collapsing changes whitespace only: with all whitespace deleted, the result and the input are the same text |
| Text.CollapseOfSingleSpaced | main.py:179 | Text that is already single-spaced is left unchanged |
| Text.CollapseAppend | main.py:179 | Text that ends with a non-whitespace character collapses independently of what follows it |
| Text.CollapseJoin | main.py:179 | A non-empty whitespace run between non-whitespace characters becomes exactly one space, and the text on either side is collapsed on its own |
| Text.Lower | main.py:242 | ASCII lower-casing keeps the length, maps each character, and leaves no upper-case letter |
| Text.Upper | main.py:170 | ASCII upper-casing keeps the length, maps each character, and leaves no lower-case letter |
| Text.RemoveSuffix | main.py:171 | The result plus the suffix is the text when the text ends with the suffix, and is the text unchanged otherwise |
| FieldRules.CleanLine | main.py:176-177 | The cleaned value is the stripped capture up to the leftmost boundary, less the whitespace before that boundary; it is trimmed, free of boundaries, and the slice of the capture starting at its first non-whitespace character |
| FieldRules.MinScreenRule | main.py:167-171 | A value is stored exactly when the pattern matched, has no lower-case letter, and is the upper-cased capture with `SUPPORTED` removed when it ends with it |
| FieldRules.CpuRule | main.py:173-181 | A stored CPU is the cleaned capture with whitespace collapsed; it is trimmed, single-spaced, not a placeholder, and contains neither `SHA1` nor `Signature`; every capture whose collapsed cleaned text is not a placeholder is stored |
| FieldRules.CpuRuleMayKeepPackageId | main.py:176-179 | A capture `Package<TAB>ID` is stored as the CPU `Package ID`, because the cut happens before the collapse |
| FieldRules.PackageIdRule | main.py:183-186 | The re-check only ever stores the value already seeded, the requested name |
| FieldRules.Sha1Rule | main.py:188-191 | A value is stored exactly when the pattern matched, and it is the upper-cased capture; a 59-character hex/colon capture becomes an upper-case fingerprint |
| FieldRules.FreeTextRule | main.py:193-218 | A stored value is the cleaned capture, which is trimmed, free of boundaries and not a placeholder; every capture whose cleaned text is not a placeholder is stored |
| FieldRules.DeveloperRule | main.py:193-200 | A stored developer is the capture cleaned at `Organization`, `Local` or two whitespace characters; it is trimmed, has no double whitespace, avoids both words, and is not a placeholder; stored whenever its cleaned text is not a placeholder |
| FieldRules.OrganizationRule | main.py:202-209 | Same, with `Local` and `Country` as the stop words: the stored value is the cleaned capture |
| FieldRules.LocalRule | main.py:211-218 | Same, with `Country` and `State` as the stop words: the stored value is the cleaned capture |
| FieldRules.FirstCodeToken | main.py:231 | The index found is the leftmost whole-word two-capital token, or the end when there is none |
| FieldRules.CountryRule | main.py:220-235 | A stored country is trimmed and not a placeholder; a capture stores something exactly when its cleaned text is not a placeholder |
| FieldRules.CountryRuleCases | main.py:225-235 | The three outcomes: two letters are upper-cased, otherwise the first two-capital token is stored, otherwise the whole cleaned text is stored |
| FieldRules.LocationEnd | main.py:243 | The lazy match stops at the first position where the lookahead holds: all characters before it are letters or whitespace and the lookahead fails at every earlier length; it fails when no such position is reachable |
| FieldRules.LeadingLocation | main.py:243-247 | A successful re-extraction is the stripped prefix up to the first position where the lookahead holds, reached through letters and whitespace only; the match fails exactly when no such position exists |
| FieldRules.LeadingLocationAllOrNothing | main.py:241-247 | On a cleaned value the re-extraction keeps the whole value when it is all letters and whitespace, and gives `None` otherwise |
| FieldRules.NoLookaheadBeforeEnd | main.py:243 | Without `What`, `How`, `Can` or `Why`, the lookahead fails everywhere before the end of a trimmed value |
| FieldRules.MentionsQuestionIgnoresCase | main.py:242 | The question-phrase test lower-cases first, so upper-casing the value does not change its outcome |
| FieldRules.StateCityRule | main.py:237-250 | A stored value is the cleaned capture, 1 to 49 characters, not a placeholder, without `?`, and letters and whitespace when it mentions a question phrase; any cleaned capture meeting those conditions is stored |
| Scanners.MinScreenValue | main.py:168 | The capture is the whole non-empty word run after the whitespace, and exists exactly when a word character follows it |
| Scanners.PackageIdValue | main.py:184 | The capture is the whole non-empty run of `[a-zA-Z0-9._]` after the whitespace |
| Scanners.Sha1Value | main.py:189 | The capture exists exactly when 59 hex/colon characters follow the whitespace, and is exactly those 59 characters |
| Scanners.RestOfLine | main.py:174 | The capture is the rest of the line after the whitespace; on a blank remainder it is the single last character that is not a newline, given back by `\s*`, and there is no match when only newlines follow |
| Scanners.CountryValue | main.py:221 | Two letters after the whitespace are captured alone, and otherwise the rest of the line is captured |
| Scanners.StateValue | main.py:238 | The capture starts after the whitespace and spans the whole word run plus the next character when that is not a newline, or the whole run (its last character taken by `[^\n]`) when the run ends the line; it fails exactly when the run is empty or is one character at the end of a line |
| Scanners.MinScreenOfScan | main.py:167-171 | A stored minimum screen consists of word characters with no lower-case letter |
| Scanners.Sha1OfScan | main.py:188-191 | A stored SHA1 signature is always 59 upper-case hex digits and colons |
| Scanners.BlankLineStoresNothing | main.py:173-218 | A label followed only by whitespace stores no CPU, developer, organization or locality (the pattern matches at all only when that whitespace holds a character other than a newline) |
| Scanners.CountryRuleOfLetters | main.py:221-228 | Two captured letters are stored upper-cased |
| Scanners.CountryOfUnitedStates | main.py:220-228 | `United States` is captured as `Un` and stored as `UN` |
| Scanners.StateCityOfScan | main.py:237-250 | A stored state/city has no whitespace, and all its characters but the last are word characters |
| Scanners.StateCityNeverTwoWords | main.py:237-250 | No page stores the state/city `New York` |
| Metadata.RuleValues | main.py:134-250 | The value for `package_id` is always the requested name |
| Metadata.SourceOrderBuilds | main.py:134-250 | Storing the rules' values one field at a time in source order gives exactly the record of the fields that have a value, and the package-id re-check changes nothing |
| Metadata.ParseMetadata | main.py:131-257 | The record returned equals `Parsed`; `package_id` is present and cleared only when it is a placeholder; no value is a placeholder |
| Metadata.NormalizePlaceholders | main.py:252-255 | The key-by-key pass gives `Normalized`: the same keys, placeholders replaced by `None`, and every other value kept |
| Metadata.Cleared | main.py:254-255 | A value becomes `None` exactly when it is missing or a placeholder, and is kept otherwise |
| Metadata.ParsedFields | main.py:134-257 | A key is present exactly when its rule stored a value, and its value is that value with placeholders cleared |
| Metadata.ParsedPackageId | main.py:134-186 | `package_id` is always present: it is the requested name, or `None` when that name is a placeholder |
| Metadata.ParsedHasNoPlaceholder | main.py:252-257 | No value of the returned record is a placeholder |
| Metadata.NormalizedIdempotent | main.py:252-255 | Running the final pass twice is the same as running it once |
| Validation.ValidPlaceholderIsNone | main.py:301-307 | Of the placeholders, only `None` passes the validator |
| Validation.NoneIsValid | main.py:301-307 | `None` passes the validator and is a placeholder |
| Validation.PackageIdOfValidName | main.py:301-307 | For an accepted query the record's `package_id` is the name, and it is `None` exactly when the name is `None` |

## Left out

- The HTTP calls (`httpx`), timeouts and connection errors, with their 504 and 503 answers (main.py:99-103): the status code and the decoded candidate list are inputs.
- JSON decoding: a body that is not JSON is not modelled. Malformed `datalist` and `list` members are not modelled either. Some of them end in 404 without raising:
  - a `datalist` that is an array or a string not holding `"list"`, since the test at main.py:74 is then a membership or substring test that fails;
  - a `list` that is an empty object, an empty string or an empty array, since the loop at main.py:77 runs zero times.
- The others raise and the service answers 500:
  - a `datalist` that is `null`, a number or a boolean, since the `in` test at main.py:74 raises;
  - a `datalist` that is an array or a string holding `"list"`, since indexing it with `'list'` at main.py:75 raises;
  - a `list` that is `null`, a number, a boolean, a non-empty object or a non-empty string, since the loop at main.py:77 either cannot iterate it or yields keys or characters, whose `get` at main.py:78 raises;
  - an element of `list` that is not an object (for example `null`), since `app.get` at main.py:78 raises.
- A candidate member that is neither a string nor missing nor `null` is not modelled.
- A body that is valid JSON but not an object is not modelled. For `null` or a number, `'datalist' in data` raises and the service answers 500. For an array or a string, `in` becomes a membership or substring test, which mostly ends in 404. The model takes the decoded candidate list, or its absence, as input.
- `fetch_page` and the HTML parsing by BeautifulSoup. The `<h1>` lookup and `soup.get_text()` are not modelled: the heading text and each pattern's first group are inputs.
- The label part of each `re.search` (for example `Supported CPU:\s*` with `re.IGNORECASE`) is not modelled. It decides which occurrence is captured. `Scanners` models the value part applied to the text after the label. The captures in `PageCaptures` are not tied to a page text.
- The size, downloads, version and release-date patterns (main.py:147-165): their captures are stored as they are, which the model does.
- Letters outside ASCII: `\w`, `str.isalpha`, `str.upper` and `str.lower` are modelled on ASCII only. The whitespace set is the one `str.strip` and `\s` share.
- FieldRules.CpuRule: does not promise that a stored CPU is free of `Package ID`, because the cut happens before whitespace is collapsed (see `FieldRules.CpuRuleMayKeepPackageId`).
- Metadata.NormalizePlaceholders: visits the keys in an arbitrary order rather than in the dictionary's insertion order; the result does not depend on the order.
- The `AppMetadata` pydantic model, `scrape_package`, the FastAPI routes other than the query validator, logging, timestamps and the health and root endpoints: none of them makes a decision the core depends on.
