/** `AptoideScraperService.parse_metadata`: the record built from one app
    page. The page itself is not parsed here: what the `<h1>` heading holds
    and what each labelled pattern captured are the inputs, and the record is
    built from them field by field and then cleared of placeholders. */
module Metadata {
  import opened Wrappers
  import opened Text
  import opened FieldRules

  /** The keys of the metadata record (the fields of `AppMetadata`). */
  datatype Field =
    | Name | Size | Downloads | Version | ReleaseDate | MinScreen | SupportedCpu
    | PackageId | Sha1Signature | DeveloperCn | Organization | Local | Country | StateCity

  const AllFields: set<Field> :=
    {Name, Size, Downloads, Version, ReleaseDate, MinScreen, SupportedCpu,
     PackageId, Sha1Signature, DeveloperCn, Organization, Local, Country, StateCity}

  /** What one page offers: the heading's text (`get_text(strip=True)`) when
      an `<h1>` was found, and for each labelled pattern the text of its
      first group, or `None` when the pattern found no match. */
  datatype PageCaptures = PageCaptures(
    heading: Option<string>,
    size: Option<string>,
    downloads: Option<string>,
    version: Option<string>,
    releaseDate: Option<string>,
    minScreen: Option<string>,
    cpu: Option<string>,
    packageId: Option<string>,
    sha1: Option<string>,
    developer: Option<string>,
    organization: Option<string>,
    local: Option<string>,
    country: Option<string>,
    stateCity: Option<string>)

  /** The metadata dictionary: a key is present once a value was stored under
      it; `None` is Python's `None`. */
  type Record = map<Field, Option<string>>

  /** One value per field: what its rule makes of the page, `None` when the
      rule stores nothing. */
  datatype FieldValues = FieldValues(
    name: Option<string>,
    size: Option<string>,
    downloads: Option<string>,
    version: Option<string>,
    releaseDate: Option<string>,
    minScreen: Option<string>,
    supportedCpu: Option<string>,
    packageId: Option<string>,
    sha1Signature: Option<string>,
    developerCn: Option<string>,
    organization: Option<string>,
    local: Option<string>,
    country: Option<string>,
    stateCity: Option<string>)

  /** The value `vals` holds for `f`. */
  function ValueOf(vals: FieldValues, f: Field): Option<string> {
    match f
    case Name => vals.name
    case Size => vals.size
    case Downloads => vals.downloads
    case Version => vals.version
    case ReleaseDate => vals.releaseDate
    case MinScreen => vals.minScreen
    case SupportedCpu => vals.supportedCpu
    case PackageId => vals.packageId
    case Sha1Signature => vals.sha1Signature
    case DeveloperCn => vals.developerCn
    case Organization => vals.organization
    case Local => vals.local
    case Country => vals.country
    case StateCity => vals.stateCity
  }

  /** Each field's rule applied to the page. Size, downloads, version and
      release date are stored as captured; `package_id` always holds the
      requested name. */
  function RuleValues(page: PageCaptures, packageName: string): (vals: FieldValues)
    ensures vals.packageId == Some(packageName)
  {
    FieldValues(
      page.heading,
      page.size,
      page.downloads,
      page.version,
      page.releaseDate,
      MinScreenRule(page.minScreen),
      CpuRule(page.cpu),
      Some(PackageIdRule(packageName, page.packageId)),
      Sha1Rule(page.sha1),
      DeveloperRule(page.developer),
      OrganizationRule(page.organization),
      LocalRule(page.local),
      CountryRule(page.country),
      StateCityRule(page.stateCity))
  }

  /** What the building phase leaves under `f`: `None` when it stores no key. */
  function Stored(page: PageCaptures, packageName: string, f: Field): Option<string> {
    ValueOf(RuleValues(page, packageName), f)
  }

  /** The record holding exactly the fields `vals` has a value for. */
  function BuiltFrom(vals: FieldValues): Record {
    map f | f in AllFields && ValueOf(vals, f).Some? :: ValueOf(vals, f)
  }

  /** The record before the final pass. */
  function Built(page: PageCaptures, packageName: string): Record {
    BuiltFrom(RuleValues(page, packageName))
  }

  /** The final pass on one value: `''`, `'-'` and `'None'` become `None`. */
  function Cleared(v: Option<string>): (r: Option<string>)
    ensures r.Some? ==> !IsPlaceholder(r.value)
    ensures r.None? <==> v.None? || IsPlaceholder(v.value)
    ensures r.Some? ==> r == v
  {
    if v.Some? && IsPlaceholder(v.value) then None else v
  }

  /** The final pass on a whole record: same keys, every value cleared. */
  function Normalized(m: Record): Record {
    map k | k in m :: Cleared(m[k])
  }

  /** The record `parse_metadata` returns. */
  function Parsed(page: PageCaptures, packageName: string): Record {
    Normalized(Built(page, packageName))
  }

  /** `for key in metadata: if metadata[key] in ['', '-', 'None']:
      metadata[key] = None`, visiting the keys one at a time. */
  method NormalizePlaceholders(m: Record) returns (r: Record)
    ensures r == Normalized(m)
    ensures r.Keys == m.Keys
    ensures forall k | k in r && r[k].Some? :: !IsPlaceholder(r[k].value)
  {
    r := m;
    var pending := m.Keys;
    while pending != {}
      invariant pending <= m.Keys && r.Keys == m.Keys
      invariant forall k | k in m && k !in pending :: r[k] == Cleared(m[k])
      invariant forall k | k in pending :: r[k] == m[k]
      decreases pending
    {
      var k :| k in pending;
      if r[k].Some? && IsPlaceholder(r[k].value) {
        r := r[k := None];
      }
      pending := pending - {k};
    }
  }

  /** One building step: the rule's value is stored under its key when the
      rule yields one, and the record is left as it is otherwise. */
  function Step(m: Record, f: Field, v: Option<string>): (r: Record)
    ensures v.Some? ==> f in r && r[f] == v
    ensures v.None? ==> r == m
  {
    if v.Some? then m[f := v] else m
  }

  /** The position of each field in the order `parse_metadata` fills the
      record: the seeded `package_id` first, then as the source visits them. */
  function Rank(f: Field): (r: nat)
    ensures r < 14
  {
    match f
    case PackageId => 0
    case Name => 1
    case Size => 2
    case Downloads => 3
    case Version => 4
    case ReleaseDate => 5
    case MinScreen => 6
    case SupportedCpu => 7
    case Sha1Signature => 8
    case DeveloperCn => 9
    case Organization => 10
    case Local => 11
    case Country => 12
    case StateCity => 13
  }

  /** `m` holds exactly the values `vals` has for the fields ranked below `k`. */
  ghost predicate Agrees(m: Record, vals: FieldValues, k: nat) {
    && (forall f :: f in m <==> Rank(f) < k && ValueOf(vals, f).Some?)
    && (forall f | f in m :: m[f] == ValueOf(vals, f))
  }

  /** Each step extends the agreement by its own field. */
  lemma StepAgrees(m: Record, vals: FieldValues, f: Field)
    requires Agrees(m, vals, Rank(f))
    ensures Agrees(Step(m, f, ValueOf(vals, f)), vals, Rank(f) + 1)
  {
  }

  /** Agreement on every field is the built record. */
  lemma AgreesAll(m: Record, vals: FieldValues)
    requires Agrees(m, vals, 14)
    ensures m == BuiltFrom(vals)
  {
  }

  /** Storing again the value a key already holds changes nothing. */
  lemma StoreSame(m: Record, f: Field)
    requires f in m
    ensures m[f := m[f]] == m
  {
  }

  /** The heading and the app-information fields, name to supported CPU. */
  lemma AppFieldsAgree(m0: Record, vals: FieldValues)
    requires Agrees(m0, vals, 1)
    ensures
      var m1 := Step(m0, Name, vals.name);
      var m2 := Step(m1, Size, vals.size);
      var m3 := Step(m2, Downloads, vals.downloads);
      var m4 := Step(m3, Version, vals.version);
      var m5 := Step(m4, ReleaseDate, vals.releaseDate);
      var m6 := Step(m5, MinScreen, vals.minScreen);
      var m7 := Step(m6, SupportedCpu, vals.supportedCpu);
      Agrees(m7, vals, 8)
  {
    StepAgrees(m0, vals, Name);
    var m1 := Step(m0, Name, vals.name);
    StepAgrees(m1, vals, Size);
    var m2 := Step(m1, Size, vals.size);
    StepAgrees(m2, vals, Downloads);
    var m3 := Step(m2, Downloads, vals.downloads);
    StepAgrees(m3, vals, Version);
    var m4 := Step(m3, Version, vals.version);
    StepAgrees(m4, vals, ReleaseDate);
    var m5 := Step(m4, ReleaseDate, vals.releaseDate);
    StepAgrees(m5, vals, MinScreen);
    var m6 := Step(m5, MinScreen, vals.minScreen);
    StepAgrees(m6, vals, SupportedCpu);
    var m7 := Step(m6, SupportedCpu, vals.supportedCpu);
  }

  /** The signature fields, SHA1 to state or city. */
  lemma SignatureFieldsAgree(m7: Record, vals: FieldValues)
    requires Agrees(m7, vals, 8)
    ensures
      var m8 := Step(m7, Sha1Signature, vals.sha1Signature);
      var m9 := Step(m8, DeveloperCn, vals.developerCn);
      var m10 := Step(m9, Organization, vals.organization);
      var m11 := Step(m10, Local, vals.local);
      var m12 := Step(m11, Country, vals.country);
      var m13 := Step(m12, StateCity, vals.stateCity);
      Agrees(m13, vals, 14)
  {
    StepAgrees(m7, vals, Sha1Signature);
    var m8 := Step(m7, Sha1Signature, vals.sha1Signature);
    StepAgrees(m8, vals, DeveloperCn);
    var m9 := Step(m8, DeveloperCn, vals.developerCn);
    StepAgrees(m9, vals, Organization);
    var m10 := Step(m9, Organization, vals.organization);
    StepAgrees(m10, vals, Local);
    var m11 := Step(m10, Local, vals.local);
    StepAgrees(m11, vals, Country);
    var m12 := Step(m11, Country, vals.country);
    StepAgrees(m12, vals, StateCity);
    var m13 := Step(m12, StateCity, vals.stateCity);
  }

  /** Seeding `package_id` and then taking the fields in the source's order
      builds the record `BuiltFrom` describes; the seed is still in place
      when the source re-checks `package_id` after the CPU field. */
  lemma SourceOrderBuilds(vals: FieldValues)
    requires vals.packageId.Some?
    ensures
      var m0 := map[PackageId := vals.packageId];
      var m1 := Step(m0, Name, vals.name);
      var m2 := Step(m1, Size, vals.size);
      var m3 := Step(m2, Downloads, vals.downloads);
      var m4 := Step(m3, Version, vals.version);
      var m5 := Step(m4, ReleaseDate, vals.releaseDate);
      var m6 := Step(m5, MinScreen, vals.minScreen);
      var m7 := Step(m6, SupportedCpu, vals.supportedCpu);
      var m8 := Step(m7, Sha1Signature, vals.sha1Signature);
      var m9 := Step(m8, DeveloperCn, vals.developerCn);
      var m10 := Step(m9, Organization, vals.organization);
      var m11 := Step(m10, Local, vals.local);
      var m12 := Step(m11, Country, vals.country);
      var m13 := Step(m12, StateCity, vals.stateCity);
      && m7[PackageId := vals.packageId] == m7
      && m13 == BuiltFrom(vals)
  {
    var m0 := map[PackageId := vals.packageId];
    assert Agrees(m0, vals, 1);
    AppFieldsAgree(m0, vals);
    var m1 := Step(m0, Name, vals.name);
    var m2 := Step(m1, Size, vals.size);
    var m3 := Step(m2, Downloads, vals.downloads);
    var m4 := Step(m3, Version, vals.version);
    var m5 := Step(m4, ReleaseDate, vals.releaseDate);
    var m6 := Step(m5, MinScreen, vals.minScreen);
    var m7 := Step(m6, SupportedCpu, vals.supportedCpu);
    StoreSame(m7, PackageId);
    SignatureFieldsAgree(m7, vals);
    var m8 := Step(m7, Sha1Signature, vals.sha1Signature);
    var m9 := Step(m8, DeveloperCn, vals.developerCn);
    var m10 := Step(m9, Organization, vals.organization);
    var m11 := Step(m10, Local, vals.local);
    var m12 := Step(m11, Country, vals.country);
    var m13 := Step(m12, StateCity, vals.stateCity);
    AgreesAll(m13, vals);
  }

  /** `parse_metadata` after the page is read: seed `package_id` with the
      requested name, apply each field's rule in the source's order, storing
      a key only when the rule yields a value, then clear placeholders. */
  method ParseMetadata(page: PageCaptures, packageName: string) returns (metadata: Record)
    ensures metadata == Parsed(page, packageName)
    ensures PackageId in metadata && metadata[PackageId] == Cleared(Some(packageName))
    ensures forall f | f in metadata && metadata[f].Some? :: !IsPlaceholder(metadata[f].value)
  {
    SourceOrderBuilds(RuleValues(page, packageName));
    metadata := map[PackageId := Some(packageName)];
    metadata := Step(metadata, Name, page.heading);
    metadata := Step(metadata, Size, page.size);
    metadata := Step(metadata, Downloads, page.downloads);
    metadata := Step(metadata, Version, page.version);
    metadata := Step(metadata, ReleaseDate, page.releaseDate);
    metadata := Step(metadata, MinScreen, MinScreenRule(page.minScreen));
    metadata := Step(metadata, SupportedCpu, CpuRule(page.cpu));
    if page.packageId.Some? && page.packageId.value == packageName {
      metadata := metadata[PackageId := page.packageId];
    }
    metadata := Step(metadata, Sha1Signature, Sha1Rule(page.sha1));
    metadata := Step(metadata, DeveloperCn, DeveloperRule(page.developer));
    metadata := Step(metadata, Organization, OrganizationRule(page.organization));
    metadata := Step(metadata, Local, LocalRule(page.local));
    metadata := Step(metadata, Country, CountryRule(page.country));
    metadata := Step(metadata, StateCity, StateCityRule(page.stateCity));
    metadata := NormalizePlaceholders(metadata);
    ParsedPackageId(page, packageName);
  }

  // ---------------------------------------------------------------------------
  // What the returned record promises
  // ---------------------------------------------------------------------------

  /** A key is present exactly when its rule stored something, and its value
      is the stored one unless that was a placeholder. */
  lemma ParsedFields(page: PageCaptures, packageName: string, f: Field)
    ensures f in Parsed(page, packageName) <==> Stored(page, packageName, f).Some?
    ensures f in Parsed(page, packageName) ==>
      Parsed(page, packageName)[f] == Cleared(Stored(page, packageName, f))
  {
    assert f in AllFields;
  }

  /** `package_id` is always present and is the requested name, unless that
      name is itself a placeholder, which the final pass clears. */
  lemma ParsedPackageId(page: PageCaptures, packageName: string)
    ensures PackageId in Parsed(page, packageName)
    ensures Parsed(page, packageName)[PackageId] ==
      if IsPlaceholder(packageName) then None else Some(packageName)
  {
    var vals := RuleValues(page, packageName);
    assert ValueOf(vals, PackageId) == Some(packageName);
    assert PackageId in BuiltFrom(vals);
  }

  /** No value of the returned record is a placeholder. */
  lemma ParsedHasNoPlaceholder(page: PageCaptures, packageName: string)
    ensures forall f | f in Parsed(page, packageName) && Parsed(page, packageName)[f].Some? ::
      !IsPlaceholder(Parsed(page, packageName)[f].value)
  {
  }

  /** Running the final pass again changes nothing. */
  lemma NormalizedIdempotent(m: Record)
    ensures Normalized(Normalized(m)) == Normalized(m)
  {
    var n := Normalized(m);
    forall k | k in n ensures Cleared(n[k]) == n[k] {
    }
  }
}
