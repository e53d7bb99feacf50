/** The locator of `AptoideScraperService.search_app_by_package`: given the
    search API's answer, pick the first candidate whose `package` is exactly
    the requested name and derive the address of its page. The HTTP request
    itself is not modelled: its status code and decoded candidate list are
    inputs. */
module Locator {
  import opened Wrappers
  import opened Text

  /** The `store` member of a candidate: missing, present but not an object
      (JSON `null`, for one), or an object with an optional `name`. */
  datatype StoreField = NoStore | StoreNotObject | StoreObject(name: Option<string>)

  /** One entry of `datalist.list`; an absent member and a JSON `null` are both
      `None`. */
  datatype Candidate = Candidate(package: Option<string>, uname: Option<string>, store: StoreField)

  /** What the locator hands back: the page URL, or the error it raises. */
  datatype SearchOutcome =
    | Found(url: string)
    | NotFound               // HTTP 404: no candidate list, or no exact match
    | UpstreamError(status: int)  // the search API answered with a status other than 200
    | InternalError          // an exception while reading the matched entry, reported as 500
  {
    /** The HTTP status the service answers with. */
    function Status(): int {
      match this
      case Found(_) => 200
      case NotFound => 404
      case UpstreamError(s) => s
      case InternalError => 500
    }
  }

  const Scheme: string := "https://"
  const Host: string := ".en.aptoide.com/"

  /** `https://{subdomain}.en.aptoide.com/{path}`. */
  function AppUrl(subdomain: string, path: string): string {
    Scheme + subdomain + Host + path
  }

  /** `package_name.replace('.', '-')`. */
  function Slug(name: string): (r: string)
    ensures |r| == |name|
    ensures forall i | 0 <= i < |name| :: r[i] == (if name[i] == '.' then '-' else name[i])
    ensures '.' !in r
  {
    if name == [] then [] else [if name[0] == '.' then '-' else name[0]] + Slug(name[1..])
  }

  /** The reverse replacement, `slug.replace('-', '.')`. */
  function Unslug(slug: string): (r: string)
    ensures |r| == |slug|
    ensures forall i | 0 <= i < |slug| :: r[i] == (if slug[i] == '-' then '.' else slug[i])
  {
    if slug == [] then [] else [if slug[0] == '-' then '.' else slug[0]] + Unslug(slug[1..])
  }

  /** A name without hyphens is recovered from its slug. */
  lemma SlugRoundTrip(name: string)
    requires '-' !in name
    ensures Unslug(Slug(name)) == name
  {
    var r := Unslug(Slug(name));
    forall i | 0 <= i < |name| ensures r[i] == name[i] {
      assert name[i] != '-';
    }
  }

  /** The index of the first `/` at or after `from`, or `|s|`. */
  function FirstSlash(s: string, from: nat): (k: nat)
    requires from <= |s|
    ensures from <= k <= |s|
    ensures k < |s| ==> s[k] == '/'
    ensures forall j | from <= j < k :: s[j] != '/'
    decreases |s| - from
  {
    if from == |s| then |s| else if s[from] == '/' then from else FirstSlash(s, from + 1)
  }

  /** Reads a page URL back into its sub-domain and its path: the host ends
      at the first `/` after the scheme, and the sub-domain is what precedes
      `.en.aptoide.com` there. */
  function SplitAppUrl(url: string): (r: Option<(string, string)>)
    ensures r.Some? ==> url == AppUrl(r.value.0, r.value.1) && '/' !in r.value.0
  {
    if !WordAt(url, 0, Scheme) then None
    else
      var k := FirstSlash(url, |Scheme|);
      if k < |url| && |Scheme| + |Host| <= k + 1 && WordAt(url, k + 1 - |Host|, Host) then
        var d := k + 1 - |Host|;
        var subdomain, path := url[|Scheme|..d], url[k + 1..];
        assert '/' !in subdomain by {
          forall i | 0 <= i < |subdomain| ensures subdomain[i] != '/' {
            assert subdomain[i] == url[|Scheme| + i];
          }
        }
        assert url == url[..|Scheme|] + url[|Scheme|..d] + url[d..k + 1] + url[k + 1..];
        Some((subdomain, path))
      else None
  }

  /** Every URL built from a sub-domain without `/` reads back into that
      sub-domain and path; dots in the sub-domain are no obstacle. */
  lemma SplitAppUrlRoundTrip(subdomain: string, path: string)
    requires '/' !in subdomain
    ensures SplitAppUrl(AppUrl(subdomain, path)) == Some((subdomain, path))
  {
    var url := AppUrl(subdomain, path);
    var d := |Scheme| + |subdomain|;
    var k := d + |Host| - 1;
    assert url[..|Scheme|] == Scheme;
    assert url[d..d + |Host|] == Host;
    assert url[k] == '/';
    forall j | |Scheme| <= j < k ensures url[j] != '/' {
      if j < d {
        assert url[j] == subdomain[j - |Scheme|];
      } else {
        assert url[j] == Host[j - d];
      }
    }
    assert FirstSlash(url, |Scheme|) == k;
    assert url[|Scheme|..d] == subdomain;
    assert url[k + 1..] == path;
  }

  /** `app.get('uname', '')`, with `None` read as the empty string. */
  function UnameOf(c: Candidate): string {
    c.uname.GetOr("")
  }

  /** `app.get('store', {}).get('name', '')`; only meaningful when `store` is
      missing or an object. */
  function StoreNameOf(c: Candidate): string {
    if c.store.StoreObject? then c.store.name.GetOr("") else ""
  }

  /** The URL derived from a matched candidate. Reading `store.name` comes
      first and fails when `store` is not an object, whatever `uname` holds;
      otherwise a non-empty `uname` wins, then a non-empty store name, then
      the slug of the package name. */
  function PageUrl(c: Candidate, packageName: string): (r: SearchOutcome)
    ensures r.Found? || r.InternalError?
    ensures r.InternalError? <==> c.store.StoreNotObject?
  {
    if c.store.StoreNotObject? then InternalError
    else if UnameOf(c) != "" then Found(AppUrl(UnameOf(c), "app"))
    else if StoreNameOf(c) != "" then Found(AppUrl(StoreNameOf(c), packageName))
    else Found(AppUrl(Slug(packageName), "app"))
  }

  /** The three priorities: a non-empty `uname` gives `uname`/`app`, whatever
      the store holds; otherwise a non-empty store name gives the store/package
      name; otherwise the slug and `app`. Where the name has no `/`, the URL
      reads back into exactly those parts. */
  lemma PageUrlPriority(c: Candidate, packageName: string)
    requires !c.store.StoreNotObject?
    ensures PageUrl(c, packageName).Found?
    ensures UnameOf(c) != "" ==> PageUrl(c, packageName) == Found(AppUrl(UnameOf(c), "app"))
    ensures UnameOf(c) == "" && StoreNameOf(c) != "" ==>
      PageUrl(c, packageName) == Found(AppUrl(StoreNameOf(c), packageName))
    ensures UnameOf(c) == "" && StoreNameOf(c) == "" ==>
      PageUrl(c, packageName) == Found(AppUrl(Slug(packageName), "app"))
    ensures UnameOf(c) != "" && '/' !in UnameOf(c) ==>
      SplitAppUrl(PageUrl(c, packageName).url) == Some((UnameOf(c), "app"))
    ensures UnameOf(c) == "" && StoreNameOf(c) != "" && '/' !in StoreNameOf(c) ==>
      SplitAppUrl(PageUrl(c, packageName).url) == Some((StoreNameOf(c), packageName))
    ensures UnameOf(c) == "" && StoreNameOf(c) == "" && '/' !in packageName ==>
      SplitAppUrl(PageUrl(c, packageName).url) == Some((Slug(packageName), "app"))
  {
    if UnameOf(c) != "" {
      if '/' !in UnameOf(c) { SplitAppUrlRoundTrip(UnameOf(c), "app"); }
    } else if StoreNameOf(c) != "" {
      if '/' !in StoreNameOf(c) { SplitAppUrlRoundTrip(StoreNameOf(c), packageName); }
    } else if '/' !in packageName {
      var slug := Slug(packageName);
      assert '/' !in slug by {
        forall i | 0 <= i < |slug| ensures slug[i] != '/' {
          assert packageName[i] != '/';
        }
      }
      SplitAppUrlRoundTrip(slug, "app");
    }
  }

  /** Candidate `k` is the first whose `package` equals `name` exactly. */
  predicate IsFirstMatch(cands: seq<Candidate>, k: nat, name: string) {
    && k < |cands|
    && cands[k].package == Some(name)
    && forall j | 0 <= j < k :: cands[j].package != Some(name)
  }

  /** The scan of `datalist.list`: the first exact match decides. */
  function Locate(cands: seq<Candidate>, name: string): (r: SearchOutcome)
    ensures r.NotFound? <==> forall i | 0 <= i < |cands| :: cands[i].package != Some(name)
    ensures !r.UpstreamError?
  {
    if cands == [] then NotFound
    else if cands[0].package == Some(name) then PageUrl(cands[0], name)
    else Locate(cands[1..], name)
  }

  /** The located page is the one derived from the first exact match. */
  lemma {:induction false} LocateFirstMatch(cands: seq<Candidate>, k: nat, name: string)
    requires IsFirstMatch(cands, k, name)
    ensures Locate(cands, name) == PageUrl(cands[k], name)
  {
    if k > 0 {
      assert cands[0].package != Some(name);
      forall j | 0 <= j < k - 1 ensures cands[1..][j].package != Some(name) {
        assert cands[1..][j] == cands[j + 1];
      }
      LocateFirstMatch(cands[1..], k - 1, name);
    }
  }

  /** Once a list holds a match, whatever follows it is ignored. */
  lemma {:induction false} LocateIgnoresLater(cands: seq<Candidate>, rest: seq<Candidate>, name: string)
    requires exists i | 0 <= i < |cands| :: cands[i].package == Some(name)
    ensures Locate(cands + rest, name) == Locate(cands, name)
  {
    if cands[0].package != Some(name) {
      assert (cands + rest)[1..] == cands[1..] + rest;
      var i :| 0 <= i < |cands| && cands[i].package == Some(name);
      assert cands[1..][i - 1].package == Some(name);
      LocateIgnoresLater(cands[1..], rest, name);
    }
  }

  /** `search_app_by_package` after the HTTP call. `candidates` is
      `datalist.list`, or `None` when it is missing. A non-200 status is passed
      through, a missing list is not-found, and otherwise the candidates are
      scanned in order with an early return on the first match. */
  method SearchAppByPackage(status: int, candidates: Option<seq<Candidate>>, packageName: string)
    returns (r: SearchOutcome)
    ensures status != 200 ==> r == UpstreamError(status)
    ensures status == 200 && candidates.None? ==> r == NotFound
    ensures status == 200 && candidates.Some? ==> r == Locate(candidates.value, packageName)
    ensures r.Found? <==> r.Status() == 200
    ensures status != 200 ==> r.Status() == status
  {
    if status != 200 {
      return UpstreamError(status);
    }
    if candidates.None? {
      return NotFound;
    }
    var apps := candidates.value;
    var i := 0;
    while i < |apps|
      invariant 0 <= i <= |apps|
      invariant Locate(apps[i..], packageName) == Locate(apps, packageName)
    {
      if apps[i].package == Some(packageName) {
        return PageUrl(apps[i], packageName);
      }
      assert apps[i..][1..] == apps[i + 1..];
      i := i + 1;
    }
    return NotFound;
  }
}
