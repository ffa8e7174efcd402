/**
 * The supported release tables of the Belle II software and the resolver
 * that maps a release name a user has set up to the supported release it
 * should be replaced by (`supported_release`).
 */
module Releases {
  import opened Wrappers
  import opened Strings
  import opened LooseVersion

  /** The release recommended when none is given. */
  const RecommendedRelease: string := "light-2409-toyger"

  /** The supported full releases, oldest first. */
  const SupportedReleases: seq<string> := [
    "release-05-01-25", "release-05-02-19",
    "release-06-00-14", "release-06-01-15", "release-06-02-00",
    "release-08-00-10", "release-08-01-10", "release-08-02-02"
  ]

  /** The supported light releases, oldest first. */
  const SupportedLightReleases: seq<string> := [
    "light-2401-ocicat", "light-2403-persian", "light-2405-quaxo", "light-2406-ragdoll", "light-2409-toyger"
  ]

  /** Every supported full release is a `release-` name with fields after the keyword. */
  lemma ListedNamesVersioned()
    ensures forall k :: 0 <= k < |SupportedReleases| ==>
      StartsWith(SupportedReleases[k], "release-") && SupportedReleases[k] != "release-"
  {
  }

  /** The numeric fields of each entry of `SupportedReleases`, in the same order. */
  const SupportedVersions: seq<seq<nat>> := [
    [5, 1, 25], [5, 2, 19],
    [6, 0, 14], [6, 1, 15], [6, 2, 0],
    [8, 0, 10], [8, 1, 10], [8, 2, 2]
  ]

  const NewestRelease: string := SupportedReleases[|SupportedReleases| - 1]
  const NewestVersion: seq<nat> := SupportedVersions[|SupportedVersions| - 1]
  const NewestLightRelease: string := SupportedLightReleases[|SupportedLightReleases| - 1]

  /** What `l == sorted(l)` asserts of a list of distinct strings. */
  ghost predicate StrictlyAscending(l: seq<string>) {
    forall i, j :: 0 <= i < j < |l| ==> StrLess(l[i], l[j])
  }

  lemma {:induction false} AscendingFromNeighbours(l: seq<string>)
    requires forall i :: 0 <= i < |l| - 1 ==> StrLess(l[i], l[i + 1])
    ensures StrictlyAscending(l)
  {
    if |l| > 1 {
      AscendingFromNeighbours(l[1..]);
      forall j | 1 < j < |l| ensures StrLess(l[0], l[j]) {
        assert StrLess(l[1..][0], l[1..][j - 1]);
        StrLessTransitive(l[0], l[1], l[j]);
      }
    }
  }

  /** The full release list is sorted, as the module asserts when it is loaded. */
  lemma SupportedReleasesSorted()
    ensures StrictlyAscending(SupportedReleases)
  {
    var r := SupportedReleases;
    StrLessAt(r[0], r[1], 12);
    StrLessAt(r[1], r[2], 9);
    StrLessAt(r[2], r[3], 12);
    StrLessAt(r[3], r[4], 12);
    StrLessAt(r[4], r[5], 9);
    StrLessAt(r[5], r[6], 12);
    StrLessAt(r[6], r[7], 12);
    AscendingFromNeighbours(r);
  }

  /** The light release list is sorted, as the module asserts when it is loaded. */
  lemma SupportedLightReleasesSorted()
    ensures StrictlyAscending(SupportedLightReleases)
  {
    var l := SupportedLightReleases;
    StrLessAt(l[0], l[1], 9);
    StrLessAt(l[1], l[2], 9);
    StrLessAt(l[2], l[3], 9);
    StrLessAt(l[3], l[4], 9);
    AscendingFromNeighbours(l);
  }

  /** `basf2_version`: the loose version of the dash-separated fields after the leading keyword. */
  function Basf2Version(release: string): (r: seq<Component>)
    ensures StartsWith(release, "release-") && release != "release-" ==>
      r == Parse(VersionString(release)) && VersionString(release) != ""
  {
    if StartsWith(release, "release-") && release != "release-" then
      VersionStringNonEmpty(release);
      Parse(VersionString(release))
    else Parse(VersionString(release))
  }

  /** The string `basf2_version` hands to `LooseVersion`: the fields after the first dash, joined by dots. */
  function VersionString(release: string): string {
    Join(Split(release, '-')[1..], '.')
  }

  /**
   * Every `release-` name the resolver compares has something after the
   * keyword, so the string handed to `LooseVersion` is never empty.
   */
  lemma VersionStringNonEmpty(release: string)
    requires StartsWith(release, "release-") && release != "release-"
    ensures VersionString(release) != ""
  {
    var u := release[8..];
    assert release == "release" + ("-" + u);
    SplitAfterPlainPrefix("release", "-" + u, '-');
    SplitUnfold("-" + u, '-');
    assert ("-" + u)[1..] == u;
    assert Split(release, '-')[1..] == Split(u, '-');
    JoinSplit(u, '-');
    JoinLength(Split(u, '-'), '-', '.');
  }

  /** A release named by decimal fields has those fields' values as its version. */
  lemma {:induction false} FieldsVersion(fields: seq<string>)
    requires |fields| >= 1
    requires forall k :: 0 <= k < |fields| ==> fields[k] != "" && IsDecimal(fields[k])
    ensures Basf2Version("release-" + Join(fields, '-')) == Nums(DecimalValues(fields))
  {
    var parts := ["release"] + fields;
    assert parts[1..] == fields;
    assert Join(parts, '-') == "release-" + Join(fields, '-');
    forall k | 0 <= k < |parts| ensures '-' !in parts[k] {
      if k > 0 {
        assert parts[k] == fields[k - 1];
        assert IsDecimal(fields[k - 1]);
      }
    }
    SplitJoin(parts, '-');
    ParseDecimalFields(fields);
  }

  lemma ListedVersion(name: string, fields: seq<string>, xs: seq<nat>)
    requires |fields| >= 1
    requires forall k :: 0 <= k < |fields| ==> fields[k] != "" && IsDecimal(fields[k])
    requires name == "release-" + Join(fields, '-') && DecimalValues(fields) == xs
    ensures Basf2Version(name) == Nums(xs)
  {
    FieldsVersion(fields);
  }

  // One lemma per entry: each unfolds the parse of one literal name, and
  // keeping them apart keeps every proof small.
  lemma ListedVersion0()
    ensures Basf2Version(SupportedReleases[0]) == Nums(SupportedVersions[0])
  {
    ListedVersion(SupportedReleases[0], ["05", "01", "25"], SupportedVersions[0]);
  }

  lemma ListedVersion1()
    ensures Basf2Version(SupportedReleases[1]) == Nums(SupportedVersions[1])
  {
    ListedVersion(SupportedReleases[1], ["05", "02", "19"], SupportedVersions[1]);
  }

  lemma ListedVersion2()
    ensures Basf2Version(SupportedReleases[2]) == Nums(SupportedVersions[2])
  {
    ListedVersion(SupportedReleases[2], ["06", "00", "14"], SupportedVersions[2]);
  }

  lemma ListedVersion3()
    ensures Basf2Version(SupportedReleases[3]) == Nums(SupportedVersions[3])
  {
    ListedVersion(SupportedReleases[3], ["06", "01", "15"], SupportedVersions[3]);
  }

  lemma ListedVersion4()
    ensures Basf2Version(SupportedReleases[4]) == Nums(SupportedVersions[4])
  {
    ListedVersion(SupportedReleases[4], ["06", "02", "00"], SupportedVersions[4]);
  }

  lemma ListedVersion5()
    ensures Basf2Version(SupportedReleases[5]) == Nums(SupportedVersions[5])
  {
    ListedVersion(SupportedReleases[5], ["08", "00", "10"], SupportedVersions[5]);
  }

  lemma ListedVersion6()
    ensures Basf2Version(SupportedReleases[6]) == Nums(SupportedVersions[6])
  {
    ListedVersion(SupportedReleases[6], ["08", "01", "10"], SupportedVersions[6]);
  }

  lemma ListedVersion7()
    ensures Basf2Version(SupportedReleases[7]) == Nums(SupportedVersions[7])
  {
    ListedVersion(SupportedReleases[7], ["08", "02", "02"], SupportedVersions[7]);
  }

  /** Every supported full release has the numeric version listed beside it. */
  lemma SupportedVersionsParse()
    ensures |SupportedVersions| == |SupportedReleases|
    ensures forall k :: 0 <= k < |SupportedReleases| ==>
      Basf2Version(SupportedReleases[k]) == Nums(SupportedVersions[k])
  {
    forall k | 0 <= k < |SupportedReleases|
      ensures Basf2Version(SupportedReleases[k]) == Nums(SupportedVersions[k])
    {
      if k == 0 { ListedVersion0(); }
      else if k == 1 { ListedVersion1(); }
      else if k == 2 { ListedVersion2(); }
      else if k == 3 { ListedVersion3(); }
      else if k == 4 { ListedVersion4(); }
      else if k == 5 { ListedVersion5(); }
      else if k == 6 { ListedVersion6(); }
      else { ListedVersion7(); }
    }
  }

  /** The supported full releases are also strictly ascending by version. */
  lemma SupportedVersionsAscend()
    ensures forall i, j :: 0 <= i < j < |SupportedVersions| ==> LexLess(SupportedVersions[i], SupportedVersions[j])
  {
    var v := SupportedVersions;
    forall i | 0 <= i < |v| - 1 ensures LexLess(v[i], v[i + 1]) {
      NumericLess(v[i], v[i + 1]);
    }
    forall i, j | 0 <= i < j < |v| ensures LexLess(v[i], v[j]) {
      AscendingStep(v, i, j);
    }
  }

  lemma {:induction false} AscendingStep(v: seq<seq<nat>>, i: nat, j: nat)
    requires i < j < |v|
    requires forall k :: 0 <= k < |v| - 1 ==> LexLess(v[k], v[k + 1])
    ensures LexLess(v[i], v[j])
  {
    if j > i + 1 {
      AscendingStep(v, i, j - 1);
      LexLessStrictOrder(v[i], v[j - 1], v[j]);
    }
  }

  /** The input with a leading `pre` replaced by its characters 3 to 18, as `release[3:19]`. */
  function StripPre(release: string): (r: string)
    ensures |r| <= |release|
    ensures !StartsWith(release, "pre") ==> r == release
    ensures StartsWith(release, "prerelease-") ==> StartsWith(r, "release-")
  {
    if StartsWith(release, "pre") then
      var name := Slice(release, 3, 19);
      assert StartsWith(release, "prerelease-") ==> release[3..11] == "release-" && name[..8] == release[3..11];
      name
    else release
  }

  /** The first candidate whose version is strictly greater than `v` (the loop of `supported_release`). */
  function FirstNewer(v: seq<Component>, candidates: seq<string>): (r: Result<Option<string>, CompareError>)
    ensures r.Err? ==> exists c :: c in candidates && Compare(v, Basf2Version(c)).Err?
    ensures r.Ok? && r.value.Some? ==>
      r.value.value in candidates && Compare(v, Basf2Version(r.value.value)) == Ok(Less)
    ensures r.Ok? && r.value.None? ==>
      forall c :: c in candidates ==> Compare(v, Basf2Version(c)).Ok? && Compare(v, Basf2Version(c)).value != Less
  {
    if candidates == [] then Ok(None)
    else
      match Compare(v, Basf2Version(candidates[0]))
      case Err(e) => Err(e)
      case Ok(o) => if o == Less then Ok(Some(candidates[0])) else FirstNewer(v, candidates[1..])
  }

  /** The search stops at the first candidate that is newer than `v`. */
  lemma {:induction false} FirstNewerFinds(v: seq<Component>, candidates: seq<string>, k: nat)
    requires k < |candidates| && Compare(v, Basf2Version(candidates[k])) == Ok(Less)
    requires forall j :: 0 <= j < k ==>
      Compare(v, Basf2Version(candidates[j])) in {Ok(Equal), Ok(Greater)}
    ensures FirstNewer(v, candidates) == Ok(Some(candidates[k]))
  {
    if k > 0 {
      assert Compare(v, Basf2Version(candidates[0])) in {Ok(Equal), Ok(Greater)};
      FirstNewerFinds(v, candidates[1..], k - 1);
    }
  }

  /** The last branches of `supported_release`: a light release or the newest full release. */
  function LightOrNewest(release: string): (r: string)
    ensures StartsWith(release, "light") ==>
      r in SupportedLightReleases && (release in SupportedLightReleases <==> r == release)
    ensures !StartsWith(release, "light") ==> r == NewestRelease
  {
    if StartsWith(release, "light") then
      if release in SupportedLightReleases then release else NewestLightRelease
    else NewestRelease
  }

  /**
   * The comparison branch of `supported_release` for a `release-` name:
   * kept when not older than the newest supported release, otherwise the
   * first listed release that is strictly newer. Either comparison may fail.
   */
  function ResolveVersioned(name: string): (r: Result<string, CompareError>)
    ensures r.Ok? ==> r.value in SupportedReleases || r.value in SupportedLightReleases || r.value == name
  {
    match Compare(Basf2Version(name), Basf2Version(NewestRelease))
    case Err(e) => Err(e)
    case Ok(o) =>
      if o != Less then Ok(name)
      else
        match FirstNewer(Basf2Version(name), SupportedReleases)
        case Err(e) => Err(e)
        case Ok(found) => if found.Some? then Ok(found.value) else Ok(LightOrNewest(name))
  }

  /** The branches of `supported_release` once a leading `pre` has been stripped. */
  function ResolveName(name: string): (r: Result<string, CompareError>)
    ensures r.Err? ==> StartsWith(name, "release-")
    ensures r.Ok? ==>
      || r.value in SupportedReleases
      || r.value in SupportedLightReleases
      || (r.value == name && StartsWith(name, "release-"))
  {
    if name == "release-" then Ok(NewestRelease)
    else if StartsWith(name, "release-") then ResolveVersioned(name)
    else Ok(LightOrNewest(name))
  }

  /**
   * `supported_release`: the supported release that best matches `release`.
   * The answer is a listed release or the (pre-stripped) input itself, and
   * only a `release-` input, whose version is compared, can fail.
   */
  function SupportedRelease(release: Option<string> := None): (r: Result<string, CompareError>)
    ensures r.Err? ==> release.Some? && StartsWith(StripPre(release.value), "release-")
    ensures r.Ok? ==>
      || r.value in SupportedReleases
      || r.value in SupportedLightReleases
      || (release.Some? && r.value == StripPre(release.value) && StartsWith(r.value, "release-"))
  {
    match release
    case None => Ok(RecommendedRelease)
    case Some(given) => ResolveName(StripPre(given))
  }

  /** With no argument the recommended release, itself the newest light release, is returned. */
  lemma ResolveDefault()
    ensures SupportedRelease() == Ok(RecommendedRelease)
    ensures RecommendedRelease == NewestLightRelease
  {
  }

  /** A `light` name resolves to itself when listed and to the newest light release otherwise. */
  lemma ResolveLight(given: string)
    requires StartsWith(StripPre(given), "light")
    ensures SupportedRelease(Some(given)) ==
      Ok(if StripPre(given) in SupportedLightReleases then StripPre(given) else NewestLightRelease)
  {
    PrefixesExclude(StripPre(given), "light", "release-");
  }

  /** A name that is neither a versioned `release-` name nor a `light` name resolves to the newest full release. */
  lemma ResolveUnrecognised(given: string)
    requires !StartsWith(StripPre(given), "light")
    requires StripPre(given) == "release-" || !StartsWith(StripPre(given), "release-")
    ensures SupportedRelease(Some(given)) == Ok(NewestRelease)
  {
  }

  /** A `prerelease-` name resolves as the `release-` name made of its characters 3 to 18. */
  lemma ResolvePrerelease(given: string)
    requires StartsWith(given, "prerelease-")
    ensures StartsWith(Slice(given, 3, 19), "release-")
    ensures SupportedRelease(Some(given)) == SupportedRelease(Some(Slice(given, 3, 19)))
  {
    var name := Slice(given, 3, 19);
    assert given[3..11] == "release-";
    assert name[..8] == given[3..11];
    PrefixesExclude(name, "release-", "pre");
    assert StripPre(given) == name && StripPre(name) == name;
  }

  /** A `release-` name whose version is at least the newest supported one is kept. */
  lemma ResolveRecentRelease(given: string)
    requires StartsWith(given, "release-") && given != "release-"
    requires Compare(Basf2Version(given), Basf2Version(NewestRelease)) in {Ok(Equal), Ok(Greater)}
    ensures SupportedRelease(Some(given)) == Ok(given)
  {
    PrefixesExclude(given, "release-", "pre");
  }

  /**
   * A numeric `release-` name older than the newest supported release is
   * rounded up: it resolves to the first listed release whose version is
   * strictly greater, which, the list being ascending, is also the smallest
   * listed version above it, and never the input itself.
   */
  lemma ResolveOlderRelease(given: string, xs: seq<nat>, k: nat)
    requires StartsWith(given, "release-") && given != "release-"
    requires Basf2Version(given) == Nums(xs)
    requires k < |SupportedReleases| && LexLess(xs, SupportedVersions[k])
    requires forall j :: 0 <= j < k ==> !LexLess(xs, SupportedVersions[j])
    ensures SupportedRelease(Some(given)) == Ok(SupportedReleases[k])
    ensures SupportedReleases[k] != given
    ensures forall j :: 0 <= j < |SupportedVersions| && LexLess(xs, SupportedVersions[j]) ==>
      j == k || LexLess(SupportedVersions[k], SupportedVersions[j])
  {
    PrefixesExclude(given, "release-", "pre");
    SupportedVersionsParse();
    SupportedVersionsAscend();
    var last := |SupportedReleases| - 1;
    if k < last {
      LexLessStrictOrder(xs, SupportedVersions[k], SupportedVersions[last]);
    }
    NumericCompare(xs, SupportedVersions[last]);
    forall j | 0 <= j < k
      ensures Compare(Basf2Version(given), Basf2Version(SupportedReleases[j])) in {Ok(Equal), Ok(Greater)}
    {
      NumericCompare(xs, SupportedVersions[j]);
    }
    NumericCompare(xs, SupportedVersions[k]);
    FirstNewerFinds(Basf2Version(given), SupportedReleases, k);
    LexLessStrictOrder(xs, xs, xs);
    NumsInjective(xs, SupportedVersions[k]);
  }

  /**
   * Every numeric `release-` name resolves without failing: to itself when
   * it is not older than the newest supported release, otherwise to a
   * listed release other than itself.
   */
  lemma ResolveNumericRelease(given: string, xs: seq<nat>)
    requires StartsWith(given, "release-") && given != "release-"
    requires Basf2Version(given) == Nums(xs)
    ensures SupportedRelease(Some(given)).Ok?
    ensures !LexLess(xs, NewestVersion) ==> SupportedRelease(Some(given)) == Ok(given)
    ensures LexLess(xs, NewestVersion) ==>
      SupportedRelease(Some(given)).value in SupportedReleases &&
      SupportedRelease(Some(given)).value != given
  {
    PrefixesExclude(given, "release-", "pre");
    SupportedVersionsParse();
    NumericCompare(xs, NewestVersion);
    if LexLess(xs, NewestVersion) {
      var v := Basf2Version(given);
      forall c | c in SupportedReleases ensures Compare(v, Basf2Version(c)).Ok? {
        var j :| 0 <= j < |SupportedReleases| && SupportedReleases[j] == c;
        NumericCompare(xs, SupportedVersions[j]);
      }
      var found := FirstNewer(v, SupportedReleases);
      assert found.Ok?;
      assert found.value.Some?;
      var c := found.value.value;
      var j :| 0 <= j < |SupportedReleases| && SupportedReleases[j] == c;
      NumericCompare(xs, SupportedVersions[j]);
      NumsInjective(xs, SupportedVersions[j]);
      LexLessStrictOrder(xs, xs, xs);
    }
  }

  /**
   * Because the search uses a strict comparison, a listed full release
   * other than the newest resolves to the next listed one.
   */
  lemma ListedReleaseAdvances(i: nat)
    requires i + 1 < |SupportedReleases|
    ensures SupportedRelease(Some(SupportedReleases[i])) == Ok(SupportedReleases[i + 1])
  {
    var v := SupportedVersions;
    ListedNamesVersioned();
    SupportedVersionsParse();
    SupportedVersionsAscend();
    forall j | 0 <= j < i + 1 ensures !LexLess(v[i], v[j]) {
      LexLessStrictOrder(v[i], v[j], v[i]);
    }
    ResolveOlderRelease(SupportedReleases[i], v[i], i + 1);
  }

  /** The newest full release resolves to itself. */
  lemma NewestReleaseIsFixed()
    ensures SupportedRelease(Some(NewestRelease)) == Ok(NewestRelease)
  {
    ListedVersion7();
    LexLessStrictOrder(NewestVersion, NewestVersion, NewestVersion);
    ResolveNumericRelease(NewestRelease, NewestVersion);
  }

  /** No full release is listed twice. */
  lemma ListedDistinct(i: nat, j: nat)
    requires i < j < |SupportedReleases|
    ensures SupportedReleases[i] != SupportedReleases[j]
  {
    SupportedReleasesSorted();
    StrLessTrichotomy(SupportedReleases[i], SupportedReleases[j]);
  }

  /**
   * Resolution is not idempotent: resolving the result again moves on once
   * more for every listed release but the two newest.
   */
  lemma ResolutionNotIdempotent(i: nat)
    requires i + 2 < |SupportedReleases|
    ensures SupportedRelease(Some(SupportedReleases[i])) == Ok(SupportedReleases[i + 1])
    ensures SupportedRelease(Some(SupportedRelease(Some(SupportedReleases[i])).value)) != SupportedRelease(Some(SupportedReleases[i]))
  {
    ListedReleaseAdvances(i);
    ListedReleaseAdvances(i + 1);
    ListedDistinct(i + 1, i + 2);
  }

  /** The sequence reversed. */
  function Reverse(l: seq<string>): (r: seq<string>)
    ensures |r| == |l|
    ensures forall i :: 0 <= i < |l| ==> r[i] == l[|l| - 1 - i]
  {
    if l == [] then [] else Reverse(l[1..]) + [l[0]]
  }

  /** `get_supported_releases`: the supported full (or light) releases, newest first. */
  function GetSupportedReleases(light: bool := false): (r: seq<string>)
    ensures |r| == |if light then SupportedLightReleases else SupportedReleases|
    ensures forall i :: 0 <= i < |r| ==>
      r[i] == (if light then SupportedLightReleases else SupportedReleases)[|r| - 1 - i]
  {
    Reverse(if light then SupportedLightReleases else SupportedReleases)
  }

  /** Reversing a strictly ascending list gives a strictly descending one. */
  lemma ReverseDescending(l: seq<string>)
    requires StrictlyAscending(l)
    ensures forall i, j :: 0 <= i < j < |l| ==> StrLess(Reverse(l)[j], Reverse(l)[i])
  {
    var r := Reverse(l);
    forall i, j | 0 <= i < j < |l| ensures StrLess(r[j], r[i]) {
      assert r[j] == l[|l| - 1 - j] && r[i] == l[|l| - 1 - i];
    }
  }

  /** The listed releases come newest first and strictly descending. */
  lemma SupportedReleasesNewestFirst(light: bool)
    ensures GetSupportedReleases(light)[0] == (if light then NewestLightRelease else NewestRelease)
    ensures forall i, j :: 0 <= i < j < |GetSupportedReleases(light)| ==>
      StrLess(GetSupportedReleases(light)[j], GetSupportedReleases(light)[i])
  {
    if light {
      SupportedLightReleasesSorted();
      ReverseDescending(SupportedLightReleases);
    } else {
      SupportedReleasesSorted();
      ReverseDescending(SupportedReleases);
    }
  }

  /** `get_recommended_training_release`: how `"light"` resolves, the newest light release. */
  function RecommendedTrainingRelease(): (r: string)
    ensures r == NewestLightRelease
  {
    PrefixesExclude("light", "light", "pre");
    ResolveLight("light");
    match SupportedRelease(Some("light"))
    case Ok(name) => name
    case Err(_) => ""
  }
}
