/**
 * The global tag composer: given the release a user has set up, the global
 * tags of the input files and their event metadata, it recommends an
 * ordered list of global tags, advice for the user and, where the release
 * should change, the release to use instead
 * (`recommended_global_tags_v2` and its older wrapper
 * `recommended_global_tags`), plus the small tag lookups beside it.
 */
module GlobalTags {
  import opened Wrappers
  import opened Strings
  import opened Releases

  /** A key of a metadata record, which may be absent like a missing dictionary key. */
  datatype Field<T> = Missing | Present(value: T)

  /** The keys of an `EventMetaData` record the composer reads. */
  datatype EventMetaData = EventMetaData(
    release: Field<Option<string>>,
    isMC: Field<bool>,
    experimentLow: Field<int>,
    experimentHigh: Field<int>)

  /** `None` when events are generated, otherwise the list of the input files' records (empty for B2BII input). */
  datatype Metadata = NoInput | Records(records: seq<EventMetaData>)

  /** One piece of advice appended to the message, in place of its formatted text. */
  datatype Advice =
    | RecommendRelease(used: string, recommended: string)
    | NoDataTag
    | NoMcTag
    | NoAnalysisTag
    | DiffersFromBase(baseTags: seq<string>)
    | UseDefaultConfiguration

  /** The result dictionary: the tags, the message and the optional `release` entry. */
  datatype Recommendation = Recommendation(tags: seq<string>, message: seq<Advice>, release: Option<string>)

  /** The exceptions the composer can raise. */
  datatype Error = KeyError(key: string) | TypeError

  const OnlineTag: string := "online"
  const B2biiTag: string := "B2BII"
  const DataTag: string := "data_reprocessing_proc9"
  const McTag: string := "mc_production_mc12"
  const AnalysisTag: string := "analysis_tools_light-2406-ragdoll"

  /** The releases the analysis tag table covers: all supported ones and the next major release. */
  const AnalysisReleases: seq<string> := SupportedReleases + SupportedLightReleases + ["release-09-00-00"]

  /** Recommended data tag per release. */
  const DataTags: map<string, string> := map[NewestRelease := DataTag]

  /** Recommended run-dependent MC tag per release. */
  const McTags: map<string, string> := map[NewestRelease := McTag]

  /** Recommended analysis tag per release. */
  const AnalysisTags: map<string, string> := map r | r in AnalysisReleases :: AnalysisTag

  /** `table.get(release, None)` */
  function Lookup(table: map<string, string>, release: string): (r: Option<string>)
    ensures r.Some? <==> release in table
    ensures r.Some? ==> r.value == table[release]
  {
    if release in table then Some(table[release]) else None
  }

  /** Python's truth value of an optional tag: present and not empty. */
  predicate Truthy(tag: Option<string>) {
    tag.Some? && tag.value != ""
  }

  /** A one-element list holding the tag when it is truthy, otherwise the empty list. */
  function TagIf(tag: Option<string>): (r: seq<string>)
    ensures Truthy(tag) ==> r == [tag.value]
    ensures !Truthy(tag) ==> r == []
  {
    if Truthy(tag) then [tag.value] else []
  }

  /** A tag of a main global tag (kept last in the recommendation). */
  predicate IsMainTag(tag: string) {
    StartsWith(tag, "main_") || StartsWith(tag, "master_") || StartsWith(tag, "release-") || StartsWith(tag, "prerelease-")
  }

  /** A run-dependent MC tag. */
  predicate IsMcTag(tag: string) {
    StartsWith(tag, "mc_")
  }

  /** `existing_main_tags`: the main tags among `tags`, in their order. */
  function MainTags(tags: seq<string>): (r: seq<string>)
    ensures |r| <= |tags|
    ensures forall t :: t in r <==> t in tags && IsMainTag(t)
  {
    if tags == [] then []
    else (if IsMainTag(tags[0]) then [tags[0]] else []) + MainTags(tags[1..])
  }

  /** `existing_mc_tags`: the MC tags among `tags`, in their order. */
  function McTagsIn(tags: seq<string>): (r: seq<string>)
    ensures |r| <= |tags|
    ensures forall t :: t in r <==> t in tags && IsMcTag(t)
  {
    if tags == [] then []
    else (if IsMcTag(tags[0]) then [tags[0]] else []) + McTagsIn(tags[1..])
  }

  /** Selecting the main tags of two lists one after the other is selecting those of their concatenation: the order is kept. */
  lemma {:induction false} MainTagsAppend(a: seq<string>, b: seq<string>)
    ensures MainTags(a + b) == MainTags(a) + MainTags(b)
  {
    if a != [] {
      assert (a + b)[0] == a[0] && (a + b)[1..] == a[1..] + b;
      MainTagsAppend(a[1..], b);
    } else {
      assert a + b == b;
    }
  }

  /** A list of main tags only is kept whole. */
  lemma {:induction false} MainTagsOfMainTags(tags: seq<string>)
    requires forall k :: 0 <= k < |tags| ==> IsMainTag(tags[k])
    ensures MainTags(tags) == tags
  {
    if tags != [] {
      MainTagsOfMainTags(tags[1..]);
    }
  }

  /** The experiments `0`, `1002` and `1003` mark run-independent MC when a file covers only one of them. */
  predicate IsRunIndependentMc(low: int, high: int) {
    low == high && (low == 0 || low == 1002 || low == 1003)
  }

  /** The first key the composer reads from the first record and finds missing (in reading order). */
  function MissingKey(metadata: Metadata): (r: Option<string>)
    ensures r.Some? ==> metadata.Records? && metadata.records != []
    ensures r.None? && metadata.Records? && metadata.records != [] ==>
      metadata.records[0].isMC.Present? &&
      metadata.records[0].experimentLow.Present? && metadata.records[0].experimentHigh.Present?
  {
    if metadata.NoInput? || metadata.records == [] then None
    else
      var m := metadata.records[0];
      if m.release.Missing? then Some("release")
      else if m.isMC.Missing? then Some("isMC")
      else if m.experimentLow.Missing? then Some("experimentLow")
      else if m.experimentHigh.Missing? then Some("experimentHigh")
      else None
  }

  /**
   * Each key is reported exactly when it is absent from the first record and
   * every key read before it (`release`, `isMC`, `experimentLow`,
   * `experimentHigh`, in that order) is present; when none is reported, a
   * first record holds all four.
   */
  lemma MissingKeyInReadingOrder(metadata: Metadata)
    ensures var r := MissingKey(metadata);
      var first := metadata.Records? && metadata.records != [];
      (r == Some("release") <==> first && metadata.records[0].release.Missing?) &&
      (r == Some("isMC") <==>
        first && metadata.records[0].release.Present? && metadata.records[0].isMC.Missing?) &&
      (r == Some("experimentLow") <==>
        first && metadata.records[0].release.Present? && metadata.records[0].isMC.Present? &&
        metadata.records[0].experimentLow.Missing?) &&
      (r == Some("experimentHigh") <==>
        first && metadata.records[0].release.Present? && metadata.records[0].isMC.Present? &&
        metadata.records[0].experimentLow.Present? && metadata.records[0].experimentHigh.Missing?) &&
      (r.None? && first ==>
        metadata.records[0].release.Present? && metadata.records[0].isMC.Present? &&
        metadata.records[0].experimentLow.Present? && metadata.records[0].experimentHigh.Present?)
  {
  }

  /** The input is B2BII data: an empty list of records. */
  predicate IsB2bii(metadata: Metadata) {
    metadata == Records([])
  }

  /** The first input file is run-independent MC. */
  predicate RunIndependentInput(metadata: Metadata)
    requires MissingKey(metadata).None?
  {
    metadata.Records? && metadata.records != [] &&
    IsRunIndependentMc(metadata.records[0].experimentLow.value, metadata.records[0].experimentHigh.value)
  }

  /** Whether the data tag is wanted: events are generated or the first file is not run-independent MC. */
  predicate WantsData(metadata: Metadata)
    requires MissingKey(metadata).None?
  {
    match metadata
    case NoInput => true
    case Records(rs) =>
      rs != [] && !IsRunIndependentMc(rs[0].experimentLow.value, rs[0].experimentHigh.value)
  }

  /** Whether the MC tag is wanted: events are generated or the input tags include an MC tag. */
  predicate WantsMc(metadata: Metadata, baseTags: seq<string>) {
    metadata.NoInput? || (!IsB2bii(metadata) && McTagsIn(baseTags) != [])
  }

  /** The release `override` check: a `release`/`light` name that the resolver changes. */
  predicate Overridden(release: string, recommended: string) {
    (StartsWith(release, "release") || StartsWith(release, "light")) && recommended != release
  }

  /** The data tag entry of the recommendation: the table's tag when the data tag is wanted and listed. */
  function DataPart(metadata: Metadata, recommended: string): (r: seq<string>)
    requires MissingKey(metadata).None?
    ensures r == [] || r == [DataTag]
  {
    if WantsData(metadata) then TagIf(Lookup(DataTags, recommended)) else []
  }

  /** The MC tag entry of the recommendation: the table's tag when the MC tag is wanted and listed. */
  function McPart(metadata: Metadata, baseTags: seq<string>, recommended: string): (r: seq<string>)
    ensures r == [] || r == [McTag]
  {
    if WantsMc(metadata, baseTags) then TagIf(Lookup(McTags, recommended)) else []
  }

  /** The analysis tag entry of the recommendation: the table's tag when it has one. */
  function AnalysisPart(recommended: string): (r: seq<string>)
    ensures r == [] || r == [AnalysisTag]
  {
    TagIf(Lookup(AnalysisTags, recommended))
  }

  /**
   * The recommended tags, stated as the layout of the finished list:
   * `[analysis] + [mc] + [data] + ["online"] + main tags`, or
   * `[analysis] + ["B2BII"]` for B2BII input, each optional entry present
   * only when it is wanted and its table has one.
   */
  function RecommendedTags(metadata: Metadata, baseTags: seq<string>, recommended: string): seq<string>
    requires MissingKey(metadata).None?
  {
    AnalysisPart(recommended) +
      if IsB2bii(metadata) then [B2biiTag]
      else McPart(metadata, baseTags, recommended) + (DataPart(metadata, recommended) + ([OnlineTag] + MainTags(baseTags)))
  }

  /** The advice to change release, when the resolver changes a `release`/`light` name. */
  function ReleaseAdvice(release: string, recommended: string): seq<Advice> {
    if Overridden(release, recommended) then [RecommendRelease(release, recommended)] else []
  }

  /** The warning that the data tag is wanted but the table has none. */
  function DataWarning(metadata: Metadata, recommended: string): seq<Advice>
    requires MissingKey(metadata).None?
  {
    if WantsData(metadata) && !Truthy(Lookup(DataTags, recommended)) then [NoDataTag] else []
  }

  /** The warning that the MC tag is wanted but the table has none. */
  function McWarning(metadata: Metadata, baseTags: seq<string>, recommended: string): seq<Advice> {
    if WantsMc(metadata, baseTags) && !Truthy(Lookup(McTags, recommended)) then [NoMcTag] else []
  }

  /** The warning that the table has no analysis tag. */
  function AnalysisWarning(recommended: string): seq<Advice> {
    if !Truthy(Lookup(AnalysisTags, recommended)) then [NoAnalysisTag] else []
  }

  /** The closing advice when the recommended tags are not the base tags. */
  function DiffersAdvice(tags: seq<string>, baseTags: seq<string>): seq<Advice> {
    if tags != baseTags then [DiffersFromBase(baseTags), UseDefaultConfiguration] else []
  }

  /**
   * The result dictionary of `recommended_global_tags_v2` once the metadata
   * has been read and the user's `release` resolved to `recommended`: the
   * recommended tags, the advice (release change, warnings in the order
   * data, MC, analysis, difference from the base tags) and the changed
   * release, if any.
   */
  function Compose(release: string, baseTags: seq<string>, metadata: Metadata, recommended: string): (r: Recommendation)
    requires MissingKey(metadata).None?
    ensures r.release.Some? ==> r.release.value == recommended && recommended != release
    ensures r.tags != []
  {
    var tags := RecommendedTags(metadata, baseTags, recommended);
    var message :=
      ReleaseAdvice(release, recommended) + DataWarning(metadata, recommended) +
      McWarning(metadata, baseTags, recommended) + AnalysisWarning(recommended) + DiffersAdvice(tags, baseTags);
    Recommendation(tags, message, if Overridden(release, recommended) then Some(recommended) else None)
  }

  /**
   * What `recommended_global_tags_v2` returns: the first missing metadata
   * key or a failing release comparison raises; otherwise the composition
   * for the resolved release.
   */
  function Recommend(release: string, baseTags: seq<string>, metadata: Metadata): (r: Result<Recommendation, Error>)
    ensures r.Err? && r.error.KeyError? ==> MissingKey(metadata) == Some(r.error.key)
    ensures r.Err? && r.error.TypeError? ==> MissingKey(metadata).None? && SupportedRelease(Some(release)).Err?
    ensures r.Ok? ==> MissingKey(metadata).None? && SupportedRelease(Some(release)).Ok?
  {
    match MissingKey(metadata)
    case Some(key) => Err(KeyError(key))
    case None =>
      match SupportedRelease(Some(release))
      case Err(_) => Err(TypeError)
      case Ok(recommended) => Ok(Compose(release, baseTags, metadata, recommended))
  }

  lemma AppendPair<T>(s: seq<T>, a: T, b: T)
    ensures s + [a] + [b] == s + [a, b]
  {
  }

  /**
   * The metadata reads of `recommended_global_tags_v2`: the keys of the
   * first record are read in the order `release`, `isMC`, `experimentLow`,
   * `experimentHigh`, and a missing one raises `KeyError`. The answer says
   * whether the input is run-independent MC.
   */
  method ReadMetadata(metadata: Metadata) returns (r: Result<bool, Error>)
    ensures MissingKey(metadata).Some? ==> r == Err(KeyError(MissingKey(metadata).value))
    ensures MissingKey(metadata).None? ==> r == Ok(RunIndependentInput(metadata))
  {
    var isRunIndependentMc := false;
    if metadata.Records? && metadata.records != [] {
      var m := metadata.records[0];
      if m.release.Missing? {
        return Err(KeyError("release"));
      }
      if m.isMC.Missing? {
        return Err(KeyError("isMC"));
      }
      if m.experimentLow.Missing? {
        return Err(KeyError("experimentLow"));
      }
      if m.experimentHigh.Missing? {
        return Err(KeyError("experimentHigh"));
      }
      var experiments := [m.experimentLow.value, m.experimentHigh.value];
      isRunIndependentMc := experiments[0] == experiments[1] && experiments[0] in [0, 1002, 1003];
    }
    return Ok(isRunIndependentMc);
  }

  /**
   * The tag list of `recommended_global_tags_v2`: `["B2BII"]` for B2BII
   * input, otherwise the main tags, then `online`, the data tag and the MC
   * tag each inserted at the front when wanted, and finally the analysis
   * tag inserted at the front; a wanted tag the tables lack appends a
   * warning to `message` instead.
   */
  method ComposeTags(metadata: Metadata, baseTags: seq<string>, recommended: string, isRunIndependentMc: bool,
                     message: seq<Advice>)
    returns (tags: seq<string>, message': seq<Advice>)
    requires MissingKey(metadata).None?
    requires isRunIndependentMc == RunIndependentInput(metadata)
    ensures tags == RecommendedTags(metadata, baseTags, recommended)
    ensures message' ==
      message + DataWarning(metadata, recommended) + McWarning(metadata, baseTags, recommended) + AnalysisWarning(recommended)
  {
    var existingMainTags := MainTags(baseTags);
    var existingMcTags := McTagsIn(baseTags);
    var dataTag := Lookup(DataTags, recommended);
    var mcTag := Lookup(McTags, recommended);
    var analysisTag := Lookup(AnalysisTags, recommended);
    tags := [];
    message' := message;

    if metadata == Records([]) {
      tags := [B2biiTag];
    } else {
      tags := tags + existingMainTags;
      assert tags == existingMainTags;
      tags := [OnlineTag] + tags;
      ghost var before := tags;
      if metadata.NoInput? || !isRunIndependentMc {
        if Truthy(dataTag) {
          tags := [dataTag.value] + tags;
        } else {
          message' := message' + [NoDataTag];
        }
      }
      assert tags == DataPart(metadata, recommended) + before;
      before := tags;
      if metadata.NoInput? || existingMcTags != [] {
        if Truthy(mcTag) {
          tags := [mcTag.value] + tags;
        } else {
          message' := message' + [NoMcTag];
        }
      }
      assert tags == McPart(metadata, baseTags, recommended) + before;
    }
    assert message' == message + DataWarning(metadata, recommended) + McWarning(metadata, baseTags, recommended);
    ghost var core := tags;

    if Truthy(analysisTag) {
      tags := [analysisTag.value] + tags;
    } else {
      message' := message' + [NoAnalysisTag];
    }
    assert tags == AnalysisPart(recommended) + core;
  }

  /**
   * `recommended_global_tags_v2`: reads the metadata, resolves the release,
   * composes the tags and appends the closing advice, in the order of the
   * source.
   */
  method RecommendedGlobalTagsV2(release: string, baseTags: seq<string>, metadata: Metadata)
    returns (r: Result<Recommendation, Error>)
    ensures r == Recommend(release, baseTags, metadata)
  {
    var read := ReadMetadata(metadata);
    if read.Err? {
      return Err(read.error);
    }
    var isRunIndependentMc := read.value;

    var message: seq<Advice> := [];
    var releaseEntry: Option<string> := None;

    var resolved := SupportedRelease(Some(release));
    if resolved.Err? {
      return Err(TypeError);
    }
    var recommended := resolved.value;
    if (StartsWith(release, "release") || StartsWith(release, "light")) && recommended != release {
      message := message + [RecommendRelease(release, recommended)];
      releaseEntry := Some(recommended);
    }
    assert message == ReleaseAdvice(release, recommended);

    var tags;
    tags, message := ComposeTags(metadata, baseTags, recommended, isRunIndependentMc, message);
    ghost var advice := message;

    if tags != baseTags {
      message := message + [DiffersFromBase(baseTags)];
      message := message + [UseDefaultConfiguration];
      AppendPair(advice, DiffersFromBase(baseTags), UseDefaultConfiguration);
    }
    assert message == advice + DiffersAdvice(tags, baseTags);

    r := Ok(Recommendation(tags, message, releaseEntry));
  }

  /**
   * Only two things make the composer raise: a key missing from the first
   * record (the first in reading order is named) and, failing that, a
   * `release-` name whose version cannot be compared. B2BII input and
   * generated events have no record to miss a key in.
   */
  lemma RecommendErrors(release: string, baseTags: seq<string>, metadata: Metadata)
    ensures MissingKey(metadata).Some? ==>
      Recommend(release, baseTags, metadata) == Err(KeyError(MissingKey(metadata).value))
    ensures MissingKey(metadata).None? ==>
      (Recommend(release, baseTags, metadata).Err? <==> SupportedRelease(Some(release)).Err?)
    ensures Recommend(release, baseTags, metadata) == Err(TypeError) ==> StartsWith(StripPre(release), "release-")
    ensures IsB2bii(metadata) || metadata.NoInput? ==> Recommend(release, baseTags, metadata).Err? ==>
      Recommend(release, baseTags, metadata) == Err(TypeError)
  {
  }

  /** The tags of a composition, laid out as the front entries followed by the tail. */
  lemma TagsLayout(metadata: Metadata, baseTags: seq<string>, recommended: string)
    requires MissingKey(metadata).None? && !IsB2bii(metadata)
    ensures var front := AnalysisPart(recommended) + McPart(metadata, baseTags, recommended) + DataPart(metadata, recommended);
      RecommendedTags(metadata, baseTags, recommended) == front + ([OnlineTag] + MainTags(baseTags))
  {
    Regroup(AnalysisPart(recommended), McPart(metadata, baseTags, recommended), DataPart(metadata, recommended),
            [OnlineTag] + MainTags(baseTags));
  }

  lemma Regroup(a: seq<string>, m: seq<string>, d: seq<string>, t: seq<string>)
    ensures a + (m + (d + t)) == a + m + d + t
  {
  }

  /** For B2BII input the tags are the optional analysis tag and `B2BII`, and nothing of the input tags. */
  lemma B2biiTags(release: string, baseTags: seq<string>, recommended: string)
    ensures var tags := Compose(release, baseTags, Records([]), recommended).tags;
      1 <= |tags| <= 2 && tags[|tags| - 1] == B2biiTag && OnlineTag !in tags &&
      (|tags| == 2 <==> recommended in AnalysisReleases)
  {
    var tags := Compose(release, baseTags, Records([]), recommended).tags;
    assert tags == AnalysisPart(recommended) + [B2biiTag];
  }

  /**
   * Outside B2BII input the list ends with `online` followed by the main
   * tags of the base tags, in their order, and at most three tags come
   * before `online`.
   */
  lemma MainTagsKeptLast(baseTags: seq<string>, metadata: Metadata, recommended: string)
    requires MissingKey(metadata).None? && !IsB2bii(metadata)
    ensures EndsWithMarked(RecommendedTags(metadata, baseTags, recommended), OnlineTag, MainTags(baseTags), 3)
  {
    var a, m, d := AnalysisPart(recommended), McPart(metadata, baseTags, recommended), DataPart(metadata, recommended);
    TagsLayout(metadata, baseTags, recommended);
    MarkedLayout(RecommendedTags(metadata, baseTags, recommended), a, m, d, OnlineTag, MainTags(baseTags));
  }

  /** `tags` ends with `marker` followed by `main`, with at most `front` entries before the marker. */
  predicate EndsWithMarked(tags: seq<string>, marker: string, main: seq<string>, front: nat) {
    |main| + 1 <= |tags| <= |main| + 1 + front &&
    tags[|tags| - |main|..] == main && tags[|tags| - |main| - 1] == marker
  }

  /** A list made of three optional entries, a marker and a tail ends with the marker and the tail. */
  lemma MarkedLayout(tags: seq<string>, a: seq<string>, m: seq<string>, d: seq<string>, marker: string, main: seq<string>)
    requires |a| <= 1 && |m| <= 1 && |d| <= 1 && tags == a + m + d + ([marker] + main)
    ensures EndsWithMarked(tags, marker, main, 3)
  {
    var tail := [marker] + main;
    var front := a + m + d;
    assert tags[|front|..] == tail;
    assert tags[|tags| - |main|..] == tail[1..] == main;
  }

  /** None of the tags the composer adds is a main tag. */
  lemma AddedTagsAreNotMain()
    ensures !IsMainTag(OnlineTag) && !IsMainTag(DataTag) && !IsMainTag(McTag) && !IsMainTag(AnalysisTag)
  {
    NotMainTag(OnlineTag);
    NotMainTag(DataTag);
    NotMainTag(AnalysisTag);
    McTagNotMain();
  }

  /** The tags the composer adds are pairwise distinct. */
  lemma AddedTagsDistinct()
    ensures OnlineTag != DataTag && OnlineTag != McTag && OnlineTag != AnalysisTag && OnlineTag != B2biiTag
    ensures DataTag != McTag && DataTag != AnalysisTag && DataTag != B2biiTag
    ensures McTag != AnalysisTag && McTag != B2biiTag && AnalysisTag != B2biiTag
  {
  }

  lemma McTagNotMain()
    ensures !IsMainTag(McTag)
  {
    DiffersAt(McTag, "main_", 1);
    DiffersAt(McTag, "master_", 1);
    PrefixesExclude(McTag, "m", "r");
    PrefixesExclude(McTag, "m", "p");
  }

  /** The data and MC tables hold a tag for the newest full release only. */
  lemma NewestOnlyTables(recommended: string)
    ensures Truthy(Lookup(DataTags, recommended)) <==> recommended == NewestRelease
    ensures Truthy(Lookup(McTags, recommended)) <==> recommended == NewestRelease
    ensures Truthy(Lookup(DataTags, recommended)) ==> Lookup(DataTags, recommended).value == DataTag
    ensures Truthy(Lookup(McTags, recommended)) ==> Lookup(McTags, recommended).value == McTag
  {
  }

  /** The analysis table holds its tag for exactly the analysis releases. */
  lemma AnalysisTable(recommended: string)
    ensures Truthy(Lookup(AnalysisTags, recommended)) <==> recommended in AnalysisReleases
    ensures Truthy(Lookup(AnalysisTags, recommended)) ==> Lookup(AnalysisTags, recommended).value == AnalysisTag
  {
  }

  /** A tag that starts with anything but `m`, `r` or `p` is not a main tag. */
  lemma NotMainTag(tag: string)
    requires tag != [] && tag[0] != 'm' && tag[0] != 'r' && tag[0] != 'p'
    ensures !IsMainTag(tag)
  {
    PrefixesExclude(tag, [tag[0]], "main_");
    PrefixesExclude(tag, [tag[0]], "master_");
    PrefixesExclude(tag, [tag[0]], "release-");
    PrefixesExclude(tag, [tag[0]], "prerelease-");
  }

  /** The message of a composition, split into its parts. */
  lemma MessageLayout(release: string, baseTags: seq<string>, metadata: Metadata, recommended: string)
    requires MissingKey(metadata).None?
    ensures var r := Compose(release, baseTags, metadata, recommended);
      forall a :: a in r.message <==>
        a in ReleaseAdvice(release, recommended) || a in DataWarning(metadata, recommended) ||
        a in McWarning(metadata, baseTags, recommended) || a in AnalysisWarning(recommended) ||
        a in DiffersAdvice(r.tags, baseTags)
  {
  }

  /** Where a tag of a composition can come from. */
  lemma TagSources(release: string, baseTags: seq<string>, metadata: Metadata, recommended: string, t: string)
    requires MissingKey(metadata).None?
    ensures var r := Compose(release, baseTags, metadata, recommended);
      t in r.tags <==>
        t in AnalysisPart(recommended) ||
        (IsB2bii(metadata) && t == B2biiTag) ||
        (!IsB2bii(metadata) && (t in McPart(metadata, baseTags, recommended) || t in DataPart(metadata, recommended) ||
                                t == OnlineTag || t in MainTags(baseTags)))
  {
    if !IsB2bii(metadata) {
      TagsLayout(metadata, baseTags, recommended);
    }
  }

  /**
   * The data tag is recommended exactly when it is wanted (events are
   * generated, or the first input file is not run-independent MC and not
   * B2BII) and the release resolves to the newest full release.
   */
  lemma DataTagGuard(release: string, baseTags: seq<string>, metadata: Metadata, recommended: string)
    requires MissingKey(metadata).None?
    ensures DataTag in Compose(release, baseTags, metadata, recommended).tags <==>
      WantsData(metadata) && recommended == NewestRelease
  {
    AddedTagsAreNotMain();
    AddedTagsDistinct();
    NewestOnlyTables(recommended);
    TagSources(release, baseTags, metadata, recommended, DataTag);
  }

  /** The missing-data-tag warning is given exactly when the data tag is wanted but the release is not the newest. */
  lemma DataWarningGuard(release: string, baseTags: seq<string>, metadata: Metadata, recommended: string)
    requires MissingKey(metadata).None?
    ensures NoDataTag in Compose(release, baseTags, metadata, recommended).message <==>
      WantsData(metadata) && recommended != NewestRelease
  {
    NewestOnlyTables(recommended);
    MessageLayout(release, baseTags, metadata, recommended);
  }

  /**
   * The MC tag is recommended exactly when it is wanted (events are
   * generated, or the input tags include an MC tag and the input is not
   * B2BII) and the release resolves to the newest full release.
   */
  lemma McTagGuard(release: string, baseTags: seq<string>, metadata: Metadata, recommended: string)
    requires MissingKey(metadata).None?
    ensures McTag in Compose(release, baseTags, metadata, recommended).tags <==>
      WantsMc(metadata, baseTags) && recommended == NewestRelease
  {
    AddedTagsAreNotMain();
    AddedTagsDistinct();
    NewestOnlyTables(recommended);
    TagSources(release, baseTags, metadata, recommended, McTag);
  }

  /** The missing-MC-tag warning is given exactly when the MC tag is wanted but the release is not the newest. */
  lemma McWarningGuard(release: string, baseTags: seq<string>, metadata: Metadata, recommended: string)
    requires MissingKey(metadata).None?
    ensures NoMcTag in Compose(release, baseTags, metadata, recommended).message <==>
      WantsMc(metadata, baseTags) && recommended != NewestRelease
  {
    NewestOnlyTables(recommended);
    MessageLayout(release, baseTags, metadata, recommended);
  }

  /** The analysis tag leads the list exactly when the resolved release is in the analysis table. */
  lemma AnalysisTagGuard(release: string, baseTags: seq<string>, metadata: Metadata, recommended: string)
    requires MissingKey(metadata).None?
    ensures recommended in AnalysisReleases <==> Compose(release, baseTags, metadata, recommended).tags[0] == AnalysisTag
  {
    AddedTagsAreNotMain();
    AddedTagsDistinct();
    AnalysisTable(recommended);
    var tags := Compose(release, baseTags, metadata, recommended).tags;
    var a := AnalysisPart(recommended);
    if IsB2bii(metadata) {
      assert tags == a + [B2biiTag];
    } else {
      TagsLayout(metadata, baseTags, recommended);
      var m, d := McPart(metadata, baseTags, recommended), DataPart(metadata, recommended);
      assert tags == a + m + d + ([OnlineTag] + MainTags(baseTags));
      if a == [] {
        assert tags[0] == (m + d + [OnlineTag])[0];
      }
    }
  }

  /** The missing-analysis-tag warning is given exactly when the resolved release is not in the analysis table. */
  lemma AnalysisWarningGuard(release: string, baseTags: seq<string>, metadata: Metadata, recommended: string)
    requires MissingKey(metadata).None?
    ensures NoAnalysisTag in Compose(release, baseTags, metadata, recommended).message <==>
      recommended !in AnalysisReleases
  {
    AnalysisTable(recommended);
    MessageLayout(release, baseTags, metadata, recommended);
  }

  /**
   * The analysis table covers every release the resolver can return except a
   * `release-` name kept because it is at least the newest supported one:
   * only such a name can draw the missing-analysis-tag warning.
   */
  lemma AnalysisWarningOnlyForNewerReleases(release: string, baseTags: seq<string>, metadata: Metadata)
    requires Recommend(release, baseTags, metadata).Ok?
    requires NoAnalysisTag in Recommend(release, baseTags, metadata).value.message
    ensures SupportedRelease(Some(release)) == Ok(StripPre(release)) && StartsWith(StripPre(release), "release-")
  {
    var recommended := SupportedRelease(Some(release)).value;
    AnalysisWarningGuard(release, baseTags, metadata, recommended);
  }

  /**
   * The `release` entry is set exactly when the user's release starts with
   * `release` or `light` and resolves to something else, and then it is
   * the resolved release, announced first in the message.
   */
  lemma ReleaseEntry(release: string, baseTags: seq<string>, metadata: Metadata, recommended: string)
    requires MissingKey(metadata).None?
    ensures var r := Compose(release, baseTags, metadata, recommended);
      (r.release.Some? <==> (StartsWith(release, "release") || StartsWith(release, "light")) && recommended != release) &&
      (r.release.Some? ==> r.release.value == recommended && r.message[0] == RecommendRelease(release, recommended)) &&
      (r.release.None? ==> forall a :: a in r.message ==> !a.RecommendRelease?)
  {
    MessageLayout(release, baseTags, metadata, recommended);
  }

  /** The advice to use the default configuration is given exactly when the recommended tags differ from the base tags. */
  lemma DiffersFromBaseIff(release: string, baseTags: seq<string>, metadata: Metadata, recommended: string)
    requires MissingKey(metadata).None?
    ensures var r := Compose(release, baseTags, metadata, recommended);
      (DiffersFromBase(baseTags) in r.message <==> r.tags != baseTags) &&
      (UseDefaultConfiguration in r.message <==> r.tags != baseTags)
  {
    MessageLayout(release, baseTags, metadata, recommended);
  }

  /**
   * Generating events with the newest full release gets the complete
   * recommendation: analysis, MC, data and online tags before the main
   * tags of the base tags, no warning and no release change.
   */
  lemma GenerationWithNewestRelease(baseTags: seq<string>)
    ensures Recommend(NewestRelease, baseTags, NoInput).Ok?
    ensures var r := Recommend(NewestRelease, baseTags, NoInput).value;
      r.tags == [AnalysisTag, McTag, DataTag, OnlineTag] + MainTags(baseTags) &&
      r.release.None? && r.message == DiffersAdvice(r.tags, baseTags)
  {
    NewestReleaseIsFixed();
    ComposeNewestGeneration(baseTags);
  }

  lemma ComposeNewestGeneration(baseTags: seq<string>)
    ensures var r := Compose(NewestRelease, baseTags, NoInput, NewestRelease);
      r.tags == [AnalysisTag, McTag, DataTag, OnlineTag] + MainTags(baseTags) &&
      r.release.None? && r.message == DiffersAdvice(r.tags, baseTags)
  {
    NewestOnlyTables(NewestRelease);
    AnalysisTable(NewestRelease);
    assert NewestRelease in AnalysisReleases;
    var main := MainTags(baseTags);
    assert [AnalysisTag] + ([McTag] + ([DataTag] + ([OnlineTag] + main))) == [AnalysisTag, McTag, DataTag, OnlineTag] + main;
  }

  /** The tags of a recommendation, or the exception raised instead. */
  function TagsOf(r: Result<Recommendation, Error>): (t: Result<seq<string>, Error>)
    ensures t.Ok? <==> r.Ok?
    ensures t.Ok? ==> t.value == r.value.tags
    ensures t.Err? ==> t.error == r.error
  {
    match r
    case Ok(recommendation) => Ok(recommendation.tags)
    case Err(e) => Err(e)
  }

  /** The record `recommended_global_tags` builds for data input: a `release` key and nothing else. */
  const WrapperDataRecord: EventMetaData := EventMetaData(Present(None), Missing, Missing, Missing)

  /**
   * `recommended_global_tags` as written: for `mc` it asks the composer
   * about generated events; otherwise it passes a record lacking the keys the
   * composer reads, which always raises `KeyError('isMC')`.
   */
  method RecommendedGlobalTags(release: string, mc: bool := false, analysis: bool := true,
                               inputTags: Option<seq<string>> := None)
    returns (r: Result<seq<string>, Error>)
    ensures mc ==> r == TagsOf(Recommend(release, inputTags.GetOr([]), NoInput))
    ensures !mc ==> r == Err(KeyError("isMC"))
  {
    var baseTags := if inputTags.None? then [] else inputTags.value;
    var metadata := NoInput;
    if !mc {
      metadata := Records([WrapperDataRecord]);
    }
    var result := RecommendedGlobalTagsV2(release, baseTags, metadata);
    r := TagsOf(result);
  }

  /** Whatever the release and the input tags, the composer raises for the record the wrapper builds. */
  lemma WrapperDataRecordRaises(release: string, baseTags: seq<string>)
    ensures MissingKey(Records([WrapperDataRecord])) == Some("isMC")
    ensures Recommend(release, baseTags, Records([WrapperDataRecord])) == Err(KeyError("isMC"))
  {
  }

  /**
   * The record a data request evidently means: a complete record of real
   * data (not MC) whose experiment range is not run-independent MC.
   */
  const DataRecord: EventMetaData := EventMetaData(Present(None), Present(false), Present(1), Present(1))

  /**
   * For a data request the composer then answers whenever the release
   * resolves, with the data tag exactly for the newest full release and the
   * MC tag only if the input tags also hold an MC tag.
   */
  lemma DataRequest(release: string, baseTags: seq<string>)
    ensures MissingKey(Records([DataRecord])).None? && WantsData(Records([DataRecord]))
    ensures var r := Recommend(release, baseTags, Records([DataRecord]));
      (r.Ok? <==> SupportedRelease(Some(release)).Ok?) &&
      (r.Ok? ==>
        (DataTag in r.value.tags <==> SupportedRelease(Some(release)).value == NewestRelease) &&
        (McTag in r.value.tags <==> SupportedRelease(Some(release)).value == NewestRelease && McTagsIn(baseTags) != []))
  {
    var metadata := Records([DataRecord]);
    if SupportedRelease(Some(release)).Ok? {
      var recommended := SupportedRelease(Some(release)).value;
      DataTagGuard(release, baseTags, metadata, recommended);
      McTagGuard(release, baseTags, metadata, recommended);
    }
  }

  /**
   * `recommended_global_tags` with the data record completed: a data
   * request no longer raises, and it gets the data tag for the newest full
   * release and the MC tag only where the input tags hold one.
   */
  method RecommendedGlobalTagsCorrected(release: string, mc: bool := false, analysis: bool := true,
                                        inputTags: Option<seq<string>> := None)
    returns (r: Result<seq<string>, Error>)
    ensures mc ==> r == TagsOf(Recommend(release, inputTags.GetOr([]), NoInput))
    ensures !mc ==> r == TagsOf(Recommend(release, inputTags.GetOr([]), Records([DataRecord])))
    ensures !mc ==> (r.Ok? <==> SupportedRelease(Some(release)).Ok?)
    ensures !mc && r.Ok? ==>
      (DataTag in r.value <==> SupportedRelease(Some(release)).value == NewestRelease) &&
      (McTag in r.value <==> SupportedRelease(Some(release)).value == NewestRelease && McTagsIn(inputTags.GetOr([])) != [])
  {
    var baseTags := if inputTags.None? then [] else inputTags.value;
    var metadata := NoInput;
    if !mc {
      metadata := Records([DataRecord]);
      DataRequest(release, baseTags);
    }
    var result := RecommendedGlobalTagsV2(release, baseTags, metadata);
    r := TagsOf(result);
  }

  /** `recommended_b2bii_analysis_global_tag`: an analysis tag, never taken for a main tag. */
  function B2biiAnalysisGlobalTag(): (r: string)
    ensures StartsWith(r, "analysis_") && !IsMainTag(r)
  {
    AnalysisNamed("b2bii");
    "analysis_" + "b2bii"
  }

  /** A tag named `analysis_...` is not a main tag. */
  lemma AnalysisNamed(suffix: string)
    ensures StartsWith("analysis_" + suffix, "analysis_") && !IsMainTag("analysis_" + suffix)
  {
    StartsWithConcat("analysis_", suffix);
    NotMainTag("analysis_" + suffix);
  }

  /** The answer of `performance_recommendation_global_tag`. */
  datatype PerformanceRecommendation = PerformanceRecommendation(globalTag: string, payload: string)

  /**
   * `performance_recommendation_global_tag`: the payload name is fixed; the
   * global tag is the campaign's recommendation tag for MC15 and MC16 and
   * empty for any other campaign.
   */
  function PerformanceRecommendationGlobalTag(campaign: string := "MC15"): (r: PerformanceRecommendation)
    ensures r.payload == "recommendation_payload"
    ensures r.globalTag != "" <==> campaign == "MC15" || campaign == "MC16"
    ensures r.globalTag != "" ==> r.globalTag == "analysis_performance_recommendation_" + campaign
  {
    var result := PerformanceRecommendation("", "recommendation_payload");
    if campaign == "MC15" then result.(globalTag := "analysis_performance_recommendation_MC15")
    else if campaign == "MC16" then result.(globalTag := "analysis_performance_recommendation_MC16")
    else result
  }

  /**
   * `upload_global_tag`: the tag uploads of a task go to. No task has one:
   * the client creates a new global tag for every upload request.
   */
  function UploadGlobalTag(task: string): (r: Option<string>)
    ensures r.None?
  {
    if task == "master" then None
    else if task == "main" then None
    else if task == "validation" then None
    else if task == "online" then None
    else if task == "prompt" then None
    else if task == "data" then None
    else if task == "mc" then None
    else if task == "analysis" then None
    else None
  }
}
