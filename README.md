# Belle II release and global tag recommendations

This project models `versioning.py` of the Belle II software (basf2) in
Dafny. The module decides which software release and which conditions
database global tags a user should use.

- **Release tables.** The supported full releases (`release-XX-YY-ZZ`) and
  light releases (`light-YYMM-name`) are hand-maintained lists. They are
  asserted to be sorted, and the recommended default is the newest light
  release.
- **Release resolver** (`supported_release`). It maps a free-form release
  name to the supported release that best matches it:
  - `None` gives the recommended release.
  - A leading `pre` is cut off.
  - A `release-` name is kept when its version is at least the newest
    supported one. Otherwise it is rounded up to the first listed release
    whose version is strictly greater.
  - A `light` name is kept if listed. Otherwise it gives the newest light
    release.
  - Anything else gives the newest full release.

  Versions are compared with `distutils` `LooseVersion` on the dash
  fields after the keyword. The module `LooseVersion` models that
  comparison: digit runs become numbers, letter and other runs become
  strings, dots are dropped, and comparison is Python list comparison. A
  number compared with a string raises `TypeError`.
- **Global tag composer** (`recommended_global_tags_v2` and its older
  wrapper `recommended_global_tags`). From the user's release, the global
  tags of the input files and their event metadata, it builds three things:
  - An ordered tag list: `[analysis] + [mc] + [data] + ["online"] +` the
    main tags of the input (or `[analysis] + ["B2BII"]` for B2BII input).
  - A message, modelled as a list of advice items rather than formatted
    text.
  - An optional `release` entry when the release should change.

  The list is built by front insertions, so it is modelled as a method
  with stepwise updates. That method is proved equal to the function
  `Recommend`, which the lemmas describe.
- **Static lookups.** These cover the upload tag per task, the Jira issue
  settings per task (`jira_global_tag_v2`) and their normalised
  full-record form (`jira_global_tag`, which updates a dictionary in place
  and is modelled as a method), the performance recommendation tag, the
  B2BII analysis tag and the release listings.

Modules:
- `Wrappers`: `Option` and `Result`.
- `Strings`: prefix tests, slicing, `split`/`join` and string order.
- `LooseVersion`.
- `Releases`.
- `GlobalTags`.
- `Jira`.

Exceptions the Python code raises are modelled as `Err` results:
- `KeyError` for a missing metadata key.
- `TypeError` for a version comparison between a number and a string.

## Model

| member | source | states |
|---|---|---|
| Strings.Split | versioning.py:48 | `str.split` on one separator gives at least one field and no field holds the separator |
| Strings.Join | versioning.py:48 | `'.'.join` of a non-empty list starts with its first field |
| Strings.SplitJoin | versioning.py:48 | splitting a join of separator-free fields on that separator gives the fields back, so `release.split('-')` recovers the dash fields of a release name |
| Strings.JoinSplit | versioning.py:48 | joining the fields of a split gives the string back |
| Strings.StrLessTrichotomy | versioning.py:27-28 | Python string `<` is irreflexive, asymmetric and total on distinct strings |
| Strings.StrLessTransitive | versioning.py:27-28 | Python string `<` is transitive |
| LooseVersion.RunsSpec | versioning.py:48 | cutting a version string into character-class runs loses nothing and yields maximal runs of one class |
| LooseVersion.Parse | versioning.py:48 | a version string yields at most one component per character |
| LooseVersion.ParseDecimalFields | versioning.py:48 | a version made of dot-separated decimal fields parses to the numbers of those fields, in order |
| LooseVersion.Compare | versioning.py:59-62 | the comparison answers `Equal` exactly when the two component lists are equal |
| LooseVersion.Converse | versioning.py:59-62 | `Compare(a, b)` is `Less` exactly when `Compare(b, a)` is `Greater`, and a failing comparison fails both ways |
| LooseVersion.NumericLess | versioning.py:59-62 | on all-numeric versions `<` never raises and is the lexicographic order |
| LooseVersion.NumericCompare | versioning.py:59-62 | all-numeric versions always compare, as `Less`, `Equal` or `Greater` by the lexicographic order |
| LooseVersion.NumsInjective | versioning.py:48 | two numeric versions are equal exactly when their number lists are |
| LooseVersion.LexLessStrictOrder | versioning.py:59-62 | the lexicographic order of versions is irreflexive and transitive |
| Releases.ListedNamesVersioned | versioning.py:16-20 | every supported full release is a `release-` name with fields after the keyword |
| Releases.SupportedReleasesSorted | versioning.py:27 | the full release list is strictly ascending as strings; strict ascent implies the non-decreasing order the `sorted` assertion checks |
| Releases.SupportedLightReleasesSorted | versioning.py:28 | the light release list is strictly ascending as strings |
| Releases.Basf2Version | versioning.py:47-48 | for every `release-` name with something after the keyword, the version is the loose parse of a non-empty string |
| Releases.VersionStringNonEmpty | versioning.py:47-48 | the dot-joined fields after the first dash of such a name are never empty, so `LooseVersion` always parses them |
| Releases.StripPre | versioning.py:51-52 | the cut never lengthens the name; a name not starting with `pre` is kept; a `prerelease-` name becomes a `release-` name |
| Releases.LightOrNewest | versioning.py:66-73 | a `light` name gives a listed light release, and itself exactly when it is listed; any other name gives the newest full release |
| Releases.FieldsVersion | versioning.py:47-48 | `basf2_version` of `release-` followed by decimal fields is the list of those fields' numbers |
| Releases.SupportedVersionsParse | versioning.py:16-20 | every listed full release has the numeric version listed beside it |
| Releases.SupportedVersionsAscend | versioning.py:16-20 | the full releases are also strictly ascending by version |
| Releases.ListedDistinct | versioning.py:16-20 | no full release is listed twice |
| Releases.FirstNewer | versioning.py:61-63 | the search returns a listed release whose version is strictly greater, or none when every comparison answers not-less, or fails only when some comparison fails |
| Releases.FirstNewerFinds | versioning.py:61-63 | the search stops at the first candidate that is strictly newer |
| Releases.ResolveVersioned | versioning.py:57-63 | the comparison branch answers a listed release or the input itself |
| Releases.ResolveName | versioning.py:54-73 | only a `release-` name can fail; the answer is a listed release or the `release-` input itself |
| Releases.SupportedRelease | versioning.py:31-73 | the resolver answers a listed release or the pre-stripped `release-` input; only a `release-` input can fail |
| Releases.ResolveDefault | versioning.py:44-45 | no argument gives the recommended release, which is the newest light release |
| Releases.ResolveLight | versioning.py:66-70 | a `light` name gives itself when listed and the newest light release otherwise |
| Releases.ResolveUnrecognised | versioning.py:54-73 | the bare name `release-` (lines 54-56) and every name that is neither `release-…` nor `light…` (lines 72-73) give the newest full release |
| Releases.ResolvePrerelease | versioning.py:51-52 | a `prerelease-` name resolves as the `release-` name made of its characters 3 to 18 |
| Releases.ResolveRecentRelease | versioning.py:57-60 | a `release-` name not older than the newest supported release is returned unchanged |
| Releases.ResolveOlderRelease | versioning.py:61-63 | an older numeric `release-` name gives the first listed release with a strictly greater version; that is the smallest such version and never the input |
| Releases.ResolveNumericRelease | versioning.py:57-63 | a numeric `release-` name never fails: it gives itself when not older than the newest release and otherwise a listed release other than itself |
| Releases.ListedReleaseAdvances | versioning.py:61-63 | every listed full release but the newest resolves to the next listed one, not to itself |
| Releases.NewestReleaseIsFixed | versioning.py:57-60 | the newest full release resolves to itself |
| Releases.ResolutionNotIdempotent | versioning.py:61-63 | resolving the result of a resolution again moves on once more for all but the two newest listed releases |
| Releases.GetSupportedReleases | versioning.py:76-82 | the listing is the full (or light) release list reversed |
| Releases.ReverseDescending | versioning.py:79-82 | reversing a strictly ascending list gives a strictly descending one |
| Releases.SupportedReleasesNewestFirst | versioning.py:76-82 | the listing starts with the newest release and is strictly descending |
| Releases.RecommendedTrainingRelease | versioning.py:85-87 | the training release is the newest light release |
| GlobalTags.Lookup | versioning.py:168 | `table.get(release)` is present exactly for the table's keys, with their value |
| GlobalTags.MainTags | versioning.py:141-142 | the main tags are exactly the input tags starting with `main_`, `master_`, `release-` or `prerelease-` |
| GlobalTags.McTagsIn | versioning.py:144 | the MC tags are exactly the input tags starting with `mc_` |
| GlobalTags.MainTagsAppend | versioning.py:141-142 | selecting the main tags keeps their order: selecting from a concatenation concatenates the selections |
| GlobalTags.MainTagsOfMainTags | versioning.py:141-142 | a list of main tags only is kept whole |
| GlobalTags.MissingKey | versioning.py:145-151 | a key is missing only from a non-empty record list; no missing key means the first record holds the keys `isMC`, `experimentLow` and `experimentHigh` that the later steps read |
| GlobalTags.MissingKeyInReadingOrder | versioning.py:145-151 | each of `release`, `isMC`, `experimentLow`, `experimentHigh` is reported exactly when it is absent from the first record and every key read before it is present; no missing key means a first record holds all four |
| GlobalTags.DataPart | versioning.py:193-198 | the data entry is empty or the data tag |
| GlobalTags.McPart | versioning.py:200-206 | the MC entry is empty or the MC tag |
| GlobalTags.AnalysisPart | versioning.py:208-212 | the analysis entry is empty or the analysis tag |
| GlobalTags.ReadMetadata | versioning.py:146-154 | the first missing key among `release`, `isMC`, `experimentLow`, `experimentHigh` raises `KeyError`; otherwise the answer says whether the first file is run-independent MC |
| GlobalTags.ComposeTags | versioning.py:181-212 | the stepwise front insertions build the tag layout of `RecommendedTags` and append the data, MC and analysis warnings in that order |
| GlobalTags.Compose | versioning.py:157-217 | a composition always holds at least one tag, and a `release` entry holds the resolved release, which differs from the input |
| GlobalTags.Recommend | versioning.py:116-219 | a `KeyError` names the first missing key; a `TypeError` comes from the resolver with every key present; a recommendation needs every key present and a resolving release |
| GlobalTags.RecommendedGlobalTagsV2 | versioning.py:116-219 | the method returns what `Recommend` states: the metadata error, the comparison error, or the composition for the resolved release |
| GlobalTags.RecommendErrors | versioning.py:146-160 | a missing key raises `KeyError` naming the first missing key; otherwise the composer fails exactly when the resolver does, which needs a `release-` name; generated events and B2BII input never raise `KeyError` |
| GlobalTags.TagsLayout | versioning.py:186-210 | outside B2BII input the tags are the optional analysis, MC and data tags, then `online`, then the main tags |
| GlobalTags.B2biiTags | versioning.py:182-183 | for B2BII input the tags are `B2BII`, preceded by the analysis tag exactly when the release is in the analysis table; nothing else, and no `online` |
| GlobalTags.MainTagsKeptLast | versioning.py:186-191 | outside B2BII input the list ends with `online` followed by the main tags, with at most three tags before `online` |
| GlobalTags.AddedTagsAreNotMain | versioning.py:141-142 | none of the tags the composer adds is a main tag |
| GlobalTags.AddedTagsDistinct | versioning.py:167-212 | `online`, the data, MC and analysis tags and `B2BII` are pairwise distinct |
| GlobalTags.NewestOnlyTables | versioning.py:165-173 | the data and MC tables hold a tag for the newest full release only |
| GlobalTags.AnalysisTable | versioning.py:175-179 | the analysis table holds its tag for exactly the supported full and light releases and `release-09-00-00` |
| GlobalTags.MessageLayout | versioning.py:157-217 | an advice item is in the message exactly when it is in one of the parts: release change, data, MC and analysis warnings, difference from the base tags |
| GlobalTags.TagSources | versioning.py:181-212 | a tag is in the list exactly when it comes from the analysis entry, `B2BII`, the MC or data entry, `online` or the main tags |
| GlobalTags.DataTagGuard | versioning.py:193-196 | the data tag is recommended exactly when it is wanted (generation, or a first file that is neither run-independent MC, meaning equal experiment bounds of 0, 1002 or 1003 as tested at line 152, nor B2BII) and the release resolves to the newest full release |
| GlobalTags.DataWarningGuard | versioning.py:197-198 | the missing-data-tag warning is given exactly when the data tag is wanted and the release is not the newest |
| GlobalTags.McTagGuard | versioning.py:200-204 | the MC tag is recommended exactly when it is wanted (generation, or input tags holding an `mc_` tag outside B2BII) and the release resolves to the newest full release |
| GlobalTags.McWarningGuard | versioning.py:205-206 | the missing-MC-tag warning is given exactly when the MC tag is wanted and the release is not the newest |
| GlobalTags.AnalysisTagGuard | versioning.py:208-210 | the analysis tag leads the list exactly when the resolved release is in the analysis table |
| GlobalTags.AnalysisWarningGuard | versioning.py:211-212 | the missing-analysis-tag warning is given exactly when the resolved release is not in the analysis table |
| GlobalTags.AnalysisWarningOnlyForNewerReleases | versioning.py:175-212 | only a `release-` name that the resolver keeps unchanged can draw the missing-analysis-tag warning |
| GlobalTags.ReleaseEntry | versioning.py:160-163 | the `release` entry is set exactly when the input starts with `release` or `light` and resolves to something else; it then holds the resolved release, announced first in the message |
| GlobalTags.DiffersFromBaseIff | versioning.py:214-217 | the difference and default-configuration advice are given exactly when the recommended tags differ from the base tags |
| GlobalTags.GenerationWithNewestRelease | versioning.py:116-219 | generating events with the newest full release gives analysis, MC, data and `online` tags before the main tags, no warning and no release change |
| GlobalTags.ComposeNewestGeneration | versioning.py:181-217 | the composition for generated events and the newest release has that complete layout |
| GlobalTags.TagsOf | versioning.py:113 | the wrapper's answer is the tag list of a successful composition, or the same exception |
| GlobalTags.RecommendedGlobalTags | versioning.py:90-113 | with `mc` the wrapper gives the tags for generated events; without `mc` it always raises `KeyError('isMC')` |
| GlobalTags.WrapperDataRecordRaises | versioning.py:108-111 | the record the wrapper builds for data lacks `isMC`, and the composer raises `KeyError('isMC')` for it whatever the release and input tags |
| GlobalTags.DataRequest | versioning.py:193-206 | for a complete data record the composer answers whenever the release resolves, with the data tag exactly for the newest release and the MC tag only when the input tags hold an `mc_` tag |
| GlobalTags.RecommendedGlobalTagsCorrected | versioning.py:90-113 | the corrected wrapper does not raise for a data request that resolves; it gives the data tag exactly for the newest release and the MC tag only with an `mc_` input tag |
| GlobalTags.B2biiAnalysisGlobalTag | versioning.py:222-227 | the B2BII analysis tag is an `analysis_` tag, not a main tag |
| GlobalTags.AnalysisNamed | versioning.py:222-227 | an `analysis_` tag is not a main tag |
| GlobalTags.PerformanceRecommendationGlobalTag | versioning.py:230-243 | the payload is `recommendation_payload`; the tag is `analysis_performance_recommendation_` plus the campaign for MC15 and MC16 and empty for any other campaign |
| GlobalTags.UploadGlobalTag | versioning.py:246-272 | no task has an upload tag: every task, listed or not, gets none |
| Jira.JiraGlobalTagV2 | versioning.py:299-370 | exactly the eight known tasks get an answer: a new issue whose only setting is the assignee's name; any other task gets none |
| Jira.BaseIssue | versioning.py:284-291 | the description of a tuple is dropped; an issue key becomes a sub-issue record with that parent and issue type id `5` |
| Jira.NormaliseIssue | versioning.py:284-296 | the result has the keys of the issue record plus `project` and `issuetype`; present keys keep their values; a missing `project` becomes BII and a missing `issuetype` becomes Task |
| Jira.JiraGlobalTag | versioning.py:275-296 | no issue exactly when `jira_global_tag_v2` has none; otherwise the assigned issue in the BII project with type Task |

## Left out

- `create_jupyter_kernels`: it creates directories, copies files, writes JSON and prints. It is file-system I/O with no decision logic.
- `LooseVersion` is modelled for ASCII character classes. Its `\d` pattern also matches non-ASCII decimal digits, which `int` converts, while `LooseVersion.ClassOf` makes them string characters. `[a-z]` matches ASCII letters only, as in the model.
- Releases.Basf2Version: for a name with nothing after its first dash the model gives the empty version, which compares below every version. Python builds `LooseVersion('')`, which is never parsed, so comparing it raises `AttributeError`. The resolver never builds such a version: it answers `release-` itself before comparing, and every other `release-` name has a non-empty version string (`Releases.VersionStringNonEmpty`).
- `Releases.GetSupportedReleases` returns a `seq`. The source returns a `reversed` iterator, which can be consumed once only.
- `Jira.FieldValue` holds a nested dictionary or a string. Other value types of a Jira issue dictionary are not modelled.
- A release given as `None` to `recommended_global_tags_v2` is not modelled. There `supported_release` returns the default, but `release.startswith` then raises `AttributeError`. The composer therefore takes a `string`.
- The composer also computes the input's data and analysis tags (lines 143 and 145) and the input release (line 146). It never uses them. Only the read of `release`, which can raise `KeyError`, is modelled. The parameters `user_tags` and `analysis` are unused as well.
- Message wording: each `%`-formatted line is one `Advice` item. The text and the `' '.join` of the base tags are not modelled.
- Metadata values: `int(...)` and `bool(...)` coercion is not modelled. The experiment numbers are integers and `isMC` a boolean from the start, so a value that cannot be converted is not a modelled failure.
- `jira_global_tag` mutates the dictionary returned by `jira_global_tag_v2`, which is a fresh literal on every call, so aliasing is not modelled. The tuple and string answers it handles are modelled as datatype variants, though `jira_global_tag_v2` itself only returns dictionaries.

## Behaviour notes

- The search at versioning.py:61-63 uses a strict `<`. So every listed full release but the newest resolves to the next listed one (`Releases.ListedReleaseAdvances`), and resolving a resolved release again can move on once more (`Releases.ResolutionNotIdempotent`).
- For B2BII input, versioning.py:208-210 still puts the analysis tag in front of `B2BII` when the release has one (`GlobalTags.B2biiTags`).
- The composer raises `KeyError` for a missing metadata key (versioning.py:145-151), and the resolver raises `TypeError` when a version has a number where the other has letters (versioning.py:59-62). Both are `Err` results in the model (`GlobalTags.RecommendErrors`, `LooseVersion.Converse`).

## Findings

| source | as written | input that shows it | evidently intended | confidence | as-written member | corrected member |
|---|---|---|---|---|---|---|
| versioning.py:107-111 | without `mc`, the wrapper passes `[{'release': None}]` as metadata; the composer reads `isMC` from that record | `recommended_global_tags('release-08-02-02')` raises `KeyError('isMC')` | a data request gets the data tag for the newest release, so the record needs every key the composer reads | not executed | GlobalTags.RecommendedGlobalTags | GlobalTags.RecommendedGlobalTagsCorrected |
