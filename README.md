# python-plugin, modelled in Dafny

This project models the decision logic of moonrepo's Python plugin for the proto
toolchain manager. It has three parts.

- **Tag normaliser** (`src/version.rs`). `from_python_version` searches a git tag for
  `v?MAJOR.MINOR(.PATCH)?((a|b|c|rc)PREID)?` and rewrites the first match as
  `MAJOR.MINOR.PATCH` or `MAJOR.MINOR.PATCH-PRE.PREID`, with the patch defaulting to `0`.
  The regex search is written as a leftmost-first, greedy scanner over ASCII
  (`VersionPattern.MatchAt`, `VersionPattern.Scan`). It is proved equal, in both
  directions, to a declarative definition of "the leftmost match whose groups cannot be
  extended" (`IsMatch`, `Greedy`, `IsLeftmostGreedyMatch`).
- **Plugin functions** (`src/proto.rs`).
  - `load_versions` drops the reserved `legacy-trunk` tag and keeps the normalised form of
    every other tag that has one, in order.
  - `download_prebuilt` rejects canary requests, then looks up the requested version in
    the release manifest, then looks up the host triple in that version's entries. The
    manifest and the host triple are parameters.
- **Manifest generator** (`scripts/generateReleases.mjs`).
  - `mapTriple` is the alias table.
  - `extractTripleInfo` takes apart both asset-name formats.
  - `processAssets` and the top-level loops fill the `data` dictionary in place. That
    dictionary is the field of the class `GenerateReleases.ReleaseData`. Its methods are
    the `forEach` loops, each proved equal to a fold function.
  - The fold functions carry the "first download wins" (`FirstDownloadWins`), "nothing else
    changes" (`ApplyReleasesFrame`: an entry no asset is recorded under is left as it was)
    and "checksum only beside a download" (`ApplyReleasesValid`) lemmas.

The JavaScript string and array built-ins the script relies on are modelled in
`JsStrings`:
- `includes`;
- `replace` with a string pattern, which replaces only the first occurrence;
- `split` with a non-empty separator;
- `join`;
- `endsWith`.

Files:
- `wrappers.dfy`: `Option`, `Result`.
- `version_pattern.dfy`: `src/version.rs`.
- `proto.dfy`: `src/proto.rs`.
- `js_strings.dfy`: the JavaScript built-ins.
- `generate_releases.dfy`: `scripts/generateReleases.mjs`.

Where the sources disagree, the model follows the code:
- `src/proto.rs:55` calls `from_python_version(tag, &regex)` with two arguments, but
  `src/version.rs:11` takes one. The model uses the `src/version.rs` function. The regex of
  `src/proto.rs:45` is the same pattern with `[0-9]` for `\d`, and ASCII digits are what
  the model uses.
- The `legacy-trunk` rule is a filter in `load_versions` (`src/proto.rs:52-53`), not part of
  the normaliser, and the model keeps it there. The normaliser would return `None` for that
  tag anyway, because it holds no digit (`Proto.LegacyTrunkHasNoVersion`).

One interaction between the two halves of the repository is worth knowing. The script
creates an entry `{download: null, checksum: null}` when it meets a `.sha256` asset before
the archive of the same version and triple (`GenerateReleases.ChecksumFirstLeavesEmptyEntry`).
If that archive never comes, `releases.json` keeps a `null` download. `ReleaseEntry.download`
is a non-optional `String` in `src/proto.rs:93`, so such a manifest would not deserialise.
This can only happen if a release publishes a checksum without its archive. The model
assumes that upstream releases do not do that, and records the case here.

The checksum guard (`scripts/generateReleases.mjs:122-126`) only asks whether the recorded
download's URL contains the current opt level. `mapTriple` maps the `x86_64_v2`, `x86_64_v3`
and `x86_64_v4` Linux labels onto the base triple (`GenerateReleases.GnuLevelsCollapse`,
`GenerateReleases.MuslLevelsCollapse`), so such a build and the base build share one entry.
The first archive recorded for that entry keeps the download. In the pass for an opt level,
each `.sha256` of these builds passes the guard once that download carries the level, and the
last one listed wins. So an `x86_64_v2` checksum listed after the base archive leaves the
entry with the base download and the `x86_64_v2` checksum
(`GenerateReleases.LevelChecksumReplacesBase`). Whether this happens
depends on the order of the assets in a release, which the model takes as given.

## Model

| member | source | states |
|---|---|---|
| VersionPattern.FromPythonVersion | src/version.rs:11-29 | the normaliser: capture, then format; what its result means is stated by `FromPythonVersionNoneIff`, `FromPythonVersionOfMatch`, `FromPythonVersionShape` and `PrereleaseSuffixIff` |
| VersionPattern.Capture | src/version.rs:12 | the unanchored search from position 0; a capture has a prerelease marker exactly when it has a prerelease id |
| VersionPattern.Canonical | src/version.rs:16-26 | the fields formatted from a capture, with the patch `0` when absent; `CanonicalValid` proves they are digit strings plus a valid marker and id |
| VersionPattern.MarkerLength | src/version.rs:6 | the length of the `a`, `b`, `c` or `rc` marker at a position, `0` when there is none; the marker stays in the string, and `MarkerLengthMarker` proves that what it spans is one of the four alternatives |
| VersionPattern.PatchAt | src/version.rs:6 | the optional `\.(\d+)` group: when present it starts right after the `.` and stays in the string |
| VersionPattern.PreAt | src/version.rs:6 | the optional marker and id groups: when present the id starts where the marker ends |
| VersionPattern.Optionals | src/version.rs:6 | the optional groups after the minor digits; marker and id are present together |
| VersionPattern.NoDigitNoVersion | src/version.rs:11-14 | a tag without any digit normalises to `None` |
| VersionPattern.DigitRun | src/version.rs:6 | the digit run taken for a `\d+` group stays in the string and ends at a non-digit or at the end (maximal munch) |
| VersionPattern.DigitRunDigits | src/version.rs:6 | every character of that run is an ASCII digit |
| VersionPattern.DigitRunExact | src/version.rs:6 | any maximal all-digit run starting at a position is exactly the one the scanner takes |
| VersionPattern.MarkerLengthMarker | src/version.rs:6 | a non-empty marker the scanner takes is one of `a`, `b`, `c`, `rc` |
| VersionPattern.MarkerSpan | src/version.rs:6 | wherever one of the four markers occurs, the scanner takes all of it, and it starts with neither a digit nor `.` |
| VersionPattern.PreFollowsIff | src/version.rs:6 | the optional prerelease group can match at a position exactly when the scanner finds a marker followed by at least one digit there |
| VersionPattern.MatchAt | src/version.rs:6 | a match found at a position starts there, and it has a prerelease marker exactly when it has a prerelease id |
| VersionPattern.Scan | src/version.rs:12 | the unanchored search returns the match at the first position that has one; no earlier position has one; `None` means no position has one |
| VersionPattern.MatchAtSound | src/version.rs:6 | what the scanner returns at a position is a match of the pattern whose groups cannot be extended and which skips no optional group that could match |
| VersionPattern.MatchAtComplete | src/version.rs:6 | if any match of the pattern starts at a position, the scanner finds one there |
| VersionPattern.MatchAtExact | src/version.rs:6 | the greedy match at a position is unique: it is the one the scanner returns |
| VersionPattern.CaptureIsLeftmost | src/version.rs:12-14 | the capture is a greedy match and no match starts further left |
| VersionPattern.CaptureIsLeftmostGreedyMatch | src/version.rs:6-14 | the capture returns `c` if and only if `c` is the leftmost greedy match |
| VersionPattern.CaptureNoneIffNoMatch | src/version.rs:12-14 | the capture fails exactly when the pattern matches nowhere in the tag |
| VersionPattern.FromPythonVersionNoneIff | src/version.rs:11-14 | the result is `None` exactly when no substring is digits, `.`, digits |
| VersionPattern.CanonicalValid | src/version.rs:16-26 | the fields formatted from a match are three digit strings and, if present, a marker and a digit string |
| VersionPattern.FromPythonVersionOfMatch | src/version.rs:16-21 | for the leftmost greedy match, the result is its major, minor and patch groups copied verbatim, with the patch `0` when absent |
| VersionPattern.FromPythonVersionShape | src/version.rs:16-26 | every result has the shape `D.D.D` or `D.D.D-P.D`, with each D a non-empty digit string and P one of `a`, `b`, `c`, `rc` |
| VersionPattern.ResultStartsWithDigit | src/version.rs:16-21 | every result starts with a digit |
| VersionPattern.RenderStartsWithMajor | src/version.rs:16-21 | a formatted version starts with the first digit of its major group |
| VersionPattern.BaseHasNoDash | src/version.rs:16-21 | `MAJOR.MINOR.PATCH` holds only digits and dots, so no `-` |
| VersionPattern.RenderDash | src/version.rs:23-26 | a `-` appears in the result if and only if a prerelease was appended |
| VersionPattern.PrereleaseSuffixIff | src/version.rs:23-26 | the `-PRE.PREID` suffix is present if and only if a marker directly followed by a digit comes right after the patch (or minor) digits |
| VersionPattern.MatchedTextSuffices | src/version.rs:12 | text before and after the match is ignored: normalising the matched text alone gives the same result |
| VersionPattern.NormaliseFromStart | src/version.rs:11-28 | a greedy match at the start of a string determines the result |
| VersionPattern.ShiftedIsMatch | src/version.rs:6 | a match stays a match when the text around it is cut away |
| VersionPattern.ShiftedGreedy | src/version.rs:6 | a greedy match stays greedy when the text around it is cut away |
| VersionPattern.ShiftedCanonical | src/version.rs:16-26 | cutting away the surrounding text leaves the formatted fields unchanged |
| VersionPattern.Version.Render | src/version.rs:16-26 | the output text: `MAJOR.MINOR.PATCH`, then `-PRE.PREID` when there is a prerelease; where each part lands is stated by `RenderLayout`, `RenderDash` and `RenderStartsWithMajor` |
| VersionPattern.RenderLayout | src/version.rs:16-21 | in a formatted version the three groups sit between the two dots, followed by the end or a `-` |
| VersionPattern.RenderedIsMatch | src/version.rs:6 | a formatted version matches the pattern from its first character |
| VersionPattern.RenderedGreedy | src/version.rs:6 | that match is greedy |
| VersionPattern.RenderedCanonical | src/version.rs:16-26 | re-capturing a formatted version gives its fields without the prerelease |
| VersionPattern.NormaliseRendered | src/version.rs:6-26 | normalising a formatted version gives its `MAJOR.MINOR.PATCH` part |
| VersionPattern.FixedPointWithoutPrerelease | src/version.rs:16-26 | a result without a prerelease is a fixed point of the normaliser |
| VersionPattern.PrereleaseRenormalisesToBase | src/version.rs:6-26 | a result with a prerelease re-normalises to the text before its `-`, because the marker must follow the digits directly |
| VersionPattern.NoMatchAtLetter | src/version.rs:6 | no match starts at a character that is neither `v` nor a digit |
| VersionPattern.ExampleGreedyMinor | src/version.rs:20 | `3.10` gives `3.10.0`: the minor group is `10`, not `1`, and the missing patch becomes `0` |
| VersionPattern.ExamplePrerelease | src/version.rs:23-26 | `v2.3.0a1` gives `2.3.0-a.1` |
| VersionPattern.ExampleSurrounding | src/version.rs:12 | `py3.10.1+x` gives `3.10.1` |
| Proto.KeepTag | src/proto.rs:51-57 | the `filter_map` closure: `None` for `legacy-trunk`, otherwise the normaliser's result; stated by `LoadVersionsSingleton` |
| Proto.LegacyTrunkHasNoVersion | src/proto.rs:52-55 | the normaliser alone would also drop `legacy-trunk` |
| Proto.LoadVersions | src/proto.rs:49-58 | the list of kept versions is never longer than the list of tags |
| Proto.LoadVersionsSingleton | src/proto.rs:51-57 | `legacy-trunk` and tags without a match are dropped; any other tag becomes its normalised form |
| Proto.LoadVersionsAppend | src/proto.rs:49-58 | the filter works tag by tag and keeps their order: the result for `a + b` is the result for `a` followed by the result for `b` |
| Proto.LoadVersionsMembership | src/proto.rs:51-57 | a version is in the output if and only if some tag other than `legacy-trunk` normalises to it |
| Proto.LegacyTrunkNeverKept | src/proto.rs:52-53 | `legacy-trunk` is never in the output |
| Proto.LegacyTrunkIgnored | src/proto.rs:52-53 | inserting `legacy-trunk` anywhere among the tags changes nothing |
| Proto.DownloadPrebuilt | src/proto.rs:104-139 | canary fails with `UnsupportedCanary("Python")` before any lookup; success if and only if the request is an exact version in the manifest whose entries hold the triple; the version error exactly when the request is not exact or not a key; the triple error, carrying the triple, exactly when the version is a key and the triple is not; on success the entry's download and checksum are passed through with archive prefix `python` |
| Proto.DownloadPrebuiltLocal | src/proto.rs:113-132 | the result depends only on whether the version is a key, whether the triple is a key of its entries, and that one entry |
| JsStrings.IndexOfFrom | scripts/generateReleases.mjs:78 | the search returns the first occurrence at or after the start, or reports none |
| JsStrings.IndexOf | scripts/generateReleases.mjs:78 | `indexOf`: the position of the first occurrence, with no occurrence before it, and `None` exactly when the pattern occurs nowhere |
| JsStrings.Contains | scripts/generateReleases.mjs:78 | `includes`; `ContainsIff` proves it holds exactly when the pattern occurs |
| JsStrings.Join | scripts/generateReleases.mjs:84 | `join`: the pieces with the separator between them; `JoinSplit` proves it undoes `split` |
| JsStrings.EndsWith | scripts/generateReleases.mjs:83 | `endsWith`: the string's last characters are the suffix |
| JsStrings.ContainsIff | scripts/generateReleases.mjs:78 | `includes` holds exactly when the pattern occurs somewhere |
| JsStrings.ContainsChar | scripts/generateReleases.mjs:90 | for a one-character pattern, `includes` is membership |
| JsStrings.ReplaceFirst | scripts/generateReleases.mjs:71 | `replace` with a string changes only the first occurrence and leaves a string without one unchanged |
| JsStrings.RemoveFirstReinserts | scripts/generateReleases.mjs:71 | putting the pattern back at its first occurrence undoes the removal |
| JsStrings.Split | scripts/generateReleases.mjs:79 | `split` returns at least one piece, and exactly one when the separator does not occur |
| JsStrings.JoinSplit | scripts/generateReleases.mjs:82-84 | joining the pieces of a split with the same separator gives back the string |
| JsStrings.SplitPieces | scripts/generateReleases.mjs:79-80 | no piece holds the separator, and the first piece is the text before the first occurrence |
| JsStrings.SplitLast | scripts/generateReleases.mjs:83 | the last piece of a split on one character is a suffix, preceded by that character unless it is the whole string |
| GenerateReleases.MapTriple | scripts/generateReleases.mjs:16-67 | accepts exactly the 27 listed labels, maps each to one of the ten canonical triples, and fails with `Unknown triple` carrying the input otherwise; the target of each of the 27 labels is stated by the seven lemmas below |
| GenerateReleases.GnuLevelsCollapse | scripts/generateReleases.mjs:47-50 | the `x86_64_v2`, `v3` and `v4` glibc labels map to `x86_64-unknown-linux-gnu` |
| GenerateReleases.MuslLevelsCollapse | scripts/generateReleases.mjs:54-57 | the `x86_64_v2`, `v3` and `v4` musl labels map to `x86_64-unknown-linux-musl` |
| GenerateReleases.WindowsAliasesCollapse | scripts/generateReleases.mjs:35-43 | all eight Windows amd64/x86/msvc shared/static names map to `x86_64-pc-windows-msvc` |
| GenerateReleases.OlderAliasesRenamed | scripts/generateReleases.mjs:31-33 | the older-format names: `macos` becomes `x86_64-apple-darwin`, `linux64` becomes `x86_64-unknown-linux-gnu` and `linux64-musl` becomes `x86_64-unknown-linux-musl` (also :45 with :50, and :52 with :57) |
| GenerateReleases.I686WindowsCollapse | scripts/generateReleases.mjs:24-26 | the shared and static `i686` Windows builds map to `i686-pc-windows-msvc` |
| GenerateReleases.IdentityLabels | scripts/generateReleases.mjs:18-29 | the seven canonical triples that are labels of their own map to themselves (also :32-33, :46 with :50, :53 with :57, and :62-63) |
| GenerateReleases.PowerPcRenamed | scripts/generateReleases.mjs:59-60 | `ppc64le-unknown-linux-gnu` becomes `powerpc64le-unknown-linux-gnu` |
| GenerateReleases.MapTripleNotIdempotent | scripts/generateReleases.mjs:16-67 | three canonical triples are not labels themselves, so mapping an output again fails |
| GenerateReleases.DropOptLevels | scripts/generateReleases.mjs:84 | the filter keeps exactly the segments that are not opt levels, never more than it was given; order and count are stated by the three lemmas below |
| GenerateReleases.DropOptLevelsAppend | scripts/generateReleases.mjs:84 | the filter keeps the segments in their order: the result for `a + b` is the result for `a` followed by the result for `b` |
| GenerateReleases.DropOptLevelsSingleton | scripts/generateReleases.mjs:84 | one segment is kept exactly when it is not an opt level |
| GenerateReleases.DropOptLevelsNone | scripts/generateReleases.mjs:84 | a list with no opt level is kept whole, in the same order |
| GenerateReleases.FromSegments | scripts/generateReleases.mjs:82-84 | lines 83-84 and 92-93 after the split: the last segment decides `sha256`, and the others, without opt levels and joined by `-`, go through `mapTriple`; stated by `FromSegmentsMeaning` |
| GenerateReleases.ExtractTripleInfo | scripts/generateReleases.mjs:70-101 | every triple returned is canonical |
| GenerateReleases.FromSegmentsMeaning | scripts/generateReleases.mjs:83-84 | `sha256` is whether the last segment ends with `.sha256`; the triple is `mapTriple` of the other segments, without opt levels, joined by `-`, so the last segment is never part of it; the step fails exactly when that text is not a label |
| GenerateReleases.NewerFormat | scripts/generateReleases.mjs:78-84 | with `+RELEASE` in the name: the version is the text before the first `+RELEASE-`; the segments come from the text up to the next `+RELEASE-`; a name without `+RELEASE-` fails on the undefined `parts[1]` |
| GenerateReleases.OlderFormat | scripts/generateReleases.mjs:89-94 | otherwise: the version is the first `-` segment and the others follow it; a name without `-` fails on the undefined `pop()` |
| GenerateReleases.DashSegmentsJoin | scripts/generateReleases.mjs:82-83 | the segments join back to the text, and the last one is what follows its last `-` |
| GenerateReleases.DashSegmentsCount | scripts/generateReleases.mjs:90-92 | there is more than one segment exactly when the text holds a `-` |
| GenerateReleases.DashSegmentsHaveNoDash | scripts/generateReleases.mjs:82 | no segment holds a `-` |
| GenerateReleases.StrippedName | scripts/generateReleases.mjs:71 | `assetName.replace("cpython-", "")`: only the first occurrence goes, as `OnlyFirstPrefixRemoved` states |
| GenerateReleases.OnlyFirstPrefixRemoved | scripts/generateReleases.mjs:71 | only the first `cpython-` is removed |
| GenerateReleases.HasDownload | scripts/generateReleases.mjs:128 | JavaScript truthiness of `download`: `null` and the empty string are both falsy, so either can still be overwritten (`EmptyDownloadOverwritten`) |
| GenerateReleases.EmptyDownloadOverwritten | scripts/generateReleases.mjs:128-129 | an entry whose download is the empty string takes the next archive's URL and keeps its checksum |
| GenerateReleases.UpdateEntry | scripts/generateReleases.mjs:121-130 | a non-checksum asset on an entry without a truthy download records its URL as the download; a checksum asset whose entry's download contains the current opt level records its URL as the checksum, overwriting an earlier one. No other write happens: a checksum asset never changes the download, a non-checksum asset never changes the checksum, and a truthy download is never changed |
| GenerateReleases.ApplyInfo | scripts/generateReleases.mjs:110-130 | the asset's version and triple keys exist afterwards, and a new entry starts as `{null, null}`; no other entry or key is touched |
| GenerateReleases.ApplyAsset | scripts/generateReleases.mjs:104-130 | the `forEach` callback for one asset: an `extractTripleInfo` failure is returned, otherwise the one-asset update; no version or entry is removed |
| GenerateReleases.ApplyAssets | scripts/generateReleases.mjs:103-132 | `processAssets`: the assets in order, stopping at the first error; no version or entry is removed |
| GenerateReleases.ApplyPasses | scripts/generateReleases.mjs:144-150 | one `processAssets` pass per opt level, in order, each over the assets whose name contains that level, stopping at the first error; no version or entry is removed |
| GenerateReleases.ApplyRelease | scripts/generateReleases.mjs:135-150 | the `releases.forEach` callback: filter, then the passes in `OPT_LEVELS` order; no version or entry is removed |
| GenerateReleases.ApplyReleases | scripts/generateReleases.mjs:134-151 | the releases in order, stopping at the first error; no version or entry is removed |
| GenerateReleases.IsWanted | scripts/generateReleases.mjs:137-140 | the asset's name has none of `debug`, `install_only` and `msvc-static` |
| GenerateReleases.Wanted | scripts/generateReleases.mjs:136-141 | keeps exactly the assets without `debug`, `install_only` or `msvc-static` in their name |
| GenerateReleases.WithOptLevel | scripts/generateReleases.mjs:146 | keeps exactly the assets whose name contains the opt level; order and count are stated by the two lemmas below |
| GenerateReleases.WithOptLevelAppend | scripts/generateReleases.mjs:146 | the filter keeps the assets in their listed order: the result for `a + b` is the result for `a` followed by the result for `b` |
| GenerateReleases.WithOptLevelSingleton | scripts/generateReleases.mjs:146 | one asset is kept exactly when its name contains the opt level |
| GenerateReleases.WantedSingleton | scripts/generateReleases.mjs:136-141 | one asset is kept exactly when it is wanted |
| GenerateReleases.ReleaseData.constructor | scripts/generateReleases.mjs:14 | `data` starts empty and valid |
| GenerateReleases.ReleaseData.Record | scripts/generateReleases.mjs:110-130 | the in-place updates of `data` give exactly the one-asset update, and keep `data` valid when the triple is canonical |
| GenerateReleases.ReleaseData.ProcessAsset | scripts/generateReleases.mjs:104-131 | a failing asset leaves `data` unchanged and reports the error; otherwise `data` becomes the one-asset update; `data` stays valid |
| GenerateReleases.ReleaseData.ProcessAssets | scripts/generateReleases.mjs:103-132 | the loop leaves `data` and the error as the fold over the assets, stopping at the first error; `data` stays valid |
| GenerateReleases.ReleaseData.ProcessRelease | scripts/generateReleases.mjs:136-150 | filters the assets, then runs one pass per opt level in the order `pgo+lto`, `pgo`, `lto`, `noopt`, ending like the fold; `data` stays valid |
| GenerateReleases.ReleaseData.ProcessReleases | scripts/generateReleases.mjs:134-151 | processes the releases in order, ending like the fold, and keeps `data` valid |
| GenerateReleases.EntryUpdateInPlace | scripts/generateReleases.mjs:114-130 | creating the entry and then updating it is the one-step update |
| GenerateReleases.ApplyInfoValid | scripts/generateReleases.mjs:110-130 | recording an asset under a canonical triple keeps every triple canonical and every checksum beside a download |
| GenerateReleases.ApplyAssetValid | scripts/generateReleases.mjs:110-130 | one asset keeps every triple canonical and every checksum beside a download |
| GenerateReleases.ApplyAssetsKeepsDownload | scripts/generateReleases.mjs:128-130 | an entry with a truthy download keeps it through a pass |
| GenerateReleases.ApplyPassesKeepsDownload | scripts/generateReleases.mjs:144-150 | an entry with a truthy download keeps it through the remaining opt-level passes |
| GenerateReleases.ApplyAssetsFrame | scripts/generateReleases.mjs:103-132 | nothing else changes: a pass whose assets are all recorded under other keys leaves `data[v][t]` exactly as it was, present or absent |
| GenerateReleases.ApplyPassesFrame | scripts/generateReleases.mjs:144-150 | the same for every opt-level pass over a release's assets |
| GenerateReleases.ApplyReleasesFrame | scripts/generateReleases.mjs:134-151 | the same for the whole run: an entry that no asset of any release is recorded under is never touched |
| GenerateReleases.FirstDownloadWins | scripts/generateReleases.mjs:128-130 | an entry with a truthy download keeps it through all later releases: the first writer wins |
| GenerateReleases.WantedAppend | scripts/generateReleases.mjs:136-141 | the filter works on each part of the asset list independently |
| GenerateReleases.WantedSkips | scripts/generateReleases.mjs:136-141 | the filter drops an unwanted asset wherever it is listed |
| GenerateReleases.UnwantedAssetIgnored | scripts/generateReleases.mjs:136-141 | inserting a debug, install-only or static msvc asset anywhere in a release changes nothing |
| GenerateReleases.ApplyAssetsValid | scripts/generateReleases.mjs:121-130 | a pass keeps the dictionary valid |
| GenerateReleases.ApplyPassesValid | scripts/generateReleases.mjs:144-150 | the opt-level passes keep the dictionary valid |
| GenerateReleases.ApplyReleasesValid | scripts/generateReleases.mjs:134-151 | the whole script keeps every triple canonical and every checksum beside a download |
| GenerateReleases.ChecksumFirstLeavesEmptyEntry | scripts/generateReleases.mjs:114-127 | a checksum asset met before any archive leaves a new `{null, null}` entry |
| GenerateReleases.LevelChecksumReplacesBase | scripts/generateReleases.mjs:122-126 | a checksum asset whose triple maps onto a recorded base build replaces its checksum when the download carries the opt level: the guard cannot tell the builds apart |
| GenerateReleases.ChecksumGuardIsSubstring | scripts/generateReleases.mjs:122-126 | the checksum guard is a substring test: during the `lto` pass an `lto` checksum is accepted beside a `pgo+lto` download |

## Left out

- Network and host calls are parameters or absent: `load_git_tags`, `fetch_url` for the
  manifest, `get_host_environment` (`src/proto.rs:101`), `get_target_triple`
  (`src/proto.rs:125`, including its failures), and the script's `fetch` and
  `response.json()`.
- `fs.writeFileSync` and `JSON.stringify` (`scripts/generateReleases.mjs:153`) are I/O.
  Key order in the written JSON is not modelled.
- JSON deserialisation of the manifest into `BTreeMap<Version, …>` is left out.
  `Proto.DownloadPrebuilt` compares manifest keys with the requested version as strings;
  `Version` equality from the `proto_pdk` crate is not part of this model.
- `LoadVersionsOutput::from` (`src/proto.rs:60`) is left out. Sorting, deduplication and the
  `latest` alias live in the `proto_pdk` crate, which is not part of this model.
- `Version` and `VersionSpec` internals are reduced to three cases: canary, an exact
  version named by its string, or any other request.
- The default fields of `DownloadPrebuiltOutput` (`..DownloadPrebuiltOutput::default()`)
  are not modelled.
- `register_tool` and `detect_version_files` return constants. `locate_executables` is
  file checks and JSON reads. The commented-out `native_install` is process execution.
  All four are left out.
- Error messages are reduced to distinct constructors that carry the version, the triple or
  the unknown label. Their wording and markup are not modelled.
- VersionPattern.DigitRun: `\d` in `src/version.rs:6` matches any Unicode decimal digit;
  the model accepts ASCII `0`-`9` only, as the pattern of `src/proto.rs:45` does.
- GenerateReleases.ReleaseData.ProcessReleases: a thrown error ends the whole script, so
  `releases.json` is not written. The model returns the error and the dictionary as it was
  at that point.
- GenerateReleases.ReleaseData.Record: JavaScript object lookups such as `data[version]`
  also see inherited `Object.prototype` keys (`constructor`, `__proto__`). The model's maps
  hold own keys only.
- Of each GitHub asset only `name` and `browser_download_url` are modelled, the two fields
  the script reads.
