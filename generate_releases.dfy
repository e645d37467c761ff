/**
 * scripts/generateReleases.mjs: turn the GitHub release listing of
 * python-build-standalone into the version -> triple -> {download, checksum}
 * dictionary written to releases.json.
 *
 * `mapTriple` and `extractTripleInfo` are pure functions. The module-level
 * `data` object is the field of class `ReleaseData`; its methods are the
 * `forEach` loops, each proved equal to a fold (`ApplyAssets`, `ApplyRelease`,
 * `ApplyReleases`) about which the first-writer-wins and "nothing else
 * changes" lemmas (`FirstDownloadWins`, `ApplyReleasesFrame`) are stated.
 */
module GenerateReleases {
  import opened Wrappers
  import opened JsStrings

  /** `OPT_LEVELS`, most wanted first (scripts/generateReleases.mjs:3). */
  const OptLevels: seq<string> := ["pgo+lto", "pgo", "lto", "noopt"]

  /** Why the script stops: `mapTriple` throws, or a missing array element is used (a `TypeError` in JavaScript). */
  datatype ScriptError = UnknownTriple(triple: string) | UndefinedSegment

  // ---------------------------------------------------------------------------
  // mapTriple
  // ---------------------------------------------------------------------------

  /** The labels `mapTriple` has a case for. */
  const KnownTriples: set<string> := {
    "aarch64-apple-darwin", "aarch64-unknown-linux-gnu",
    "i686-pc-windows-msvc-shared", "i686-pc-windows-msvc-static",
    "i686-unknown-linux-gnu",
    "macos", "x86_64-apple-darwin",
    "windows-amd64", "windows-amd64-shared", "windows-amd64-static",
    "windows-x86", "windows-x86-shared", "windows-x86-static",
    "x86_64-pc-windows-msvc-shared", "x86_64-pc-windows-msvc-static",
    "linux64", "x86_64-unknown-linux-gnu", "x86_64_v2-unknown-linux-gnu",
    "x86_64_v3-unknown-linux-gnu", "x86_64_v4-unknown-linux-gnu",
    "linux64-musl", "x86_64-unknown-linux-musl", "x86_64_v2-unknown-linux-musl",
    "x86_64_v3-unknown-linux-musl", "x86_64_v4-unknown-linux-musl",
    "ppc64le-unknown-linux-gnu", "s390x-unknown-linux-gnu"
  }

  /** The ten triples releases.json is keyed by. */
  const CanonicalTriples: set<string> := {
    "aarch64-apple-darwin", "aarch64-unknown-linux-gnu", "i686-pc-windows-msvc",
    "i686-unknown-linux-gnu", "x86_64-apple-darwin", "x86_64-pc-windows-msvc",
    "x86_64-unknown-linux-gnu", "x86_64-unknown-linux-musl",
    "powerpc64le-unknown-linux-gnu", "s390x-unknown-linux-gnu"
  }

  /** `mapTriple`: the alias table, one branch per group of `case` labels. */
  function MapTriple(triple: string): (r: Result<string, ScriptError>)
    ensures r.Success? <==> triple in KnownTriples
    ensures r.Success? ==> r.value in CanonicalTriples
    ensures r.Failure? ==> r.error == UnknownTriple(triple)
  {
    if triple == "aarch64-apple-darwin" then Success("aarch64-apple-darwin")
    else if triple == "aarch64-unknown-linux-gnu" then Success("aarch64-unknown-linux-gnu")
    else if triple == "i686-pc-windows-msvc-shared" || triple == "i686-pc-windows-msvc-static" then
      Success("i686-pc-windows-msvc")
    else if triple == "i686-unknown-linux-gnu" then Success("i686-unknown-linux-gnu")
    else if triple == "macos" || triple == "x86_64-apple-darwin" then Success("x86_64-apple-darwin")
    else if || triple == "windows-amd64" || triple == "windows-amd64-shared" || triple == "windows-amd64-static"
            || triple == "windows-x86" || triple == "windows-x86-shared" || triple == "windows-x86-static"
            || triple == "x86_64-pc-windows-msvc-shared" || triple == "x86_64-pc-windows-msvc-static" then
      Success("x86_64-pc-windows-msvc")
    else if || triple == "linux64" || triple == "x86_64-unknown-linux-gnu" || triple == "x86_64_v2-unknown-linux-gnu"
            || triple == "x86_64_v3-unknown-linux-gnu" || triple == "x86_64_v4-unknown-linux-gnu" then
      Success("x86_64-unknown-linux-gnu")
    else if || triple == "linux64-musl" || triple == "x86_64-unknown-linux-musl" || triple == "x86_64_v2-unknown-linux-musl"
            || triple == "x86_64_v3-unknown-linux-musl" || triple == "x86_64_v4-unknown-linux-musl" then
      Success("x86_64-unknown-linux-musl")
    else if triple == "ppc64le-unknown-linux-gnu" then Success("powerpc64le-unknown-linux-gnu")
    else if triple == "s390x-unknown-linux-gnu" then Success("s390x-unknown-linux-gnu")
    else Failure(UnknownTriple(triple))
  }

  /** Every shared, static, amd64 and x86 Windows build name collapses onto the one msvc triple. */
  lemma WindowsAliasesCollapse(triple: string)
    requires triple in {"windows-amd64", "windows-amd64-shared", "windows-amd64-static",
                        "windows-x86", "windows-x86-shared", "windows-x86-static",
                        "x86_64-pc-windows-msvc-shared", "x86_64-pc-windows-msvc-static"}
    ensures MapTriple(triple) == Success("x86_64-pc-windows-msvc")
  {
  }

  /** `ppc64le` is renamed to `powerpc64le`. */
  lemma PowerPcRenamed()
    ensures MapTriple("ppc64le-unknown-linux-gnu") == Success("powerpc64le-unknown-linux-gnu")
  {
  }

  /** The `x86_64_v2`, `v3` and `v4` glibc builds map onto the base glibc triple. */
  lemma GnuLevelsCollapse(triple: string)
    requires triple in {"x86_64_v2-unknown-linux-gnu", "x86_64_v3-unknown-linux-gnu", "x86_64_v4-unknown-linux-gnu"}
    ensures MapTriple(triple) == Success("x86_64-unknown-linux-gnu")
  {
  }

  /** The `x86_64_v2`, `v3` and `v4` musl builds map onto the base musl triple. */
  lemma MuslLevelsCollapse(triple: string)
    requires triple in {"x86_64_v2-unknown-linux-musl", "x86_64_v3-unknown-linux-musl", "x86_64_v4-unknown-linux-musl"}
    ensures MapTriple(triple) == Success("x86_64-unknown-linux-musl")
  {
  }

  /** The older-format names are renamed to their triples. */
  lemma OlderAliasesRenamed()
    ensures MapTriple("macos") == Success("x86_64-apple-darwin")
    ensures MapTriple("linux64") == Success("x86_64-unknown-linux-gnu")
    ensures MapTriple("linux64-musl") == Success("x86_64-unknown-linux-musl")
  {
  }

  /** The shared and static 32-bit Windows builds map onto the one `i686` msvc triple. */
  lemma I686WindowsCollapse(triple: string)
    requires triple in {"i686-pc-windows-msvc-shared", "i686-pc-windows-msvc-static"}
    ensures MapTriple(triple) == Success("i686-pc-windows-msvc")
  {
  }

  /** The other seven canonical triples are labels of their own and map to themselves. */
  lemma IdentityLabels(triple: string)
    requires triple in {"aarch64-apple-darwin", "aarch64-unknown-linux-gnu", "i686-unknown-linux-gnu",
                        "x86_64-apple-darwin", "x86_64-unknown-linux-gnu", "x86_64-unknown-linux-musl",
                        "s390x-unknown-linux-gnu"}
    ensures MapTriple(triple) == Success(triple)
  {
  }

  /** Three of the canonical names are not labels themselves: `mapTriple` is not idempotent. */
  lemma MapTripleNotIdempotent(c: string)
    requires c in {"i686-pc-windows-msvc", "x86_64-pc-windows-msvc", "powerpc64le-unknown-linux-gnu"}
    ensures c in CanonicalTriples
    ensures MapTriple(c).Failure?
  {
  }

  // ---------------------------------------------------------------------------
  // extractTripleInfo
  // ---------------------------------------------------------------------------

  /** `parts.filter((p) => !OPT_LEVELS.includes(p))`. */
  function DropOptLevels(parts: seq<string>): (kept: seq<string>)
    ensures |kept| <= |parts|
    ensures forall p :: p in kept <==> p in parts && p !in OptLevels
  {
    if |parts| == 0 then []
    else if parts[0] in OptLevels then DropOptLevels(parts[1..])
    else [parts[0]] + DropOptLevels(parts[1..])
  }

  /** What `extractTripleInfo` returns. */
  datatype TripleInfo = TripleInfo(triple: string, version: string, sha256: bool)

  /** The `-`-separated segments after the version: the last decides `sha256`, the others make the triple. */
  function FromSegments(version: string, segments: seq<string>): Result<TripleInfo, ScriptError>
    requires |segments| > 0
  {
    var sha256 := EndsWith(segments[|segments| - 1], ".sha256");
    match MapTriple(Join(DropOptLevels(segments[..|segments| - 1]), "-"))
    case Failure(e) => Failure(e)
    case Success(triple) => Success(TripleInfo(triple, version, sha256))
  }

  /** The separator of the newer asset-name format. */
  function ReleaseSeparator(releaseName: string): string { "+" + releaseName + "-" }

  /** The asset name with its first `cpython-` removed. */
  function StrippedName(assetName: string): string { ReplaceFirst(assetName, "cpython-", "") }

  /** `extractTripleInfo` (scripts/generateReleases.mjs:70-101). */
  function ExtractTripleInfo(assetName: string, releaseName: string): (r: Result<TripleInfo, ScriptError>)
    ensures r.Success? ==> r.value.triple in CanonicalTriples
  {
    var name := StrippedName(assetName);
    if Contains(name, "+" + releaseName) then
      var parts := Split(name, ReleaseSeparator(releaseName));
      if |parts| < 2 then Failure(UndefinedSegment)
      else FromSegments(parts[0], Split(parts[1], "-"))
    else
      var parts := Split(name, "-");
      if |parts| < 2 then Failure(UndefinedSegment)
      else FromSegments(parts[0], parts[1..])
  }

  /** `sha256`, and the triple before mapping, as the segments give them. */
  lemma FromSegmentsMeaning(version: string, segments: seq<string>)
    requires |segments| > 0
    ensures var r := FromSegments(version, segments);
            && (r.Success? ==> r.value.version == version)
            && (r.Success? ==> (r.value.sha256 <==> EndsWith(segments[|segments| - 1], ".sha256")))
            && (r.Success? <==> Join(DropOptLevels(segments[..|segments| - 1]), "-") in KnownTriples)
            && (r.Success? ==> MapTriple(Join(DropOptLevels(segments[..|segments| - 1]), "-")) == Success(r.value.triple))
  {
  }

  /**
   * Newer format (`…+RELEASE-…`): the version is the text before the first
   * `+RELEASE-`, and the segments are the text up to the next one, cut at
   * `-`. A name with `+RELEASE` but no `+RELEASE-` fails, as `parts[1]` is
   * then `undefined`.
   */
  lemma NewerFormat(assetName: string, releaseName: string)
    requires Contains(StrippedName(assetName), "+" + releaseName)
    ensures var name, sep := StrippedName(assetName), ReleaseSeparator(releaseName);
            var r := ExtractTripleInfo(assetName, releaseName);
            && (r == Failure(UndefinedSegment) <==> !Contains(name, sep))
            && (Contains(name, sep) ==>
                  var k, parts := IndexOf(name, sep).value, Split(name, sep);
                  && StartsAt(name, sep, k) && (forall j :: 0 <= j < k ==> !StartsAt(name, sep, j))
                  && !Contains(parts[1], sep)
                  && r == FromSegments(name[..k], Split(parts[1], "-")))
  {
    SplitPieces(StrippedName(assetName), ReleaseSeparator(releaseName));
  }

  /**
   * Older format (`VERSION-TRIPLE…-BUILD…`): the first segment is the
   * version and the others follow it. A name without `-` fails, as
   * `parts.pop()` is then `undefined`.
   */
  lemma OlderFormat(assetName: string, releaseName: string)
    requires !Contains(StrippedName(assetName), "+" + releaseName)
    ensures var name := StrippedName(assetName);
            var r := ExtractTripleInfo(assetName, releaseName);
            && (r == Failure(UndefinedSegment) <==> '-' !in name)
            && ('-' in name ==> r == FromSegments(Split(name, "-")[0], Split(name, "-")[1..]))
  {
    DashSegmentsCount(StrippedName(assetName));
  }

  /** The segments of a text cut at `-` join back to it, and the last one is what follows the last `-`. */
  lemma DashSegmentsJoin(s: string)
    ensures Join(Split(s, "-"), "-") == s
    ensures IsLastPiece(s, '-', Split(s, "-")[|Split(s, "-")| - 1])
  {
    JoinSplit(s, "-");
    SplitLast(s, '-');
  }

  /** There is more than one segment exactly when the text holds a `-`. */
  lemma DashSegmentsCount(s: string)
    ensures |Split(s, "-")| == 1 <==> '-' !in s
  {
    ContainsChar(s, '-');
  }

  /** No segment holds a `-`. */
  lemma DashSegmentsHaveNoDash(s: string)
    ensures forall i :: 0 <= i < |Split(s, "-")| ==> '-' !in Split(s, "-")[i]
  {
    var parts := Split(s, "-");
    SplitPieces(s, "-");
    forall i | 0 <= i < |parts| ensures '-' !in parts[i] {
      ContainsChar(parts[i], '-');
    }
  }

  /** Only the first `cpython-` is removed: putting it back at that place gives the asset name. */
  lemma OnlyFirstPrefixRemoved(assetName: string)
    ensures !Contains(assetName, "cpython-") ==> StrippedName(assetName) == assetName
    ensures Contains(assetName, "cpython-") ==>
              var k, name := IndexOf(assetName, "cpython-").value, StrippedName(assetName);
              k <= |name| && assetName == name[..k] + "cpython-" + name[k..]
  {
    if Contains(assetName, "cpython-") {
      RemoveFirstReinserts(assetName, "cpython-");
    }
  }

  // ---------------------------------------------------------------------------
  // The releases.json dictionary and the passes over the assets
  // ---------------------------------------------------------------------------

  /** One `data[version][triple]` object; `null` is `None`. */
  datatype Entry = Entry(download: Option<string>, checksum: Option<string>)

  datatype Asset = Asset(name: string, browserDownloadUrl: string)

  datatype Release = Release(name: string, assets: seq<Asset>)

  type Data = map<string, map<string, Entry>>

  /** The dictionary after a pass, and the error that stopped it, if any. */
  datatype Run = Run(data: Data, failure: Option<ScriptError>)

  /** `data[version][triple].download` is truthy: set, and not the empty string. */
  predicate HasDownload(e: Entry) { e.download.Some? && e.download.value != "" }

  /** `data[version][triple]`, if present. */
  function Lookup(d: Data, version: string, triple: string): Option<Entry>
  {
    if version in d && triple in d[version] then Some(d[version][triple]) else None
  }

  /** An empty-string download is falsy, so the next archive overwrites it. */
  lemma EmptyDownloadOverwritten(checksum: Option<string>, url: string, optLevel: string)
    ensures !HasDownload(Entry(Some(""), checksum))
    ensures UpdateEntry(Entry(Some(""), checksum), false, url, optLevel) == Entry(Some(url), checksum)
  {
  }

  /** Lines 121-130: a checksum asset may set the checksum, any other asset may set a missing download. */
  function UpdateEntry(e: Entry, sha256: bool, url: string, optLevel: string): (e': Entry)
    ensures sha256 ==> e'.download == e.download
    ensures !sha256 ==> e'.checksum == e.checksum
    ensures e'.download != e.download ==> !sha256 && !HasDownload(e) && e'.download == Some(url)
    ensures e'.checksum != e.checksum ==>
              sha256 && e.download.Some? && Contains(e.download.value, optLevel) && e'.checksum == Some(url)
    ensures HasDownload(e) ==> e'.download == e.download
    ensures !sha256 && !HasDownload(e) ==> e'.download == Some(url)
    ensures sha256 && e.download.Some? && Contains(e.download.value, optLevel) ==> e'.checksum == Some(url)
  {
    if sha256 then
      if e.download.Some? && Contains(e.download.value, optLevel) then e.(checksum := Some(url)) else e
    else if !HasDownload(e) then e.(download := Some(url))
    else e
  }

  /** Lines 110-130 for one asset whose info is known: create the entry if needed, then update it. */
  function ApplyInfo(d: Data, info: TripleInfo, url: string, optLevel: string): (d': Data)
    ensures d'.Keys == d.Keys + {info.version}
    ensures info.triple in d'[info.version]
    ensures d'[info.version].Keys == (if info.version in d then d[info.version].Keys else {}) + {info.triple}
    ensures forall v, t :: (v != info.version || t != info.triple) ==> Lookup(d', v, t) == Lookup(d, v, t)
    ensures d'[info.version][info.triple] ==
              UpdateEntry(Lookup(d, info.version, info.triple).GetOr(Entry(None, None)), info.sha256, url, optLevel)
  {
    var versions := if info.version in d then d else d[info.version := map[]];
    var entries := versions[info.version];
    var e := if info.triple in entries then entries[info.triple] else Entry(None, None);
    versions[info.version := entries[info.triple := UpdateEntry(e, info.sha256, url, optLevel)]]
  }

  /** No version and no entry is ever removed. */
  ghost predicate Grows(d: Data, d': Data)
  {
    forall v, t :: Lookup(d, v, t).Some? ==> Lookup(d', v, t).Some?
  }

  /** The body of the `assets.forEach` callback. */
  function ApplyAsset(d: Data, asset: Asset, releaseName: string, optLevel: string): (r: Result<Data, ScriptError>)
    ensures r.Success? ==> Grows(d, r.value)
  {
    match ExtractTripleInfo(asset.name, releaseName)
    case Failure(e) => Failure(e)
    case Success(info) => Success(ApplyInfo(d, info, asset.browserDownloadUrl, optLevel))
  }

  /** `processAssets`: the assets in order, stopping at the first error. */
  function ApplyAssets(d: Data, assets: seq<Asset>, releaseName: string, optLevel: string): (r: Run)
    ensures Grows(d, r.data)
    decreases |assets|
  {
    if |assets| == 0 then Run(d, None)
    else
      match ApplyAsset(d, assets[0], releaseName, optLevel)
      case Failure(e) => Run(d, Some(e))
      case Success(d') => ApplyAssets(d', assets[1..], releaseName, optLevel)
  }

  /** Lines 137-140: not a debug, install-only or static msvc build. */
  predicate IsWanted(asset: Asset)
  {
    !Contains(asset.name, "debug") && !Contains(asset.name, "install_only") && !Contains(asset.name, "msvc-static")
  }

  /** `release.assets.filter(...)` with the filter of lines 136-141. */
  function Wanted(assets: seq<Asset>): (kept: seq<Asset>)
    ensures forall a :: a in kept <==> a in assets && IsWanted(a)
  {
    if |assets| == 0 then []
    else if IsWanted(assets[0]) then [assets[0]] + Wanted(assets[1..])
    else Wanted(assets[1..])
  }

  /** `assets.filter((asset) => asset.name.includes(optLevel))`. */
  function WithOptLevel(assets: seq<Asset>, optLevel: string): (kept: seq<Asset>)
    ensures forall a :: a in kept <==> a in assets && Contains(a.name, optLevel)
  {
    if |assets| == 0 then []
    else if Contains(assets[0].name, optLevel) then [assets[0]] + WithOptLevel(assets[1..], optLevel)
    else WithOptLevel(assets[1..], optLevel)
  }

  /** One `processAssets` pass per opt level, in the given order, stopping at the first error. */
  function ApplyPasses(d: Data, assets: seq<Asset>, releaseName: string, levels: seq<string>): (r: Run)
    ensures Grows(d, r.data)
    decreases |levels|
  {
    if |levels| == 0 then Run(d, None)
    else
      var r := ApplyAssets(d, WithOptLevel(assets, levels[0]), releaseName, levels[0]);
      if r.failure.Some? then r else ApplyPasses(r.data, assets, releaseName, levels[1..])
  }

  /** The body of `releases.forEach`: filter, then the passes in `OPT_LEVELS` order. */
  function ApplyRelease(d: Data, release: Release): (r: Run)
    ensures Grows(d, r.data)
  {
    ApplyPasses(d, Wanted(release.assets), release.name, OptLevels)
  }

  /** `releases.forEach(...)`. */
  function ApplyReleases(d: Data, releases: seq<Release>): (r: Run)
    ensures Grows(d, r.data)
    decreases |releases|
  {
    if |releases| == 0 then Run(d, None)
    else
      var r := ApplyRelease(d, releases[0]);
      if r.failure.Some? then r else ApplyReleases(r.data, releases[1..])
  }

  /** Every triple key is canonical, and no entry has a checksum without a download. */
  predicate DataValid(d: Data)
  {
    forall v, t :: v in d && t in d[v] ==> t in CanonicalTriples && (d[v][t].checksum.Some? ==> d[v][t].download.Some?)
  }

  // ---------------------------------------------------------------------------
  // The state: `data`
  // ---------------------------------------------------------------------------

  class ReleaseData {
    /** The module-level `data` object. */
    var data: Data

    /** Every triple key is canonical and every checksum sits beside a download. */
    ghost predicate Valid()
      reads this
    {
      DataValid(data)
    }

    /** `const data = {};` */
    constructor()
      ensures data == map[]
      ensures Valid()
    {
      data := map[];
    }

    /**
     * Lines 110-130 on `data` in place, for an asset whose triple info is known.
     * Validity is kept only when the caller passes a canonical triple, as
     * `extractTripleInfo` always does; any other triple becomes a key as it is.
     */
    method Record(info: TripleInfo, url: string, optLevel: string)
      modifies this
      ensures data == ApplyInfo(old(data), info, url, optLevel)
      ensures old(Valid()) && info.triple in CanonicalTriples ==> Valid()
    {
      if Valid() && info.triple in CanonicalTriples {
        ApplyInfoValid(data, info, url, optLevel);
      }
      var version, triple, sha256 := info.version, info.triple, info.sha256;
      if version !in data {
        data := data[version := map[]];
      }
      if triple !in data[version] {
        data := data[version := data[version][triple := Entry(None, None)]];
      }
      var entry := data[version][triple];
      ghost var created := data;
      assert entry == Lookup(old(data), version, triple).GetOr(Entry(None, None));
      assert created[version][triple := entry] == created[version];
      assert created[version := created[version]] == created;
      if sha256 {
        if entry.download.Some? && Contains(entry.download.value, optLevel) {
          data := data[version := data[version][triple := entry.(checksum := Some(url))]];
        }
      } else if !HasDownload(entry) {
        data := data[version := data[version][triple := entry.(download := Some(url))]];
      }
      assert data == created[version := created[version][triple := UpdateEntry(entry, sha256, url, optLevel)]];
      EntryUpdateInPlace(old(data), created, info, url, optLevel);
    }

    /** The `assets.forEach` callback for one asset, on `data` in place. */
    method ProcessAsset(asset: Asset, releaseName: string, optLevel: string) returns (failure: Option<ScriptError>)
      modifies this
      ensures ApplyAsset(old(data), asset, releaseName, optLevel).Failure? ==>
                failure == Some(ApplyAsset(old(data), asset, releaseName, optLevel).error) && data == old(data)
      ensures ApplyAsset(old(data), asset, releaseName, optLevel).Success? ==>
                failure.None? && data == ApplyAsset(old(data), asset, releaseName, optLevel).value
      ensures old(Valid()) ==> Valid()
    {
      if Valid() {
        ApplyAssetValid(data, asset, releaseName, optLevel);
      }
      var info := ExtractTripleInfo(asset.name, releaseName);
      if info.Failure? {
        return Some(info.error);
      }
      Record(info.value, asset.browserDownloadUrl, optLevel);
      return None;
    }

    /** `processAssets(assets, releaseName, optLevel)`. */
    method ProcessAssets(assets: seq<Asset>, releaseName: string, optLevel: string) returns (failure: Option<ScriptError>)
      modifies this
      ensures Run(data, failure) == ApplyAssets(old(data), assets, releaseName, optLevel)
      ensures old(Valid()) ==> Valid()
    {
      if Valid() {
        ApplyAssetsValid(data, assets, releaseName, optLevel);
      }
      failure := None;
      var i := 0;
      while i < |assets| && failure.None?
        invariant 0 <= i <= |assets|
        invariant ApplyAssets(old(data), assets, releaseName, optLevel) ==
                  if failure.Some? then Run(data, failure) else ApplyAssets(data, assets[i..], releaseName, optLevel)
      {
        assert assets[i..][0] == assets[i] && assets[i..][1..] == assets[i + 1..];
        failure := ProcessAsset(assets[i], releaseName, optLevel);
        i := i + 1;
      }
    }

    /** The `releases.forEach` callback for one release. */
    method ProcessRelease(release: Release) returns (failure: Option<ScriptError>)
      modifies this
      ensures Run(data, failure) == ApplyRelease(old(data), release)
      ensures old(Valid()) ==> Valid()
    {
      if Valid() {
        ApplyPassesValid(data, Wanted(release.assets), release.name, OptLevels);
      }
      var assets := Wanted(release.assets);
      failure := None;
      var i := 0;
      while i < |OptLevels| && failure.None?
        invariant 0 <= i <= |OptLevels|
        invariant ApplyRelease(old(data), release) ==
                  if failure.Some? then Run(data, failure) else ApplyPasses(data, assets, release.name, OptLevels[i..])
      {
        assert OptLevels[i..][0] == OptLevels[i] && OptLevels[i..][1..] == OptLevels[i + 1..];
        failure := ProcessAssets(WithOptLevel(assets, OptLevels[i]), release.name, OptLevels[i]);
        i := i + 1;
      }
    }

    /** The top-level `releases.forEach`. */
    method ProcessReleases(releases: seq<Release>) returns (failure: Option<ScriptError>)
      modifies this
      ensures Run(data, failure) == ApplyReleases(old(data), releases)
      ensures old(Valid()) ==> Valid()
    {
      if Valid() {
        ApplyReleasesValid(data, releases);
      }
      failure := None;
      var i := 0;
      while i < |releases| && failure.None?
        invariant 0 <= i <= |releases|
        invariant ApplyReleases(old(data), releases) ==
                  if failure.Some? then Run(data, failure) else ApplyReleases(data, releases[i..])
      {
        assert releases[i..][0] == releases[i] && releases[i..][1..] == releases[i + 1..];
        failure := ProcessRelease(releases[i]);
        i := i + 1;
      }
    }
  }

  /** Creating the entry first and then updating it gives the one-step update of `ApplyInfo`. */
  lemma EntryUpdateInPlace(d: Data, created: Data, info: TripleInfo, url: string, optLevel: string)
    requires var v := if info.version in d then d else d[info.version := map[]];
             created == if info.triple in v[info.version] then v
                        else v[info.version := v[info.version][info.triple := Entry(None, None)]]
    ensures info.version in created && info.triple in created[info.version]
    ensures var e := created[info.version][info.triple];
            created[info.version := created[info.version][info.triple := UpdateEntry(e, info.sha256, url, optLevel)]]
            == ApplyInfo(d, info, url, optLevel)
  {
    var v := if info.version in d then d else d[info.version := map[]];
    var entries := v[info.version];
    var e := created[info.version][info.triple];
    assert created[info.version][info.triple := UpdateEntry(e, info.sha256, url, optLevel)]
           == entries[info.triple := UpdateEntry(e, info.sha256, url, optLevel)];
  }

  // ---------------------------------------------------------------------------
  // Lemmas about the passes
  // ---------------------------------------------------------------------------

  /** Recording an asset under a canonical triple keeps the dictionary valid. */
  lemma ApplyInfoValid(d: Data, info: TripleInfo, url: string, optLevel: string)
    requires DataValid(d) && info.triple in CanonicalTriples
    ensures DataValid(ApplyInfo(d, info, url, optLevel))
  {
    var d': Data := ApplyInfo(d, info, url, optLevel);
    forall v, t | v in d' && t in d'[v]
      ensures t in CanonicalTriples && (d'[v][t].checksum.Some? ==> d'[v][t].download.Some?)
    {
      assert Lookup(d', v, t) == Some(d'[v][t]);
      if v != info.version || t != info.triple {
        assert Lookup(d, v, t) == Lookup(d', v, t);
      }
    }
  }

  /** One asset keeps the dictionary valid. */
  lemma ApplyAssetValid(d: Data, asset: Asset, releaseName: string, optLevel: string)
    requires DataValid(d)
    ensures ApplyAsset(d, asset, releaseName, optLevel).Success? ==> DataValid(ApplyAsset(d, asset, releaseName, optLevel).value)
  {
    var r := ExtractTripleInfo(asset.name, releaseName);
    if r.Success? {
      ApplyInfoValid(d, r.value, asset.browserDownloadUrl, optLevel);
    }
  }

  /** A set download survives any number of assets. */
  lemma {:induction false} ApplyAssetsKeepsDownload(d: Data, assets: seq<Asset>, releaseName: string, optLevel: string, v: string, t: string)
    requires Lookup(d, v, t).Some? && HasDownload(Lookup(d, v, t).value)
    ensures var d' := ApplyAssets(d, assets, releaseName, optLevel).data;
            Lookup(d', v, t).Some? && Lookup(d', v, t).value.download == Lookup(d, v, t).value.download
    decreases |assets|
  {
    if |assets| > 0 {
      var r := ApplyAsset(d, assets[0], releaseName, optLevel);
      if r.Success? {
        var info := ExtractTripleInfo(assets[0].name, releaseName).value;
        assert Lookup(r.value, v, t).value.download == Lookup(d, v, t).value.download;
        ApplyAssetsKeepsDownload(r.value, assets[1..], releaseName, optLevel, v, t);
      }
    }
  }

  /** A set download survives every remaining opt-level pass. */
  lemma {:induction false} ApplyPassesKeepsDownload(d: Data, assets: seq<Asset>, releaseName: string, levels: seq<string>, v: string, t: string)
    requires Lookup(d, v, t).Some? && HasDownload(Lookup(d, v, t).value)
    ensures var d' := ApplyPasses(d, assets, releaseName, levels).data;
            Lookup(d', v, t).Some? && Lookup(d', v, t).value.download == Lookup(d, v, t).value.download
    decreases |levels|
  {
    if |levels| > 0 {
      var r := ApplyAssets(d, WithOptLevel(assets, levels[0]), releaseName, levels[0]);
      ApplyAssetsKeepsDownload(d, WithOptLevel(assets, levels[0]), releaseName, levels[0], v, t);
      if r.failure.None? {
        ApplyPassesKeepsDownload(r.data, assets, releaseName, levels[1..], v, t);
      }
    }
  }

  /** First writer wins: once an entry has a download, no later release replaces it. */
  lemma {:induction false} FirstDownloadWins(d: Data, releases: seq<Release>, v: string, t: string)
    requires Lookup(d, v, t).Some? && HasDownload(Lookup(d, v, t).value)
    ensures var d' := ApplyReleases(d, releases).data;
            Lookup(d', v, t).Some? && Lookup(d', v, t).value.download == Lookup(d, v, t).value.download
    decreases |releases|
  {
    if |releases| > 0 {
      var r := ApplyRelease(d, releases[0]);
      ApplyPassesKeepsDownload(d, Wanted(releases[0].assets), releases[0].name, OptLevels, v, t);
      if r.failure.None? {
        FirstDownloadWins(r.data, releases[1..], v, t);
      }
    }
  }

  /** The asset's name extracts, for this release, to version `v` and triple `t`. */
  predicate RecordsUnder(asset: Asset, releaseName: string, v: string, t: string)
  {
    var r := ExtractTripleInfo(asset.name, releaseName);
    r.Success? && r.value.version == v && r.value.triple == t
  }

  /** Nothing else changes: assets recorded under other keys leave `data[v][t]` as it was, present or absent. */
  lemma {:induction false} ApplyAssetsFrame(d: Data, assets: seq<Asset>, releaseName: string, optLevel: string, v: string, t: string)
    requires forall a :: a in assets ==> !RecordsUnder(a, releaseName, v, t)
    ensures Lookup(ApplyAssets(d, assets, releaseName, optLevel).data, v, t) == Lookup(d, v, t)
    decreases |assets|
  {
    if |assets| > 0 {
      assert assets[0] in assets;
      var r := ApplyAsset(d, assets[0], releaseName, optLevel);
      if r.Success? {
        assert Lookup(r.value, v, t) == Lookup(d, v, t);
        assert forall a :: a in assets[1..] ==> a in assets;
        ApplyAssetsFrame(r.value, assets[1..], releaseName, optLevel, v, t);
      }
    }
  }

  /** The same for every opt-level pass over a release's assets. */
  lemma {:induction false} ApplyPassesFrame(d: Data, assets: seq<Asset>, releaseName: string, levels: seq<string>, v: string, t: string)
    requires forall a :: a in assets ==> !RecordsUnder(a, releaseName, v, t)
    ensures Lookup(ApplyPasses(d, assets, releaseName, levels).data, v, t) == Lookup(d, v, t)
    decreases |levels|
  {
    if |levels| > 0 {
      var r := ApplyAssets(d, WithOptLevel(assets, levels[0]), releaseName, levels[0]);
      ApplyAssetsFrame(d, WithOptLevel(assets, levels[0]), releaseName, levels[0], v, t);
      if r.failure.None? {
        ApplyPassesFrame(r.data, assets, releaseName, levels[1..], v, t);
      }
    }
  }

  /** The same for the whole run: an entry no asset of any release is recorded under is never touched. */
  lemma {:induction false} ApplyReleasesFrame(d: Data, releases: seq<Release>, v: string, t: string)
    requires forall r, a :: r in releases && a in r.assets ==> !RecordsUnder(a, r.name, v, t)
    ensures Lookup(ApplyReleases(d, releases).data, v, t) == Lookup(d, v, t)
    decreases |releases|
  {
    if |releases| > 0 {
      var first := releases[0];
      assert first in releases;
      ApplyPassesFrame(d, Wanted(first.assets), first.name, OptLevels, v, t);
      var r := ApplyRelease(d, first);
      if r.failure.None? {
        assert forall x :: x in releases[1..] ==> x in releases;
        ApplyReleasesFrame(r.data, releases[1..], v, t);
      }
    }
  }

  /** The opt-level filter keeps the segments in order: it works on each part of the list independently. */
  lemma {:induction false} DropOptLevelsAppend(a: seq<string>, b: seq<string>)
    ensures DropOptLevels(a + b) == DropOptLevels(a) + DropOptLevels(b)
    decreases |a|
  {
    if |a| == 0 {
      assert a + b == b;
    } else {
      assert (a + b)[0] == a[0];
      assert (a + b)[1..] == a[1..] + b;
      DropOptLevelsAppend(a[1..], b);
    }
  }

  /** One segment is kept exactly when it is not an opt level. */
  lemma DropOptLevelsSingleton(p: string)
    ensures DropOptLevels([p]) == if p in OptLevels then [] else [p]
  {
    assert [p][1..] == [];
  }

  /** A list without opt levels is kept whole, in order. */
  lemma {:induction false} DropOptLevelsNone(parts: seq<string>)
    requires forall i :: 0 <= i < |parts| ==> parts[i] !in OptLevels
    ensures DropOptLevels(parts) == parts
    decreases |parts|
  {
    if |parts| > 0 {
      DropOptLevelsNone(parts[1..]);
    }
  }

  /** The per-level filter keeps the assets in order: it works on each part of the list independently. */
  lemma {:induction false} WithOptLevelAppend(a: seq<Asset>, b: seq<Asset>, optLevel: string)
    ensures WithOptLevel(a + b, optLevel) == WithOptLevel(a, optLevel) + WithOptLevel(b, optLevel)
    decreases |a|
  {
    if |a| == 0 {
      assert a + b == b;
    } else {
      assert (a + b)[0] == a[0];
      assert (a + b)[1..] == a[1..] + b;
      WithOptLevelAppend(a[1..], b, optLevel);
    }
  }

  /** One asset is kept exactly when its name contains the opt level. */
  lemma WithOptLevelSingleton(x: Asset, optLevel: string)
    ensures WithOptLevel([x], optLevel) == if Contains(x.name, optLevel) then [x] else []
  {
    assert [x][1..] == [];
  }

  /** The top-level filter keeps one asset exactly when it is wanted. */
  lemma WantedSingleton(x: Asset)
    ensures Wanted([x]) == if IsWanted(x) then [x] else []
  {
    assert [x][1..] == [];
  }

  /** The filter works on each part of the listing independently. */
  lemma {:induction false} WantedAppend(a: seq<Asset>, b: seq<Asset>)
    ensures Wanted(a + b) == Wanted(a) + Wanted(b)
    decreases |a|
  {
    if |a| == 0 {
      assert a + b == b;
    } else {
      assert (a + b)[0] == a[0];
      assert (a + b)[1..] == a[1..] + b;
      WantedAppend(a[1..], b);
    }
  }

  /** The filter drops an unwanted asset wherever it is listed. */
  lemma WantedSkips(a: seq<Asset>, x: Asset, b: seq<Asset>)
    requires !IsWanted(x)
    ensures Wanted(a + [x] + b) == Wanted(a + b)
  {
    assert Wanted([x]) == [] by {
      assert [x][1..] == [];
    }
    calc {
      Wanted(a + [x] + b);
      { WantedAppend(a + [x], b); }
      Wanted(a + [x]) + Wanted(b);
      { WantedAppend(a, [x]); }
      Wanted(a) + [] + Wanted(b);
      { assert Wanted(a) + [] == Wanted(a); }
      Wanted(a) + Wanted(b);
      { WantedAppend(a, b); }
      Wanted(a + b);
    }
  }

  /** A debug, install-only or static msvc asset, wherever it is listed, has no effect on `data`. */
  lemma UnwantedAssetIgnored(d: Data, name: string, a: seq<Asset>, x: Asset, b: seq<Asset>)
    requires !IsWanted(x)
    ensures ApplyRelease(d, Release(name, a + [x] + b)) == ApplyRelease(d, Release(name, a + b))
  {
    WantedSkips(a, x, b);
  }

  /** The passes keep the dictionary valid. */
  lemma {:induction false} ApplyAssetsValid(d: Data, assets: seq<Asset>, releaseName: string, optLevel: string)
    requires DataValid(d)
    ensures DataValid(ApplyAssets(d, assets, releaseName, optLevel).data)
    decreases |assets|
  {
    if |assets| > 0 {
      ApplyAssetValid(d, assets[0], releaseName, optLevel);
      var r := ApplyAsset(d, assets[0], releaseName, optLevel);
      if r.Success? {
        ApplyAssetsValid(r.value, assets[1..], releaseName, optLevel);
      }
    }
  }

  lemma {:induction false} ApplyPassesValid(d: Data, assets: seq<Asset>, releaseName: string, levels: seq<string>)
    requires DataValid(d)
    ensures DataValid(ApplyPasses(d, assets, releaseName, levels).data)
    decreases |levels|
  {
    if |levels| > 0 {
      ApplyAssetsValid(d, WithOptLevel(assets, levels[0]), releaseName, levels[0]);
      var r := ApplyAssets(d, WithOptLevel(assets, levels[0]), releaseName, levels[0]);
      if r.failure.None? {
        ApplyPassesValid(r.data, assets, releaseName, levels[1..]);
      }
    }
  }

  /** The whole script keeps every triple canonical and every checksum beside a download. */
  lemma {:induction false} ApplyReleasesValid(d: Data, releases: seq<Release>)
    requires DataValid(d)
    ensures DataValid(ApplyReleases(d, releases).data)
    decreases |releases|
  {
    if |releases| > 0 {
      ApplyPassesValid(d, Wanted(releases[0].assets), releases[0].name, OptLevels);
      var r := ApplyRelease(d, releases[0]);
      if r.failure.None? {
        ApplyReleasesValid(r.data, releases[1..]);
      }
    }
  }

  /** A checksum asset seen before any archive leaves a new entry with neither a download nor a checksum. */
  lemma ChecksumFirstLeavesEmptyEntry(d: Data, info: TripleInfo, url: string, optLevel: string)
    requires info.sha256 && Lookup(d, info.version, info.triple).None?
    ensures Lookup(ApplyInfo(d, info, url, optLevel), info.version, info.triple) == Some(Entry(None, None))
  {
  }

  /**
   * The checksum guard is a substring test: during the `lto` pass, an `lto`
   * checksum is attached to a `pgo+lto` download, because "lto" occurs in it.
   */
  lemma ChecksumGuardIsSubstring(url: string)
    ensures UpdateEntry(Entry(Some("cpython-3.11.1+20230116-x86_64-unknown-linux-gnu-pgo+lto-full.tar.zst"), None), true, url, "lto")
            == Entry(Some("cpython-3.11.1+20230116-x86_64-unknown-linux-gnu-pgo+lto-full.tar.zst"), Some(url))
  {
    var dl := "cpython-3.11.1+20230116-x86_64-unknown-linux-gnu-pgo+lto-full.tar.zst";
    assert dl[53 .. 56] == "lto";
    OccurrenceContains(dl, "lto", 53);
  }

  /**
   * The guard does not tell builds apart either: once the base `pgo+lto` archive is
   * recorded, an `x86_64_v2` checksum listed after it (same version, and the same triple
   * after `mapTriple`) replaces the base build's checksum, so download and checksum
   * belong to different builds.
   */
  lemma LevelChecksumReplacesBase(download: string, baseSha: string, levelSha: string)
    requires download == "cpython-3.12.0+20231002-x86_64-unknown-linux-gnu-pgo+lto-full.tar.zst"
    ensures UpdateEntry(Entry(Some(download), Some(baseSha)), true, levelSha, "pgo+lto")
            == Entry(Some(download), Some(levelSha))
  {
    assert download[49 .. 56] == "pgo+lto";
    OccurrenceContains(download, "pgo+lto", 49);
  }
}
