/**
 * The decision logic of src/proto.rs: the tag filter of `load_versions` and the
 * selection in `download_prebuilt`. The git tags, the fetched manifest and the
 * host triple are parameters.
 */
module Proto {
  import opened Wrappers
  import VersionPattern

  /** The tool name the plugin registers (src/proto.rs:15). */
  const Name: string := "Python"

  /** The reserved tag that is never a version (src/proto.rs:52). */
  const LegacyTrunk: string := "legacy-trunk"

  // ---------------------------------------------------------------------------
  // load_versions
  // ---------------------------------------------------------------------------

  /** The closure given to `filter_map`: drop `legacy-trunk`, otherwise normalise. */
  function KeepTag(tag: string): Option<string>
  {
    if tag == LegacyTrunk then None else VersionPattern.FromPythonVersion(tag)
  }

  /** `tags.into_iter().filter_map(..).collect()`: one pass, in order. */
  function LoadVersions(tags: seq<string>): (versions: seq<string>)
    ensures |versions| <= |tags|
  {
    if |tags| == 0 then []
    else
      match KeepTag(tags[0])
      case None => LoadVersions(tags[1..])
      case Some(v) => [v] + LoadVersions(tags[1..])
  }

  /** One tag alone: dropped when reserved or rejected by the normaliser, else replaced by its normal form. */
  lemma LoadVersionsSingleton(tag: string)
    ensures tag == LegacyTrunk ==> LoadVersions([tag]) == []
    ensures tag != LegacyTrunk && VersionPattern.FromPythonVersion(tag).None? ==> LoadVersions([tag]) == []
    ensures tag != LegacyTrunk && VersionPattern.FromPythonVersion(tag).Some? ==>
              LoadVersions([tag]) == [VersionPattern.FromPythonVersion(tag).value]
  {
    assert [tag][1..] == [];
  }

  /** The filter works on each part of the input independently and keeps their order. */
  lemma {:induction false} LoadVersionsAppend(a: seq<string>, b: seq<string>)
    ensures LoadVersions(a + b) == LoadVersions(a) + LoadVersions(b)
    decreases |a|
  {
    if |a| == 0 {
      assert a + b == b;
    } else {
      assert (a + b)[0] == a[0];
      assert (a + b)[1..] == a[1..] + b;
      LoadVersionsAppend(a[1..], b);
    }
  }

  /** Each output comes from a non-reserved input tag that the normaliser accepts, and each such tag yields one. */
  lemma {:induction false} LoadVersionsMembership(tags: seq<string>, v: string)
    ensures v in LoadVersions(tags) <==>
              exists i :: 0 <= i < |tags| && tags[i] != LegacyTrunk && VersionPattern.FromPythonVersion(tags[i]) == Some(v)
    decreases |tags|
  {
    if |tags| > 0 {
      LoadVersionsMembership(tags[1..], v);
      if v in LoadVersions(tags) && KeepTag(tags[0]) != Some(v) {
        var i :| 0 <= i < |tags[1..]| && tags[1..][i] != LegacyTrunk && VersionPattern.FromPythonVersion(tags[1..][i]) == Some(v);
        assert tags[i + 1] == tags[1..][i];
      }
      if exists i :: 0 <= i < |tags| && tags[i] != LegacyTrunk && VersionPattern.FromPythonVersion(tags[i]) == Some(v) {
        var i :| 0 <= i < |tags| && tags[i] != LegacyTrunk && VersionPattern.FromPythonVersion(tags[i]) == Some(v);
        if i > 0 {
          assert tags[1..][i - 1] == tags[i];
        }
      }
    }
  }

  /** `legacy-trunk` is never emitted: the reserved tag is dropped, and no other tag normalises to it. */
  lemma LegacyTrunkNeverKept(tags: seq<string>)
    ensures LegacyTrunk !in LoadVersions(tags)
  {
    if LegacyTrunk in LoadVersions(tags) {
      LoadVersionsMembership(tags, LegacyTrunk);
      var i :| 0 <= i < |tags| && tags[i] != LegacyTrunk && VersionPattern.FromPythonVersion(tags[i]) == Some(LegacyTrunk);
      VersionPattern.ResultStartsWithDigit(tags[i]);
    }
  }

  /** The normaliser would drop `legacy-trunk` as well: it holds no digit, so the pattern matches nowhere in it. */
  lemma LegacyTrunkHasNoVersion(tag: string)
    requires tag == LegacyTrunk
    ensures VersionPattern.FromPythonVersion(tag).None?
  {
    assert forall x :: 0 <= x < |tag| ==> !VersionPattern.IsDigit(tag[x]);
    VersionPattern.NoDigitNoVersion(tag);
  }

  /** Inserting `legacy-trunk` anywhere in the input changes nothing, whatever the normaliser would make of it. */
  lemma LegacyTrunkIgnored(a: seq<string>, b: seq<string>)
    ensures LoadVersions(a + [LegacyTrunk] + b) == LoadVersions(a + b)
  {
    LoadVersionsAppend(a + [LegacyTrunk], b);
    LoadVersionsAppend(a, [LegacyTrunk]);
    LoadVersionsAppend(a, b);
    LoadVersionsSingleton(LegacyTrunk);
  }

  // ---------------------------------------------------------------------------
  // download_prebuilt
  // ---------------------------------------------------------------------------

  /** The requested version, as far as this plugin distinguishes it. */
  datatype VersionSpec = Canary | Exact(version: string) | Other(request: string)

  /** One entry of releases.json (src/proto.rs:91-95). */
  datatype ReleaseEntry = ReleaseEntry(download: string, checksum: Option<string>)

  /** releases.json: version, then target triple, then entry. */
  type Manifest = map<string, map<string, ReleaseEntry>>

  /** The fields of `DownloadPrebuiltOutput` the plugin sets. */
  datatype DownloadPrebuiltOutput = DownloadPrebuiltOutput(archivePrefix: Option<string>, checksumUrl: Option<string>, downloadUrl: string)

  datatype PluginError =
    | UnsupportedCanary(tool: string)
    | NoPrebuiltForVersion(requested: VersionSpec)
    | NoPrebuiltForTriple(triple: string)

  /**
   * `download_prebuilt` with the fetched manifest and the host triple as
   * parameters: reject canary, look up the exact version, then the triple, and
   * pass the entry's URLs through.
   */
  function DownloadPrebuilt(version: VersionSpec, releases: Manifest, triple: string): (r: Result<DownloadPrebuiltOutput, PluginError>)
    ensures version.Canary? ==> r == Failure(UnsupportedCanary(Name))
    ensures r.Success? <==>
              version.Exact? && version.version in releases && triple in releases[version.version]
    ensures r == Failure(NoPrebuiltForVersion(version)) <==>
              !version.Canary? && (version.Other? || version.version !in releases)
    ensures r == Failure(NoPrebuiltForTriple(triple)) <==>
              version.Exact? && version.version in releases && triple !in releases[version.version]
    ensures r.Success? ==>
              var e := releases[version.version][triple];
              r == Success(DownloadPrebuiltOutput(Some("python"), e.checksum, e.download))
  {
    if version.Canary? then Failure(UnsupportedCanary(Name))
    else
      var releaseTriples: Option<map<string, ReleaseEntry>> := if version.Exact? && version.version in releases then Some(releases[version.version]) else None;
      if releaseTriples.None? then Failure(NoPrebuiltForVersion(version))
      else if triple !in releaseTriples.value then Failure(NoPrebuiltForTriple(triple))
      else
        var release := releaseTriples.value[triple];
        Success(DownloadPrebuiltOutput(Some("python"), release.checksum, release.download))
  }

  /** The outcome depends only on the entries of the requested version; other versions and unrelated triples are never consulted. */
  lemma DownloadPrebuiltLocal(version: VersionSpec, r1: Manifest, r2: Manifest, triple: string)
    requires version.Exact? ==> (version.version in r1 <==> version.version in r2)
    requires version.Exact? && version.version in r1 ==>
               (triple in r1[version.version] <==> triple in r2[version.version])
    requires version.Exact? && version.version in r1 && triple in r1[version.version] ==>
               r1[version.version][triple] == r2[version.version][triple]
    ensures DownloadPrebuilt(version, r1, triple) == DownloadPrebuilt(version, r2, triple)
  {
  }
}
