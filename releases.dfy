/**
 * The two scans over GitHub release data: `GetLatestFFmpegInfo` walks the
 * FFmpeg-Builds releases in list order for an `autobuild-` release with a
 * 64-bit shared GPL zip, and `DownloadDeno` looks for the Windows zip among
 * the assets of Deno's latest release. The JSON is taken as already read into
 * values; a missing string property reads as "", as the source's `?? ""` does.
 */
module Releases {
  import opened Text

  datatype Asset = Asset(name: string, url: string)

  datatype Release = Release(tag: string, assets: seq<Asset>)

  const AutobuildPrefix := "autobuild-"

  /** The FFmpeg build the downloader installs. */
  predicate IsFFmpegAsset(name: string) {
    Contains(name, "win64-gpl-shared") && EndsWith(name, ".zip")
  }

  /** The Deno build the downloader installs. */
  predicate IsDenoAsset(name: string) {
    Contains(name, "deno-x86_64-pc-windows-msvc.zip")
  }

  /** The `browser_download_url` of the first asset whose name is wanted, "" when none is. */
  function FirstUrl(assets: seq<Asset>, wanted: string -> bool): string {
    if assets == [] then ""
    else if wanted(assets[0].name) then assets[0].url
    else FirstUrl(assets[1..], wanted)
  }

  /** Asset `j` is the first whose name is wanted. */
  predicate FirstWanted(assets: seq<Asset>, wanted: string -> bool, j: int) {
    0 <= j < |assets| && wanted(assets[j].name) && forall k :: 0 <= k < j ==> !wanted(assets[k].name)
  }

  /** The scan returns the url of the first wanted asset. */
  lemma {:induction false} FirstUrlAt(assets: seq<Asset>, wanted: string -> bool, j: int)
    requires FirstWanted(assets, wanted, j)
    ensures FirstUrl(assets, wanted) == assets[j].url
  {
    if j > 0 {
      assert !wanted(assets[0].name);
      assert FirstWanted(assets[1..], wanted, j - 1) by {
        forall k | 0 <= k < j - 1 ensures !wanted(assets[1..][k].name) {
          assert assets[1..][k] == assets[k + 1];
        }
      }
      FirstUrlAt(assets[1..], wanted, j - 1);
    }
  }

  /** Without a wanted asset the scan returns "". */
  lemma {:induction false} FirstUrlNone(assets: seq<Asset>, wanted: string -> bool)
    requires forall k :: 0 <= k < |assets| ==> !wanted(assets[k].name)
    ensures FirstUrl(assets, wanted) == ""
  {
    if assets != [] {
      assert forall k :: 0 <= k < |assets[1..]| ==> !wanted(assets[1..][k].name) by {
        forall k | 0 <= k < |assets[1..]| ensures !wanted(assets[1..][k].name) {
          assert assets[1..][k] == assets[k + 1];
        }
      }
      FirstUrlNone(assets[1..], wanted);
    }
  }

  /** A non-empty result is the url of the first wanted asset. */
  lemma {:induction false} FirstUrlFound(assets: seq<Asset>, wanted: string -> bool)
    requires FirstUrl(assets, wanted) != ""
    ensures exists j :: FirstWanted(assets, wanted, j) && FirstUrl(assets, wanted) == assets[j].url
  {
    if wanted(assets[0].name) {
      assert FirstWanted(assets, wanted, 0);
    } else {
      FirstUrlFound(assets[1..], wanted);
      var j :| FirstWanted(assets[1..], wanted, j) && FirstUrl(assets[1..], wanted) == assets[1..][j].url;
      assert FirstWanted(assets, wanted, j + 1) by {
        forall k | 0 <= k < j + 1 ensures !wanted(assets[k].name) {
          if k > 0 {
            assert assets[k] == assets[1..][k - 1];
          }
        }
      }
    }
  }

  /** A release the FFmpeg scan can stop at: an `autobuild-` tag and a non-empty url for its zip. */
  predicate Usable(r: Release) {
    StartsWith(r.tag, AutobuildPrefix) && FirstUrl(r.assets, IsFFmpegAsset) != ""
  }

  /**
   * `GetLatestFFmpegInfo` after the HTTP request: the pair (download url,
   * tag) the scan of the remaining releases returns, when the last
   * `autobuild-` tag seen so far is `tag`. Every `autobuild-` release
   * overwrites the tag; one whose zip gives no url does not end the scan.
   */
  function ScanFrom(releases: seq<Release>, tag: string): (string, string) {
    if releases == [] then ("", tag)
    else if !StartsWith(releases[0].tag, AutobuildPrefix) then ScanFrom(releases[1..], tag)
    else if FirstUrl(releases[0].assets, IsFFmpegAsset) != "" then
      (FirstUrl(releases[0].assets, IsFFmpegAsset), releases[0].tag)
    else ScanFrom(releases[1..], releases[0].tag)
  }

  function FFmpegScan(releases: seq<Release>): (string, string) {
    ScanFrom(releases, "")
  }

  /** The tag of the last `autobuild-` release in the list, "" when there is none. */
  function LastAutobuildTag(releases: seq<Release>): string {
    if releases == [] then ""
    else if StartsWith(releases[|releases| - 1].tag, AutobuildPrefix) then releases[|releases| - 1].tag
    else LastAutobuildTag(releases[..|releases| - 1])
  }

  /** Release `i` is the first usable release. */
  predicate FirstUsable(releases: seq<Release>, i: int) {
    0 <= i < |releases| && Usable(releases[i]) && forall k :: 0 <= k < i ==> !Usable(releases[k])
  }

  /** The scan returns the zip url and the tag of the first usable release, whatever came before it. */
  lemma {:induction false} ScanFromPicksFirstUsable(releases: seq<Release>, tag: string, i: int)
    requires FirstUsable(releases, i)
    ensures ScanFrom(releases, tag) == (FirstUrl(releases[i].assets, IsFFmpegAsset), releases[i].tag)
  {
    if i > 0 {
      assert !Usable(releases[0]);
      assert FirstUsable(releases[1..], i - 1) by {
        forall k | 0 <= k < i - 1 ensures !Usable(releases[1..][k]) {
          assert releases[1..][k] == releases[k + 1];
        }
      }
      ScanFromPicksFirstUsable(releases[1..], releases[0].tag, i - 1);
      ScanFromPicksFirstUsable(releases[1..], tag, i - 1);
    }
  }

  /**
   * With no usable release the scan returns no url and the tag of the last
   * `autobuild-` release among those scanned, or the tag it started with.
   */
  lemma {:induction false} ScanFromNoneUsable(releases: seq<Release>, tag: string)
    requires forall k :: 0 <= k < |releases| ==> !Usable(releases[k])
    ensures ScanFrom(releases, tag) == ("", if LastAutobuildTag(releases) == "" then tag else LastAutobuildTag(releases))
    decreases |releases|
  {
    if releases != [] {
      var rest := releases[1..];
      assert forall k :: 0 <= k < |rest| ==> !Usable(rest[k]) by {
        forall k | 0 <= k < |rest| ensures !Usable(rest[k]) {
          assert rest[k] == releases[k + 1];
        }
      }
      assert !Usable(releases[0]);
      var next := if StartsWith(releases[0].tag, AutobuildPrefix) then releases[0].tag else tag;
      ScanFromNoneUsable(rest, next);
      LastTagSplit(releases);
    }
  }

  /** The last `autobuild-` tag of a list is that of its tail, or of its head when the tail has none. */
  lemma {:induction false} LastTagSplit(releases: seq<Release>)
    requires releases != []
    ensures LastAutobuildTag(releases) ==
      if LastAutobuildTag(releases[1..]) != "" then LastAutobuildTag(releases[1..])
      else if StartsWith(releases[0].tag, AutobuildPrefix) then releases[0].tag
      else ""
    decreases |releases|
  {
    var n := |releases|;
    if n > 1 {
      var init := releases[..n - 1];
      assert releases[1..][..n - 2] == init[1..];
      assert releases[1..][n - 2] == releases[n - 1];
      if !StartsWith(releases[n - 1].tag, AutobuildPrefix) {
        LastTagSplit(init);
        assert init[0] == releases[0];
      }
    } else {
      assert releases[1..] == [];
    }
  }

  /**
   * What `GetLatestFFmpegInfo` promises: the url and tag of the first usable
   * release; when there is none, no url and the last `autobuild-` tag (or "").
   */
  lemma FFmpegScanResult(releases: seq<Release>)
    ensures forall i :: FirstUsable(releases, i) ==>
      FFmpegScan(releases) == (FirstUrl(releases[i].assets, IsFFmpegAsset), releases[i].tag)
    ensures (forall k :: 0 <= k < |releases| ==> !Usable(releases[k])) ==>
      FFmpegScan(releases) == ("", LastAutobuildTag(releases))
  {
    forall i | FirstUsable(releases, i)
      ensures FFmpegScan(releases) == (FirstUrl(releases[i].assets, IsFFmpegAsset), releases[i].tag)
    {
      ScanFromPicksFirstUsable(releases, "", i);
    }
    if forall k :: 0 <= k < |releases| ==> !Usable(releases[k]) {
      ScanFromNoneUsable(releases, "");
    }
  }

  /**
   * A returned url always comes from a usable release: some release is the
   * first usable one and the url is that of its first matching zip.
   */
  lemma {:induction false} ScanFromFound(releases: seq<Release>, tag: string)
    requires ScanFrom(releases, tag).0 != ""
    ensures exists i :: FirstUsable(releases, i) && ScanFrom(releases, tag).1 == releases[i].tag
  {
    if Usable(releases[0]) {
      assert FirstUsable(releases, 0);
    } else {
      var next := if StartsWith(releases[0].tag, AutobuildPrefix) then releases[0].tag else tag;
      ScanFromFound(releases[1..], next);
      var i :| FirstUsable(releases[1..], i) && ScanFrom(releases[1..], next).1 == releases[1..][i].tag;
      assert FirstUsable(releases, i + 1) by {
        forall k | 0 <= k < i + 1 ensures !Usable(releases[k]) {
          if k > 0 {
            assert releases[k] == releases[1..][k - 1];
          }
        }
      }
    }
  }

  /**
   * `GetLatestFFmpegInfo`'s loops: every release tagged `autobuild-` sets the
   * tag, its assets are searched for the first zip qualifying, and the outer
   * loop stops only once that gave a non-empty url.
   */
  method SelectFFmpegRelease(releases: seq<Release>) returns (downloadUrl: string, autobuildTag: string)
    ensures (downloadUrl, autobuildTag) == FFmpegScan(releases)
  {
    autobuildTag := "";
    downloadUrl := "";
    var i := 0;
    while i < |releases|
      invariant 0 <= i <= |releases|
      invariant downloadUrl == ""
      invariant ScanFrom(releases[i..], autobuildTag) == FFmpegScan(releases)
    {
      var tagName := releases[i].tag;
      assert releases[i..][1..] == releases[i + 1..];
      ghost var seen := autobuildTag;
      if StartsWith(tagName, AutobuildPrefix) {
        autobuildTag := tagName;
        var assets := releases[i].assets;
        var j := 0;
        while j < |assets|
          invariant 0 <= j <= |assets|
          invariant downloadUrl == ""
          invariant FirstUrl(assets[j..], IsFFmpegAsset) == FirstUrl(assets, IsFFmpegAsset)
        {
          assert assets[j..][1..] == assets[j + 1..];
          if IsFFmpegAsset(assets[j].name) {
            downloadUrl := assets[j].url;
            break;
          }
          j := j + 1;
        }
        assert downloadUrl == FirstUrl(assets, IsFFmpegAsset);
        if downloadUrl != "" {
          return;
        }
      }
      i := i + 1;
    }
  }

  /** `DownloadDeno`'s asset loop: the url of the first Windows zip, "" when there is none. */
  method FindDenoAssetUrl(assets: seq<Asset>) returns (downloadUrl: string)
    ensures downloadUrl == FirstUrl(assets, IsDenoAsset)
  {
    downloadUrl := "";
    var j := 0;
    while j < |assets|
      invariant 0 <= j <= |assets|
      invariant FirstUrl(assets[j..], IsDenoAsset) == FirstUrl(assets, IsDenoAsset)
    {
      assert assets[j..][1..] == assets[j + 1..];
      if IsDenoAsset(assets[j].name) {
        downloadUrl := assets[j].url;
        break;
      }
      j := j + 1;
    }
    if j == |assets| {
      assert assets[j..] == [];
    }
  }
}
