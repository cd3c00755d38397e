/**
 * The FFmpeg refresh of the component updater: `CheckAndUpdateFFmpeg` compares
 * the version recorded in `ffmpeg_version.txt` with the tag the release scan
 * reports and, when they differ, deletes the installed build and runs
 * `DownloadFFmpeg`, which asks for the release list again and gives up when
 * that yields no url.
 */
module Updates {
  import opened Text
  import opened Releases

  /**
   * `GetLatestFFmpegInfo`: the release list as read from the GitHub API, or
   * `None` when the request or the JSON parse failed, which yields ("", "").
   */
  function LatestFFmpegInfo(response: Option<seq<Release>>): (string, string) {
    match response
    case None => ("", "")
    case Some(releases) => FFmpegScan(releases)
  }

  datatype Decision = Reinstall | UpToDate

  /**
   * The test of `CheckAndUpdateFFmpeg`: `stored` is the content of the
   * version file, `None` when the file does not exist (read as "").
   */
  function Decide(stored: Option<string>, latest: string): (d: Decision)
    ensures d == UpToDate <==> stored.Some? && stored.value != "" && stored.value == latest
  {
    var current := if stored.Some? then stored.value else "";
    if current == "" || current != latest then Reinstall else UpToDate
  }

  /** The status line the check shows for its decision. */
  function DecisionMessage(d: Decision): (m: string)
    ensures m == "FFmpeg: Wersja aktualna" <==> d == UpToDate
  {
    match d
    case Reinstall => "FFmpeg: Nowa wersja dostepna"
    case UpToDate => "FFmpeg: Wersja aktualna"
  }

  /** When the release lookup fails the reported version is "", so the check always reinstalls. */
  lemma FailedLookupReinstalls(stored: Option<string>)
    ensures Decide(stored, LatestFFmpegInfo(None).1) == Reinstall
  {
  }

  /** What the refresh does to the installed build. */
  datatype RefreshPlan =
    | KeepCurrent
      /** The bin directory is replaced by the build at `url`, and `version` is recorded. */
    | Install(url: string, version: string)
      /** The bin directory is deleted and `DownloadFFmpeg` stops at "Nie znaleziono linku do FFmpeg". */
    | RemoveOnly

  /**
   * `CheckAndUpdateFFmpeg` followed, on a reinstall, by `DownloadFFmpeg`:
   * `first` is the release lookup of the check, `second` the one
   * `DownloadFFmpeg` makes.
   */
  function Refresh(stored: Option<string>, first: Option<seq<Release>>, second: Option<seq<Release>>): (plan: RefreshPlan)
    ensures plan == KeepCurrent <==> Decide(stored, LatestFFmpegInfo(first).1) == UpToDate
    ensures plan == RemoveOnly <==>
      Decide(stored, LatestFFmpegInfo(first).1) == Reinstall && LatestFFmpegInfo(second).0 == ""
    ensures plan.Install? ==> plan.url != "" && (plan.url, plan.version) == LatestFFmpegInfo(second)
  {
    if Decide(stored, LatestFFmpegInfo(first).1) == UpToDate then KeepCurrent
    else if LatestFFmpegInfo(second).0 == "" then RemoveOnly
    else Install(LatestFFmpegInfo(second).0, LatestFFmpegInfo(second).1)
  }

  /** A url comes only from a usable release, so its tag starts with `autobuild-` and is never "". */
  lemma ScanUrlHasTag(releases: seq<Release>)
    requires FFmpegScan(releases).0 != ""
    ensures StartsWith(FFmpegScan(releases).1, AutobuildPrefix)
  {
    ScanFromFound(releases, "");
  }

  /**
   * The lookup gives a url only after a successful request, and then with the
   * `autobuild-` tag of the release it came from; a failed request gives neither.
   */
  lemma LookupUrlHasTag(response: Option<seq<Release>>)
    ensures LatestFFmpegInfo(response).0 != "" ==>
      response.Some? && StartsWith(LatestFFmpegInfo(response).1, AutobuildPrefix)
  {
    if response.Some? && FFmpegScan(response.value).0 != "" {
      ScanUrlHasTag(response.value);
    }
  }

  /**
   * An install records a non-empty version, so a later check that sees the
   * same tag keeps the build.
   */
  lemma InstallThenUpToDate(stored: Option<string>, first: Option<seq<Release>>, second: Option<seq<Release>>)
    requires Refresh(stored, first, second).Install?
    ensures var v := Refresh(stored, first, second).version;
      Decide(Some(v), v) == UpToDate
  {
    LookupUrlHasTag(second);
  }

  /**
   * Without network access both lookups fail: the installed build is deleted
   * and nothing replaces it, whatever version was recorded.
   */
  lemma OfflineRefreshRemoves(stored: Option<string>)
    ensures Refresh(stored, None, None) == RemoveOnly
  {
  }

  /**
   * A recorded version that matches the reported tag keeps the build even
   * when the scan found no url for it.
   */
  lemma MatchingVersionKept(releases: seq<Release>)
    requires (forall k :: 0 <= k < |releases| ==> !Usable(releases[k]))
    requires LastAutobuildTag(releases) != ""
    ensures Refresh(Some(LastAutobuildTag(releases)), Some(releases), Some(releases)) == KeepCurrent
  {
    FFmpegScanResult(releases);
  }
}
