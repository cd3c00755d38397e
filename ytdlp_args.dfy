/**
 * The choices that shape the yt-dlp call: `BuildYtDlpArguments` turns the
 * three combo boxes into format-selection arguments, `GetRuntimePath` picks
 * the JavaScript runtime yt-dlp is pointed at, and the runtime path decides
 * whether `--js-runtimes node` is passed.
 */
module YtDlpArgs {
  import opened Text

  /** The items of the three combo boxes, in the order the form lists them. */
  const ContentItems: seq<string> := ["Wideo + Audio", "Tylko Audio (MP3)"]
  const QualityItems: seq<string> := ["Najlepsza", "4K (2160p)", "1080p", "720p", "480p", "360p", "240p"]
  const FormatItems: seq<string> := ["mp4", "webm", "mkv"]

  /** Index of "Tylko Audio (MP3)" in the content combo box. */
  const AudioOnly := 1

  /** ` -f bestaudio --extract-audio --audio-format mp3 --audio-quality 192`, kept in four pieces. */
  const AudioArgs := " -f bestaudio" + " --extract-audio" + " --audio-format mp3" + " --audio-quality 192"
  const BestVideoArgs := " -f bestvideo+bestaudio/best"

  /** Best video no taller than `height`, with the same limit on the combined fallback. */
  function HeightSelector(height: string): string {
    " -f bestvideo[height<=" + height + "]+bestaudio/best[height<=" + height + "]"
  }

  /** The value of a combo box, or the default when nothing is selected. */
  function SelectedOr(item: Option<string>, default: string): string {
    match item
    case Some(v) => v
    case None => default
  }

  /**
   * The format selector for a quality label: the 4K and 1080p labels have
   * their own branches with the limits 2160 and 1080 written out; any other
   * label has its `p`s removed to give the limit.
   */
  function VideoSelector(quality: string): string {
    if quality == "Najlepsza" then BestVideoArgs
    else if quality == "4K (2160p)" then HeightSelector("2160")
    else if quality == "1080p" then HeightSelector("1080")
    else HeightSelector(RemoveAll(quality, 'p'))
  }

  /** The container arguments appended for a format label; unknown labels add nothing. */
  function ContainerArgs(format: string): string {
    if format == "mp4" then " --remux-video mp4"
    else if format == "webm" then " --remux-video webm"
    else if format == "mkv" then " --merge-output-format mkv"
    else ""
  }

  /**
   * `BuildYtDlpArguments`: audio-only content ignores the other two boxes;
   * otherwise the quality (default "Najlepsza") picks the selector and the
   * format (default "mp4") the container arguments.
   */
  function BuildYtDlpArguments(selectedContent: int, quality: Option<string>, format: Option<string>): (args: string)
  {
    if selectedContent == AudioOnly then AudioArgs
    else VideoSelector(SelectedOr(quality, "Najlepsza")) + ContainerArgs(SelectedOr(format, "mp4"))
  }

  /** The height a quality label stands for: the 4K label names it in brackets, the others are `<N>p`. */
  function HeightOf(quality: string): string {
    if quality == "4K (2160p)" then "2160" else RemoveAll(quality, 'p')
  }

  /** Every label but "Najlepsza" limits both selectors to the label's height. */
  lemma VideoSelectorHeight(quality: string)
    requires quality != "Najlepsza"
    ensures VideoSelector(quality) == HeightSelector(HeightOf(quality))
  {
    if quality == "1080p" {
      OneThousandEighty();
    }
  }

  /** The generic rule gives the right height for "1080p", so its own branch agrees with it. */
  lemma OneThousandEighty()
    ensures RemoveAll("1080p", 'p') == "1080"
  {
  }

  /** The generic rule would turn the 4K label into "4K (2160)", so it needs its own branch. */
  lemma FourKNeedsItsBranch()
    ensures RemoveAll("4K (2160p)", 'p') != "2160"
  {
    assert "4K (2160p)"[0] == '4';
    assert RemoveAll("4K (2160p)", 'p')[0] == '4';
  }

  lemma Height720() ensures RemoveAll("720p", 'p') == "720" {}
  lemma Height480() ensures RemoveAll("480p", 'p') == "480" {}
  lemma Height360() ensures RemoveAll("360p", 'p') == "360" {}
  lemma Height240() ensures RemoveAll("240p", 'p') == "240" {}

  /** The heights of the labels the quality box offers. */
  lemma QualityItemHeights()
    ensures HeightOf(QualityItems[1]) == "2160"
    ensures HeightOf(QualityItems[2]) == "1080"
    ensures HeightOf(QualityItems[3]) == "720"
    ensures HeightOf(QualityItems[4]) == "480"
    ensures HeightOf(QualityItems[5]) == "360"
    ensures HeightOf(QualityItems[6]) == "240"
  {
    OneThousandEighty();
    Height720();
    Height480();
    Height360();
    Height240();
  }

  /** Audio-only arguments whatever the other boxes say. */
  lemma AudioIgnoresChoices(quality: Option<string>, format: Option<string>)
    ensures BuildYtDlpArguments(AudioOnly, quality, format) == AudioArgs
  {
  }

  /** The audio-only arguments carry no height filter... */
  lemma AudioHasNoHeightFilter()
    ensures !Contains(AudioArgs, "height<=")
  {
    assert '<' !in " -f bestaudio";
    assert '<' !in " --extract-audio";
    assert '<' !in " --audio-format mp3";
    assert '<' !in " --audio-quality 192";
    assert "height<="[6] == '<';
    MissingCharNotContained(AudioArgs, "height<=", '<');
  }

  /** ...no remux option... */
  lemma AudioHasNoRemux()
    ensures !Contains(AudioArgs, "--remux-video")
  {
    assert 'v' !in " -f bestaudio";
    assert 'v' !in " --extract-audio";
    assert 'v' !in " --audio-format mp3";
    assert 'v' !in " --audio-quality 192";
    assert "--remux-video"[8] == 'v';
    MissingCharNotContained(AudioArgs, "--remux-video", 'v');
  }

  /** ...and no merge option. */
  lemma AudioHasNoMerge()
    ensures !Contains(AudioArgs, "--merge-output-format")
  {
    assert 'g' !in " -f bestaudio";
    assert 'g' !in " --extract-audio";
    assert 'g' !in " --audio-format mp3";
    assert 'g' !in " --audio-quality 192";
    assert "--merge-output-format"[5] == 'g';
    MissingCharNotContained(AudioArgs, "--merge-output-format", 'g');
  }

  /** "Najlepsza", also the default, selects without a height filter whatever the format. */
  lemma BestHasNoHeightFilter(selectedContent: int, format: Option<string>)
    requires selectedContent != AudioOnly
    ensures !Contains(BuildYtDlpArguments(selectedContent, None, format), "height<=")
    ensures !Contains(BuildYtDlpArguments(selectedContent, Some("Najlepsza"), format), "height<=")
  {
    var c := ContainerArgs(SelectedOr(format, "mp4"));
    ContainerHasNoBracket(SelectedOr(format, "mp4"));
    assert '<' !in BestVideoArgs;
    var s := BestVideoArgs + c;
    NotInAppend(BestVideoArgs, c, '<');
    assert "height<="[6] == '<';
    MissingCharNotContained(s, "height<=", '<');
  }

  lemma NotInAppend(a: string, b: string, c: char)
    requires c !in a && c !in b
    ensures c !in a + b
  {
  }

  lemma ContainerHasNoBracket(format: string)
    ensures '<' !in ContainerArgs(format)
  {
  }

  /** Video arguments are the selector for the quality followed by the container arguments for the format. */
  lemma VideoArgsShape(selectedContent: int, quality: Option<string>, format: Option<string>)
    requires selectedContent != AudioOnly
    ensures StartsWith(BuildYtDlpArguments(selectedContent, quality, format), VideoSelector(SelectedOr(quality, "Najlepsza")))
    ensures EndsWith(BuildYtDlpArguments(selectedContent, quality, format), ContainerArgs(SelectedOr(format, "mp4")))
  {
    var a := VideoSelector(SelectedOr(quality, "Najlepsza"));
    var b := ContainerArgs(SelectedOr(format, "mp4"));
    assert (a + b)[..|a|] == a;
    assert (a + b)[|a + b| - |b|..] == b;
  }

  /** The container options of the three formats the form offers, and of the default. */
  lemma ContainerItems()
    ensures ContainerArgs(FormatItems[0]) == " --remux-video mp4"
    ensures ContainerArgs(FormatItems[1]) == " --remux-video webm"
    ensures ContainerArgs(FormatItems[2]) == " --merge-output-format mkv"
    ensures ContainerArgs(SelectedOr(None, "mp4")) == " --remux-video mp4"
  {
  }

  /**
   * `ContentType_Changed`: the quality and format boxes are enabled exactly
   * when the content choice is not audio-only, matching that
   * `BuildYtDlpArguments` reads them only then.
   */
  predicate ChoicesEnabled(selectedContent: int) {
    selectedContent != AudioOnly
  }

  /** While the boxes are enabled the quality box does affect the arguments. */
  lemma EnabledQualityMatters(selectedContent: int, quality: string, format: Option<string>)
    requires ChoicesEnabled(selectedContent) && quality != "Najlepsza"
    ensures BuildYtDlpArguments(selectedContent, Some(quality), format) != BuildYtDlpArguments(selectedContent, None, format)
  {
    VideoSelectorHeight(quality);
    var container := ContainerArgs(SelectedOr(format, "mp4"));
    assert (HeightSelector(HeightOf(quality)) + container)[13] == '[';
    assert (BestVideoArgs + container)[13] == '+';
  }

  /** While the boxes are disabled their values do not affect the arguments. */
  lemma DisabledChoicesIgnored(selectedContent: int, q1: Option<string>, f1: Option<string>, q2: Option<string>, f2: Option<string>)
    requires !ChoicesEnabled(selectedContent)
    ensures BuildYtDlpArguments(selectedContent, q1, f1) == BuildYtDlpArguments(selectedContent, q2, f2)
  {
  }

  // ---------------------------------------------------------------------------
  // The JavaScript runtime

  /** What `where deno` returned: its exit code and its standard output. */
  datatype Lookup = Lookup(exitCode: int, output: string)

  /**
   * `GetRuntimePath`: the bundled `deno.exe` if it exists, else the bundled
   * `node.exe`, else the trimmed output of a successful non-empty `where
   * deno`, else "". `lookup` is `None` when the process could not be started.
   */
  function RuntimePath(denoExists: bool, denoPath: string, nodeExists: bool, nodePath: string, lookup: Option<Lookup>): string {
    if denoExists then denoPath
    else if nodeExists then nodePath
    else if lookup.Some? && lookup.value.exitCode == 0 && Trim(lookup.value.output) != "" then Trim(lookup.value.output)
    else ""
  }

  /**
   * The priority order, in full: each source is used exactly when the ones
   * before it are unavailable, and "" means none was available.
   */
  lemma RuntimePriority(denoExists: bool, denoPath: string, nodeExists: bool, nodePath: string, lookup: Option<Lookup>)
    ensures denoExists ==> RuntimePath(denoExists, denoPath, nodeExists, nodePath, lookup) == denoPath
    ensures !denoExists && nodeExists ==> RuntimePath(denoExists, denoPath, nodeExists, nodePath, lookup) == nodePath
    ensures !denoExists && !nodeExists ==>
      ((RuntimePath(denoExists, denoPath, nodeExists, nodePath, lookup) != "")
        <==> (lookup.Some? && lookup.value.exitCode == 0 && !IsBlank(lookup.value.output)))
    ensures !denoExists && !nodeExists && RuntimePath(denoExists, denoPath, nodeExists, nodePath, lookup) != "" ==>
      IsTrimmed(RuntimePath(denoExists, denoPath, nodeExists, nodePath, lookup))
  {
    if lookup.Some? {
      TrimShape(lookup.value.output);
    }
  }

  /** `jsRuntimeArg`: nothing for a Deno executable, `--js-runtimes node` otherwise. */
  function JsRuntimeArg(runtimePath: string): string {
    if EndsWithIgnoreCase(runtimePath, "deno.exe") then "" else "--js-runtimes node"
  }

  /** The bundled runtimes: `deno.exe` needs no option, `node.exe` gets `--js-runtimes node`. */
  lemma BundledRuntimeArgs(appDirectory: string)
    ensures JsRuntimeArg(PathCombine(appDirectory, "deno.exe")) == ""
    ensures JsRuntimeArg(PathCombine(appDirectory, "node.exe")) == "--js-runtimes node"
  {
    SuffixIgnoreCase(PathCombine(appDirectory, "deno.exe"), "deno.exe");
    var n := PathCombine(appDirectory, "node.exe");
    assert n[|n| - 8] == 'n' by {
      assert n[|n| - 8..][0] == 'n';
    }
    assert UpperAscii(n[|n| - 8 + 0]) != UpperAscii("deno.exe"[0]);
  }

  /** The suffix test ignores case, so a `DENO.EXE` path also counts as Deno. */
  lemma DenoSuffixIgnoresCase(prefix: string)
    ensures JsRuntimeArg(prefix + "DENO.EXE") == ""
  {
    var s := prefix + "DENO.EXE";
    assert forall i :: 0 <= i < 8 ==> s[|s| - 8 + i] == "DENO.EXE"[i];
  }
}
