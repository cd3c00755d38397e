/**
 * The download button: `BtnDownload_Click` checks the link, yt-dlp, FFmpeg
 * and a JavaScript runtime in that order, refusing with a message at the
 * first that fails; otherwise it resets the progress panel and starts
 * yt-dlp with the command line of `CommandLine`. When yt-dlp ends, the panel
 * shows the outcome and the bar goes back to 0.
 */
module Launch {
  import opened Text
  import opened UrlInput
  import opened YtDlpArgs
  import opened YtDlpCommand
  import opened Display

  // ---------------------------------------------------------------------------
  // Where the components live

  function YtDlpPath(appDirectory: string): string { PathCombine(appDirectory, "yt-dlp.exe") }
  function FFmpegBinPath(appDirectory: string): string { PathCombine(appDirectory, "ffmpeg_bin") }
  function DenoPath(appDirectory: string): string { PathCombine(appDirectory, "deno.exe") }
  function NodePath(appDirectory: string): string { PathCombine(appDirectory, "node.exe") }
  function DownloadsDir(appDirectory: string): string { PathCombine(appDirectory, "downloads") }

  const OutputTemplate := "%(title)s.%(ext)s"

  /** The `-o` template: yt-dlp names each file after its title and extension, inside the downloads folder. */
  function OutputPattern(appDirectory: string): string { PathCombine(DownloadsDir(appDirectory), OutputTemplate) }

  /** Every component sits under the application folder and keeps its own name. */
  lemma ComponentPaths(appDirectory: string)
    requires appDirectory != ""
    ensures StartsWith(YtDlpPath(appDirectory), appDirectory) && EndsWith(YtDlpPath(appDirectory), "yt-dlp.exe")
    ensures StartsWith(FFmpegBinPath(appDirectory), appDirectory) && EndsWith(FFmpegBinPath(appDirectory), "ffmpeg_bin")
    ensures StartsWith(DenoPath(appDirectory), appDirectory) && EndsWith(DenoPath(appDirectory), "deno.exe")
    ensures StartsWith(NodePath(appDirectory), appDirectory) && EndsWith(NodePath(appDirectory), "node.exe")
    ensures StartsWith(DownloadsDir(appDirectory), appDirectory) && EndsWith(DownloadsDir(appDirectory), "downloads")
  {
    assert !IsRooted("yt-dlp.exe") && !IsRooted("ffmpeg_bin") && !IsRooted("deno.exe");
    assert !IsRooted("node.exe") && !IsRooted("downloads");
  }

  /** The output template lies inside the downloads folder and ends with the file-name template. */
  lemma OutputPatternShape(appDirectory: string)
    requires appDirectory != ""
    ensures StartsWith(OutputPattern(appDirectory), DownloadsDir(appDirectory))
    ensures EndsWith(OutputPattern(appDirectory), OutputTemplate)
  {
    ComponentPaths(appDirectory);
    assert DownloadsDir(appDirectory) != "";
    assert !IsRooted(OutputTemplate);
  }

  // ---------------------------------------------------------------------------
  // The checks before the start

  /** What the click sees of the machine: which components exist and how `where deno` went. */
  datatype Installation = Installation(
    appDirectory: string,
    ytDlpExists: bool,
    ffmpegDirExists: bool,
    denoExists: bool,
    nodeExists: bool,
    whereDeno: Option<Lookup>)

  /** The three combo boxes: content type, quality and format (`None` when nothing is selected). */
  datatype Choices = Choices(selectedContent: int, quality: Option<string>, format: Option<string>)

  /** `GetRuntimePath` for this installation. */
  function RuntimeOf(inst: Installation): string {
    RuntimePath(inst.denoExists, DenoPath(inst.appDirectory), inst.nodeExists, NodePath(inst.appDirectory), inst.whereDeno)
  }

  const InvalidLink := "Nieprawidlowy link"
  const NoYtDlp := "yt-dlp niedostepne"
  const NoFFmpeg := "FFmpeg niedostepne"
  const NoRuntime := "Brak runtime Deno/Node.js"

  /** A refusal with the message box text, or the process to start: program, arguments and the folder created for it. */
  datatype Launch = Refused(message: string) | Start(fileName: string, arguments: string, downloadsDir: string)

  /** The arguments of a started download. */
  function Arguments(inst: Installation, choices: Choices, normalizedUrl: string): string {
    CommandLine(JsRuntimeArg(RuntimeOf(inst)),
      BuildYtDlpArguments(choices.selectedContent, choices.quality, choices.format),
      FFmpegBinPath(inst.appDirectory), OutputPattern(inst.appDirectory), normalizedUrl)
  }

  /** The click's decision, on the link text after trimming. */
  function PrepareDownload(inst: Installation, rawText: string, isAbsoluteHttpUri: string -> bool, choices: Choices): (r: Launch)
    ensures r == Refused(InvalidLink) <==> !ValidateUrl(Trim(rawText), isAbsoluteHttpUri).Accepted?
    ensures r == Refused(NoYtDlp) <==> ValidateUrl(Trim(rawText), isAbsoluteHttpUri).Accepted? && !inst.ytDlpExists
    ensures r == Refused(NoFFmpeg)
      <==> ValidateUrl(Trim(rawText), isAbsoluteHttpUri).Accepted? && inst.ytDlpExists && !inst.ffmpegDirExists
    ensures r == Refused(NoRuntime)
      <==> (ValidateUrl(Trim(rawText), isAbsoluteHttpUri).Accepted? && inst.ytDlpExists && inst.ffmpegDirExists
        && RuntimeOf(inst) == "")
    ensures r.Start?
      <==> (ValidateUrl(Trim(rawText), isAbsoluteHttpUri).Accepted? && inst.ytDlpExists && inst.ffmpegDirExists
        && RuntimeOf(inst) != "")
    ensures r.Start? ==> r.fileName == YtDlpPath(inst.appDirectory) && r.downloadsDir == DownloadsDir(inst.appDirectory)
    ensures r.Start? ==> EndsWith(r.arguments, "\"" + NormalizeUrl(Trim(rawText)) + "\"")
  {
    var rawUrl := Trim(rawText);
    if !ValidateUrl(rawUrl, isAbsoluteHttpUri).Accepted? then Refused(InvalidLink)
    else if !inst.ytDlpExists then Refused(NoYtDlp)
    else if !inst.ffmpegDirExists then Refused(NoFFmpeg)
    else if RuntimeOf(inst) == "" then Refused(NoRuntime)
    else
      UrlComesLast(JsRuntimeArg(RuntimeOf(inst)),
        BuildYtDlpArguments(choices.selectedContent, choices.quality, choices.format),
        FFmpegBinPath(inst.appDirectory), OutputPattern(inst.appDirectory), NormalizeUrl(rawUrl));
      Start(YtDlpPath(inst.appDirectory), Arguments(inst, choices, NormalizeUrl(rawUrl)), DownloadsDir(inst.appDirectory))
  }

  /** The runtime option is present exactly when the runtime is not Deno, and is then two arguments. */
  lemma RuntimeOptionArguments(runtimePath: string)
    ensures EndsWithIgnoreCase(runtimePath, "deno.exe") ==> Tokens(JsRuntimeArg(runtimePath)) == []
    ensures !EndsWithIgnoreCase(runtimePath, "deno.exe") ==> Tokens(JsRuntimeArg(runtimePath)) == ["--js-runtimes", "node"]
    ensures '"' !in JsRuntimeArg(runtimePath)
  {
    assert "--js-runtimes node" == "--js-runtimes" + " " + "node";
    assert IsWord("--js-runtimes") && IsWord("node");
    TwoWordTokens("--js-runtimes", "node");
    assert '"' !in "--js-runtimes node";
  }

  lemma PathNamesQuoteFree()
    ensures '"' !in "ffmpeg_bin" && '"' !in "downloads" && '"' !in OutputTemplate
  {
  }

  /** A folder without double quotes gives paths without them. */
  lemma PathsQuoteFree(appDirectory: string)
    requires '"' !in appDirectory
    ensures '"' !in FFmpegBinPath(appDirectory) && '"' !in OutputPattern(appDirectory)
  {
    PathNamesQuoteFree();
    PathCombineKeepsOut(appDirectory, "ffmpeg_bin", '"');
    PathCombineKeepsOut(appDirectory, "downloads", '"');
    PathCombineKeepsOut(DownloadsDir(appDirectory), OutputTemplate, '"');
  }

  /**
   * What yt-dlp receives on a start: the runtime option (unless the runtime
   * is Deno), the format arguments, the FFmpeg folder, the progress options,
   * the output template and the normalised link last, for an application
   * folder, format arguments and link without double quotes.
   */
  lemma StartedArguments(inst: Installation, rawText: string, isAbsoluteHttpUri: string -> bool, choices: Choices)
    requires PrepareDownload(inst, rawText, isAbsoluteHttpUri, choices).Start?
    requires '"' !in inst.appDirectory
    requires '"' !in BuildYtDlpArguments(choices.selectedContent, choices.quality, choices.format)
    requires '"' !in NormalizeUrl(Trim(rawText))
    ensures Tokens(PrepareDownload(inst, rawText, isAbsoluteHttpUri, choices).arguments)
      == Tokens(JsRuntimeArg(RuntimeOf(inst)))
        + Tokens(BuildYtDlpArguments(choices.selectedContent, choices.quality, choices.format))
        + ["--ffmpeg-location", FFmpegBinPath(inst.appDirectory), "--progress", "--newline", "-o",
           OutputPattern(inst.appDirectory), NormalizeUrl(Trim(rawText))]
  {
    var dir := inst.appDirectory;
    RuntimeOptionArguments(RuntimeOf(inst));
    PathsQuoteFree(dir);
    CommandTokens(JsRuntimeArg(RuntimeOf(inst)),
      BuildYtDlpArguments(choices.selectedContent, choices.quality, choices.format),
      FFmpegBinPath(dir), OutputPattern(dir), NormalizeUrl(Trim(rawText)));
  }

  // ---------------------------------------------------------------------------
  // The handler

  /**
   * `BtnDownload_Click` up to the start of yt-dlp: a refused link leaves the
   * refusal of `ValidateUrl` on the label, the other refusals leave the panel
   * as it was, and a start shows an empty bar and "Przygotowanie...".
   */
  method BtnDownloadClick(panel: StatusPanel, inst: Installation, rawText: string, isAbsoluteHttpUri: string -> bool, choices: Choices)
    returns (launch: Launch)
    modifies panel
    ensures launch == PrepareDownload(inst, rawText, isAbsoluteHttpUri, choices)
    ensures launch == Refused(InvalidLink)
      ==> panel.State() == Panel(old(panel.progress), RefusalMessage(ValidateUrl(Trim(rawText), isAbsoluteHttpUri)).value)
    ensures launch.Refused? && launch != Refused(InvalidLink) ==> panel.State() == old(panel.State())
    ensures launch.Start? ==> panel.State() == Panel(0, "Przygotowanie...")
  {
    var rawUrl := Trim(rawText);
    var check := ValidateUrl(rawUrl, isAbsoluteHttpUri);
    if !check.Accepted? {
      panel.UpdateStatus(RefusalMessage(check).value);
      return Refused(InvalidLink);
    }
    if !inst.ytDlpExists {
      return Refused(NoYtDlp);
    }
    if !inst.ffmpegDirExists {
      return Refused(NoFFmpeg);
    }
    var runtimePath := RuntimeOf(inst);
    if runtimePath == "" {
      return Refused(NoRuntime);
    }
    panel.ResetBar();
    panel.UpdateStatus("Przygotowanie...");
    var normalizedUrl := NormalizeUrl(rawUrl);
    var jsRuntimeArg := JsRuntimeArg(runtimePath);
    var ytDlpArgs := BuildYtDlpArguments(choices.selectedContent, choices.quality, choices.format);
    var downloadsDir := DownloadsDir(inst.appDirectory);
    var outputPattern := PathCombine(downloadsDir, OutputTemplate);
    var arguments := AssembleArguments(jsRuntimeArg, ytDlpArgs, FFmpegBinPath(inst.appDirectory), outputPattern, normalizedUrl);
    launch := Start(YtDlpPath(inst.appDirectory), arguments, downloadsDir);
  }

  /** How the run of yt-dlp ended: its exit code, or an exception. */
  datatype Outcome = Exited(exitCode: int) | Crashed

  /** The label after the run: the exit-code message, or "Blad" after an exception. */
  function OutcomeMessage(outcome: Outcome): string {
    match outcome
    case Exited(code) => FinishMessage(code)
    case Crashed => "Blad"
  }

  /** A successful run, and only that, is reported as finished. */
  lemma OnlySuccessReportsDone(outcome: Outcome)
    ensures OutcomeMessage(outcome) == "Pobieranie zakonczono!" <==> outcome == Exited(0)
  {
    if outcome.Crashed? {
      assert "Blad"[0] != "Pobieranie zakonczono!"[0];
    }
  }

  /**
   * The end of `BtnDownload_Click`: the label reports the outcome and, after
   * the `finally` block, the bar is empty again whatever happened. The bar
   * shows 100 after a success only until that block runs.
   */
  method EndDownload(panel: StatusPanel, outcome: Outcome)
    modifies panel
    ensures panel.State() == Panel(0, OutcomeMessage(outcome))
  {
    match outcome {
      case Exited(code) =>
        panel.FinishDownload(code);
      case Crashed =>
        panel.UpdateStatus("Blad");
    }
    panel.ResetBar();
  }
}
