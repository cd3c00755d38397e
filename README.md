# YouTube downloader front end: a verified model of its decision logic

The application is a single Windows Forms window, `MainForm.cs`. It downloads
YouTube videos or their audio by running yt-dlp. It also keeps its
components next to the executable: yt-dlp, an FFmpeg build from the
BtbN/FFmpeg-Builds releases, and Deno or Node.js as JavaScript runtime.
Most of the window is UI, HTTP, zip and process plumbing. This project
models the parts that decide something, each in the form the source gives it.

- **URL input** (`UrlInput`, `url.dfy`). `NormalizeUrl` completes a pasted
  link or a bare video id. `ValidateUrl` refuses blank text, links naming no
  YouTube host, and links the platform URI parser rejects.
- **yt-dlp progress lines** (`ProgressLine`, `progress_line.dfy`). These are
  explicit scanners for the four regular expressions of
  `ParseDownloadProgress`, each finding the leftmost match, with the
  alternatives tried in the order written. The parsed fields give the bar
  value and the status text. The status text decodes back to those fields.
- **The progress panel** (`Display`, `display.dfy`). The class `StatusPanel`
  holds the bar value and the label text. Its methods are
  `ParseDownloadProgress`, the routing of yt-dlp's output lines, the
  end-of-download messages and the byte-counting loop of
  `DownloadFileWithProgress`.
- **Download percentage** (`Transfer`, `transfer.dfy`). This is the arithmetic
  of `DownloadFileWithProgress`: a report after every chunk only when the
  length is known, each report `min(read * 100 / total, 100)`, and the
  reports non-decreasing.
- **Release scans** (`Releases`, `releases.dfy`). These are the nested loops
  of `GetLatestFFmpegInfo` and the Deno asset loop, as methods proved
  against recursive scans.
- **FFmpeg refresh** (`Updates`, `updates.dfy`). This is the version test of
  `CheckAndUpdateFFmpeg` and what the refresh then does to the installed
  build.
- **yt-dlp arguments** (`YtDlpArgs`, `ytdlp_args.dfy`). It covers
  `BuildYtDlpArguments`, the rule that audio-only disables the quality and
  format boxes, and the runtime choice of `GetRuntimePath`.
- **The command line** (`YtDlpCommand`, `command_line.dfy`). This is the
  `StringBuilder` assembly, and a model of how Windows splits that string
  into the arguments yt-dlp receives.
- **The download button** (`Launch`, `launch.dfy`).
  - The guard chain of `BtnDownload_Click`.
  - The component paths built in the constructor.
  - The panel updates around a run.

`Text` (`text.dfy`) holds the .NET string operations the others share.

Three things are given as parameters rather than computed:

- the platform's URI parser (`Uri.TryCreate`), as `isAbsoluteHttpUri`;
- the `ToString("F1")` rendering of the percent, as `formatPercent`;
- file existence, the HTTP responses and the `where deno` result, as plain
  values.

## Model

| member | source | states |
|---|---|---|
| Text.TrimShape | MainForm.cs:413-416 | a trimmed text has no white space at either end, and it is empty exactly when the text was blank |
| Text.TrimIdempotent | MainForm.cs:669 | trimming again, as `NormalizeUrl` does after the click has trimmed, changes nothing |
| Text.PathCombine | MainForm.cs:35-38 | `Path.Combine` with a non-empty name ends with the name, and with a name that starts with neither a separator nor a drive letter and `:` begins with the folder |
| Text.PathCombineKeepsOut | MainForm.cs:707-708 | combining paths adds no character except the backslash separator |
| Text.RemoveAll | MainForm.cs:643 | `Replace("p", "")` leaves no `p`, and it leaves a text without `p` unchanged |
| Text.RemoveAllKeepsOthers | MainForm.cs:643 | every character other than the removed one is kept, as often as it occurs |
| Text.RemoveAllConcat | MainForm.cs:643 | removal distributes over concatenation, so the kept characters stay in their order |
| Text.SuffixIgnoreCase | MainForm.cs:705 | an exact suffix also matches under `OrdinalIgnoreCase` |
| UrlInput.NormalizeUrl | MainForm.cs:411-432 | definition: the trimmed text, completed to a link by the five tests in source order; its properties are the three rows below |
| UrlInput.NormalizeCases | MainForm.cs:411-432 | the five outcomes of `NormalizeUrl`, in the order the source tests them |
| UrlInput.NormalizeShape | MainForm.cs:411-432 | the result is empty exactly for blank input; otherwise it is trimmed, starts with `http(s)://` and ends with the trimmed input |
| UrlInput.NormalizeIdempotent | MainForm.cs:411-432 | normalising twice equals normalising once |
| UrlInput.VideoIdBecomesWatchLink | MainForm.cs:428-429 | an 11-character id becomes the watch link, which names the YouTube host |
| UrlInput.VideoIdHasNoPrefix | MainForm.cs:418-429 | an id never matches the scheme or host tests that come before the id test |
| UrlInput.ValidateUrl | MainForm.cs:434-458 | each of the three refusals and acceptance, each as an if-and-only-if on the input; an accepted link is the normalised, non-empty `http(s)` form |
| UrlInput.RefusalMessage | MainForm.cs:438-453 | a status message exactly for the refusals |
| UrlInput.UpperCaseHostRefused | MainForm.cs:422-444 | an upper-case host passes the case-insensitive prefix test but fails the case-sensitive host test |
| ProgressLine.FirstPercent | MainForm.cs:580-581 | definition: a left-to-right scan for the percent pattern; `FirstPercentIsLeftmost` states what it finds |
| ProgressLine.FirstQuantity | MainForm.cs:590-596 | definition: a left-to-right scan for the size and speed patterns; `FirstQuantityIsLeftmost` states what it finds |
| ProgressLine.FirstEta | MainForm.cs:598-600 | definition: a left-to-right scan for the ETA pattern; `FirstEtaIsLeftmost` states what it finds |
| ProgressLine.FirstPercentIsLeftmost | MainForm.cs:580-581 | the percent scan finds a match of `([0-9]+(?:\.[0-9]+)?)%` with no match further left, or reports that there is none |
| ProgressLine.FirstQuantityIsLeftmost | MainForm.cs:590-596 | the size and speed scans find a match of `keyword\s+([0-9.]+)(MiB\|GiB\|KiB\|B)suffix` with no match further left, or report that there is none |
| ProgressLine.FirstEtaIsLeftmost | MainForm.cs:598-600 | the ETA scan finds the leftmost match, preferring `HH:MM:SS` to `MM:SS` at that position, or reports that there is none |
| ProgressLine.ParseLine | MainForm.cs:577-600 | a line yields fields exactly when it contains `[download]`, and a found percent is a valid numeral |
| ProgressLine.ParsedFieldsWellFormed | MainForm.cs:590-600 | size, speed and ETA are non-empty texts without spaces, the speed ends in `/s`, and the ETA is a clock time |
| ProgressLine.BarValue | MainForm.cs:583-588 | without a percent the bar keeps its value; with one it is the integer part capped at 100, so it lies in 0..100 |
| ProgressLine.StatusText | MainForm.cs:602-608 | definition: the label text; `StatusRoundTrip` shows it can be read back into its fields |
| ProgressLine.StatusRoundTrip | MainForm.cs:602-608 | the status text decodes back to its percent and optional fields, with the segments in the order size, speed, ETA |
| ProgressLine.StatusReportsParsedFields | MainForm.cs:577-608 | the status built from a `[download]` line decodes to exactly the fields that line yielded |
| Display.StatusPanel.constructor | MainForm.cs:404-409 | a panel with the given bar value and label text |
| Display.StatusPanel.UpdateStatus | MainForm.cs:404-409 | the label shows the message; the bar is unchanged |
| Display.StatusPanel.ParseDownloadProgress | MainForm.cs:573-614 | a line without `[download]` changes nothing; otherwise the bar follows `BarValue` and the label is the status text of the parsed fields, with the percent rendered by `formatPercent` (the default 0.0 when none was found), and decodes to those fields |
| Display.StatusPanel.MatchFields | MainForm.cs:580-600 | the four matches of the method are exactly the fields `ParseLine` defines, with an empty string standing for a missing field |
| Display.StatusPanel.ComposeStatus | MainForm.cs:602-608 | the `+=` steps build exactly the status text of the fields |
| Display.StatusPanel.HandleOutputLine | MainForm.cs:741-753 | one output line moves the panel as `AfterLine` says: `[download]` lines are parsed, `[info]` and `Downloading` lines are shown as they are, others and empty lines change nothing |
| Display.StatusPanel.HandleOutput | MainForm.cs:739-756 | a sequence of lines moves the panel as `AfterLines` says |
| Display.AfterLine | MainForm.cs:741-753 | definition: the panel after one output line, specifying `HandleOutputLine` |
| Display.AfterLines | MainForm.cs:739-756 | definition: the panel after a sequence of lines, specifying `HandleOutput` |
| Display.AfterLinesKeepsBarInRange | MainForm.cs:745-753 | output lines keep the bar within 0..100 |
| Display.IgnoredLinesChangeNothing | MainForm.cs:741-753 | lines with none of the three markers leave the panel as it was |
| Display.LastProgressLineShown | MainForm.cs:745-747 | after a `[download]` line the label decodes to that line's fields, whatever came before |
| Display.InfoLineShownVerbatim | MainForm.cs:749-753 | an `[info]` or `Downloading` line without `[download]` replaces the label text and keeps the bar |
| Display.StatusPanel.ResetBar | MainForm.cs:399-400 | the bar is 0 and the label unchanged, as at the end of a transfer and in the `finally` block (MainForm.cs:786-787) |
| Display.StatusPanel.FinishDownload | MainForm.cs:762-774 | exit code 0 fills the bar and reports success; any other code reports the failure and keeps the bar |
| Display.FinishMessage | MainForm.cs:762-772 | the success message is shown exactly for exit code 0 |
| Display.StatusPanel.DownloadFileWithProgress | MainForm.cs:370-402 | the loop sets the bar to the reports of `Transfer.Reports`, in order, and keeps the label; a completed transfer leaves the bar at 0, one ended by an exception leaves the last value shown |
| Transfer.Percent | MainForm.cs:392-394 | the reported value lies in 0..100, is 100 once the whole length has been read, and is `read * 100 / total` before that |
| Transfer.PercentMonotone | MainForm.cs:392-394 | reading more never lowers the value |
| Transfer.Reports | MainForm.cs:376-396 | one report per chunk when the length is known, none otherwise |
| Transfer.ReportAt | MainForm.cs:386-394 | the i-th report is the percentage of the bytes read up to and including chunk i |
| Transfer.ReportsBounded | MainForm.cs:394 | every report lies in 0..100 |
| Transfer.ReportsMonotone | MainForm.cs:386-394 | the reports never decrease |
| Transfer.ReportsReachFull | MainForm.cs:392-394 | when the announced length is all read, the last report is 100 |
| Transfer.ReportsBelowFull | MainForm.cs:392-394 | before the announced length is read, each report equals `read * 100 / total` |
| Transfer.UnknownLengthNoReports | MainForm.cs:376-390 | without a content length nothing is reported |
| Transfer.SumBounds | MainForm.cs:380-388 | the bytes read are non-negative, at most the buffer size for each read, and positive after a read |
| Releases.FirstUrl | MainForm.cs:214-224 | definition: the url of the first wanted asset, or ""; `FirstUrlAt`, `FirstUrlNone` and `FirstUrlFound` state it |
| Releases.FirstUrlAt | MainForm.cs:290-298 | the asset scan returns the url of the first wanted asset |
| Releases.FirstUrlNone | MainForm.cs:290-298 | with no wanted asset the scan returns "" |
| Releases.FirstUrlFound | MainForm.cs:216-224 | a url comes from a first wanted asset |
| Releases.ScanFrom | MainForm.cs:281-303 | definition: the release scan from a given tag; the two rows below state its outcomes |
| Releases.FFmpegScan | MainForm.cs:278-305 | definition: the scan from an empty tag, as `GetLatestFFmpegInfo` returns it; `FFmpegScanResult` states it |
| Releases.ScanFromPicksFirstUsable | MainForm.cs:281-303 | the release scan stops at the first `autobuild-` release that has an FFmpeg asset url, with that release's tag |
| Releases.ScanFromNoneUsable | MainForm.cs:281-303 | with no usable release, the url is "" and the tag is the last `autobuild-` tag visited |
| Releases.FFmpegScanResult | MainForm.cs:279-305 | both outcomes of `GetLatestFFmpegInfo`'s scan: the first usable release, or nothing with the last `autobuild-` tag |
| Releases.ScanFromFound | MainForm.cs:281-303 | a url implies a first usable release, whose tag is returned |
| Releases.SelectFFmpegRelease | MainForm.cs:278-305 | the nested loops with their `break`s compute exactly the scan |
| Releases.FindDenoAssetUrl | MainForm.cs:214-224 | the loop returns the url of the first asset named like the Windows Deno zip, or "" |
| Updates.Decide | MainForm.cs:507-515 | the build is kept exactly when the stored version is non-empty and equals the latest tag |
| Updates.DecisionMessage | MainForm.cs:515-527 | "Wersja aktualna" is shown exactly for a kept build |
| Updates.FailedLookupReinstalls | MainForm.cs:507-515 | when the lookup fails, the check always reinstalls |
| Updates.Refresh | MainForm.cs:507-523 | the build is kept exactly when the decision says so; it is only removed exactly when a reinstall finds no url in the second lookup; otherwise the install uses that url and its tag |
| Updates.LookupUrlHasTag | MainForm.cs:268-311 | a url comes only from a successful request, with the `autobuild-` tag of its release |
| Updates.ScanUrlHasTag | MainForm.cs:285-301 | a found url comes with an `autobuild-` tag |
| Updates.InstallThenUpToDate | MainForm.cs:355-356 | an installed version makes the next check keep the build when the tag is the same |
| Updates.OfflineRefreshRemoves | MainForm.cs:307-321 | with both lookups failing, the refresh deletes the build and installs nothing |
| Updates.MatchingVersionKept | MainForm.cs:281-305 | a stored tag equal to the last `autobuild-` tag keeps the build even when no release has a usable asset |
| YtDlpArgs.AudioIgnoresChoices | MainForm.cs:620-623 | audio only gives exactly ` -f bestaudio --extract-audio --audio-format mp3 --audio-quality 192`, whatever the quality and format |
| YtDlpArgs.AudioHasNoHeightFilter | MainForm.cs:622 | the audio arguments hold no `height<=` |
| YtDlpArgs.AudioHasNoRemux | MainForm.cs:622 | the audio arguments hold no `--remux-video` |
| YtDlpArgs.AudioHasNoMerge | MainForm.cs:622 | the audio arguments hold no `--merge-output-format` |
| YtDlpArgs.BestHasNoHeightFilter | MainForm.cs:626-632 | `Najlepsza`, or no selected quality, puts no height filter in the arguments |
| YtDlpArgs.VideoSelectorHeight | MainForm.cs:629-645 | every other quality filters both the video and the fallback selector on its height |
| YtDlpArgs.QualityItemHeights | MainForm.cs:88 | the heights of the six listed qualities are 2160, 1080, 720, 480, 360 and 240 |
| YtDlpArgs.FourKNeedsItsBranch | MainForm.cs:633-645 | the 4K label needs its own branch, because removing `p` would not give 2160 |
| YtDlpArgs.OneThousandEighty | MainForm.cs:637-645 | the 1080p branch agrees with the general rule |
| YtDlpArgs.VideoArgsShape | MainForm.cs:626-658 | video arguments are the selector followed by the container option |
| YtDlpArgs.ContainerItems | MainForm.cs:647-658 | mp4 and webm remux, mkv merges, and no selection means mp4 |
| YtDlpArgs.DisabledChoicesIgnored | MainForm.cs:620-623 | when the boxes are disabled (audio only, MainForm.cs:138-150) their values do not matter |
| YtDlpArgs.EnabledQualityMatters | MainForm.cs:626-645 | when the boxes are enabled, any quality other than `Najlepsza` changes the arguments |
| YtDlpArgs.RuntimePath | MainForm.cs:535-570 | definition: `GetRuntimePath`; `RuntimePriority` states its order |
| YtDlpArgs.JsRuntimeArg | MainForm.cs:705 | definition: the runtime option; `BundledRuntimeArgs` and `Launch.RuntimeOptionArguments` state it |
| YtDlpArgs.RuntimePriority | MainForm.cs:535-570 | the bundled Deno, then the bundled Node.js, then a non-blank trimmed `where deno` answer after exit code 0, else "" |
| YtDlpArgs.BundledRuntimeArgs | MainForm.cs:705 | the bundled Deno needs no option; the bundled Node.js gets `--js-runtimes node` |
| YtDlpArgs.DenoSuffixIgnoresCase | MainForm.cs:705 | the Deno test ignores case |
| YtDlpCommand.ArgumentBuilder.constructor | MainForm.cs:710 | a new builder is empty |
| YtDlpCommand.ArgumentBuilder.Append | MainForm.cs:713-723 | appending adds the text at the end |
| YtDlpCommand.CommandLine | MainForm.cs:710-723 | definition: the argument string; `UrlComesLast` and `CommandTokens` state what it hands yt-dlp |
| YtDlpCommand.AssembleArguments | MainForm.cs:710-723 | the appends produce exactly `CommandLine` |
| YtDlpCommand.UrlComesLast | MainForm.cs:721-723 | the quoted URL ends the command line |
| YtDlpCommand.TokensJoin | MainForm.cs:711-716 | text joined by a blank outside quotes splits into the arguments of each side |
| YtDlpCommand.QuotedTokens | MainForm.cs:717-723 | a value between quotes is one argument, whatever blanks it holds |
| YtDlpCommand.CommandTokens | MainForm.cs:710-723 | yt-dlp receives the runtime option, the format arguments, `--ffmpeg-location <bin>`, `--progress`, `--newline`, `-o <template>` and the URL last |
| YtDlpCommand.QuoteInUrlSplitsIt | MainForm.cs:721-723 | a URL holding a quote, a blank, a word, a blank and a quote hands yt-dlp that word as an argument of its own |
| YtDlpCommand.TwoWordTokens | MainForm.cs:705 | `--js-runtimes node` is two arguments |
| Launch.ComponentPaths | MainForm.cs:35-38 | every component path lies in the application folder and ends with the component's name |
| Launch.OutputPatternShape | MainForm.cs:707-708 | the output template lies in the downloads folder and ends with `%(title)s.%(ext)s` |
| Launch.PrepareDownload | MainForm.cs:669-728 | the four refusals in order, each as an if-and-only-if; a start runs yt-dlp from the application folder with the normalised link quoted last |
| Launch.RuntimeOptionArguments | MainForm.cs:705-715 | the runtime option is no argument for Deno and the two arguments `--js-runtimes node` otherwise |
| Launch.StartedArguments | MainForm.cs:704-728 | the argument list of a started download, in order |
| Launch.BtnDownloadClick | MainForm.cs:669-723 | the click decides as `PrepareDownload`; a refused link leaves the refusal on the label, the other refusals leave the panel alone, a start shows an empty bar and "Przygotowanie..." |
| Launch.OnlySuccessReportsDone | MainForm.cs:762-780 | completion is reported exactly for exit code 0 |
| Launch.EndDownload | MainForm.cs:762-788 | after the run the label reports the outcome and the `finally` block leaves the bar at 0 |

## Left out

- Window layout, widget wiring, `MessageBox`, `Application.DoEvents` and the
  `Invoke` marshalling (MainForm.cs:44-136): UI and threading. The window's
  label and bar are modelled by `Display.StatusPanel`.
- `CheckAndDownloadComponents`, `DownloadYtDlp`, the yt-dlp update, and the
  body of `DownloadDeno` and `DownloadFFmpeg` after the url is found:
  HTTP, zip extraction and file copying. Only the decisions feeding them
  are modelled. The temporary files are deleted only on the success path;
  no cleanup claim is made.
- Process launching, `WaitForExitAsync`, the stderr text and the
  `where deno` process. Their results are inputs: exit codes, the lookup
  value and the `Outcome`.
- `Uri.TryCreate` and its scheme test are a parameter. `double.TryParse` and
  `ToString("F1")` are floating point; the rendered percent is the
  parameter `formatPercent`.
- ProgressLine.BarValue: the bar takes the integer part of the digits, which
  is what `(int)percent` gives for any percent yt-dlp prints. A numeral
  with more digits than a `double` holds can round up across an integer:
  "5.99999999999999999%", say in a file name on a `[download] Destination:`
  line, parses to 6.0, so the source sets 6 where the model sets 5. A numeral
  beyond the range of `int` converts differently on different
  runtimes. There the assignment can throw, leaving bar and label
  unchanged under the empty `catch`. The model does not cover that range.
- The .NET regular expression engine's `\s` and `[0-9]` are read as
  `char.IsWhiteSpace` and ASCII digits. A bare `$`, culture-sensitive
  comparison and Unicode case folding do not arise on trimmed ASCII; the
  model uses ordinal comparison and ASCII case folding throughout. The
  source's `StartsWith("autobuild-")` and `EndsWith(".zip")` are
  culture-sensitive; the model compares them ordinally.
- `null` strings from the JSON (`?? ""`) and from `SelectedItem` are modelled
  as "" and as `None`. The `txtUrl == null` guard is UI.
- Display.StatusPanel.DownloadFileWithProgress: the exception that ends a
  failed transfer is the flag `fails` and the result `completed`; what the
  caller does with it is part of the download I/O left out above.
- The `long` byte counter cannot overflow for real downloads and is
  unbounded here.
- YtDlpCommand.Tokens: the command-line splitter is the documented Windows
  rule without its backslash cases. The lemmas about it assume values
  without double quotes; `QuoteInUrlSplitsIt` shows what a quote does.
  A value ending in a backslash is not excluded, although the real splitter
  reads a backslash before the closing quote as a literal quote. A link
  such as `https://youtu.be/dQw4w9WgXcQ\` passes `ValidateUrl`, and for it
  the argument lists of `CommandTokens` and `Launch.StartedArguments` are
  not what Windows gives yt-dlp.
- Updates.Refresh: the two requests of `CheckAndUpdateFFmpeg` and
  `DownloadFFmpeg` are independent inputs. That the release list could
  change between them is not modelled. An `Install` stands for a download
  and extraction that succeed; the failures of that I/O (MainForm.cs:342-343,
  363-367) are not modelled.
- YtDlpArgs.BuildYtDlpArguments carries no contract of its own. Its
  properties are the lemmas in the table.
