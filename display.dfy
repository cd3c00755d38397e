/**
 * The two controls the downloader reports through: the progress bar and the
 * status label. `StatusPanel` holds their values and its methods are the
 * handlers that change them: the progress parser, the routing of yt-dlp's
 * output lines, the file copy of the component updater and the end of a
 * download.
 */
module Display {
  import opened Text
  import opened ProgressLine
  import Transfer

  /** The panel's state as a value, for the functional description of a run. */
  datatype Panel = Panel(progress: int, status: string)

  /** What one output line does to the panel (see `StatusPanel.HandleOutputLine`). */
  function AfterLine(panel: Panel, line: string, formatPercent: Numeral -> string): Panel {
    if Contains(line, Marker) then
      var p := ParseLine(line).value;
      Panel(BarValue(p, panel.progress), StatusText(PercentText(p, formatPercent), p))
    else if Contains(line, "[info]") || Contains(line, "Downloading") then
      Panel(panel.progress, line)
    else panel
  }

  /** The panel after the given output lines, in the order yt-dlp printed them. */
  function AfterLines(panel: Panel, lines: seq<string>, formatPercent: Numeral -> string): Panel {
    if lines == [] then panel
    else AfterLine(AfterLines(panel, lines[..|lines| - 1], formatPercent), lines[|lines| - 1], formatPercent)
  }

  /** A line the output handler ignores: it names neither `[download]`, `[info]` nor `Downloading`. */
  predicate Ignored(line: string) {
    !Contains(line, Marker) && !Contains(line, "[info]") && !Contains(line, "Downloading")
  }

  /** A bar inside 0..100 stays inside 0..100 whatever yt-dlp prints. */
  lemma {:induction false} AfterLinesKeepsBarInRange(panel: Panel, lines: seq<string>, formatPercent: Numeral -> string)
    requires 0 <= panel.progress <= 100
    ensures 0 <= AfterLines(panel, lines, formatPercent).progress <= 100
  {
    if lines != [] {
      AfterLinesKeepsBarInRange(panel, lines[..|lines| - 1], formatPercent);
    }
  }

  /** Lines the handler ignores leave both controls as they were. */
  lemma {:induction false} IgnoredLinesChangeNothing(panel: Panel, lines: seq<string>, formatPercent: Numeral -> string)
    requires forall i :: 0 <= i < |lines| ==> Ignored(lines[i])
    ensures AfterLines(panel, lines, formatPercent) == panel
  {
    if lines != [] {
      var init := lines[..|lines| - 1];
      assert forall i :: 0 <= i < |init| ==> Ignored(init[i]) by {
        forall i | 0 <= i < |init| ensures Ignored(init[i]) {
          assert init[i] == lines[i];
        }
      }
      IgnoredLinesChangeNothing(panel, init, formatPercent);
    }
  }

  /**
   * After a progress line the label can be read back into the fields parsed
   * from that line, whatever came before it.
   */
  lemma LastProgressLineShown(panel: Panel, lines: seq<string>, formatPercent: Numeral -> string)
    requires lines != [] && Contains(lines[|lines| - 1], Marker)
    requires forall n :: ' ' !in formatPercent(n)
    ensures var p := ParseLine(lines[|lines| - 1]).value;
      DecodeStatus(AfterLines(panel, lines, formatPercent).status)
        == Some(StatusFields(PercentText(p, formatPercent), p.size, p.speed, p.eta))
  {
    StatusReportsParsedFields(lines[|lines| - 1], formatPercent);
  }

  /** A line naming `[info]` or `Downloading` but not `[download]` is shown verbatim, and the bar keeps its value. */
  lemma InfoLineShownVerbatim(panel: Panel, line: string, formatPercent: Numeral -> string)
    requires !Contains(line, Marker) && (Contains(line, "[info]") || Contains(line, "Downloading"))
    ensures AfterLine(panel, line, formatPercent) == Panel(panel.progress, line)
  {
  }

  /** The label text the end of a download shows for a process exit code. */
  function FinishMessage(exitCode: int): (m: string)
    ensures exitCode == 0 <==> m == "Pobieranie zakonczono!"
  {
    if exitCode == 0 then "Pobieranie zakonczono!" else "Blad pobierania"
  }

  class StatusPanel {
    /** `progressBar.Value`. */
    var progress: int
    /** `lblStatus.Text`. */
    var status: string

    constructor (progress: int, status: string)
      ensures this.progress == progress && this.status == status
    {
      this.progress := progress;
      this.status := status;
    }

    /** The panel's state as a value. */
    function State(): Panel
      reads this
    {
      Panel(progress, status)
    }

    /** `UpdateStatus`: the label shows the message; the bar is untouched. */
    method UpdateStatus(message: string)
      modifies this
      ensures status == message && progress == old(progress)
    {
      status := message;
    }

    /** The `finally` block of the download: the bar goes back to 0; the label keeps its text. */
    method ResetBar()
      modifies this
      ensures progress == 0 && status == old(status)
    {
      progress := 0;
    }

    /**
     * `ParseDownloadProgress`: a line without `[download]` changes nothing;
     * otherwise the bar takes the integer part of the first percent (at most
     * 100, unchanged when there is none) and the label shows the percent,
     * then the size, speed and ETA that were found.
     */
    method ParseDownloadProgress(line: string, formatPercent: Numeral -> string)
      modifies this
      ensures !Contains(line, Marker) ==> progress == old(progress) && status == old(status)
      ensures Contains(line, Marker) ==>
        var p := ParseLine(line).value;
        progress == BarValue(p, old(progress)) && status == StatusText(PercentText(p, formatPercent), p)
      ensures Contains(line, Marker) && (forall n :: ' ' !in formatPercent(n)) ==>
        var p := ParseLine(line).value;
        DecodeStatus(status) == Some(StatusFields(PercentText(p, formatPercent), p.size, p.speed, p.eta))
    {
      if !Contains(line, Marker) {
        return;
      }
      ghost var p := ParseLine(line).value;
      var percentMatch, downloadedSize, speed, eta := MatchFields(line);
      var shownPercent := formatPercent(ZeroPercent);
      if percentMatch.Some? {
        var whole := DigitsValue(percentMatch.value.whole);
        progress := if whole < 100 then whole else 100;
        shownPercent := formatPercent(percentMatch.value);
      }
      assert progress == BarValue(p, old(progress)) && shownPercent == PercentText(p, formatPercent);
      status := ComposeStatus(shownPercent, downloadedSize, speed, eta);
      SameFieldsSameStatus(shownPercent, ProgressSample(None, Field(downloadedSize), Field(speed), Field(eta)), p);
      if forall n :: ' ' !in formatPercent(n) {
        StatusReportsParsedFields(line, formatPercent);
      }
    }

    /**
     * The four regular expressions of `ParseDownloadProgress`, each giving its
     * match or, for size, speed and ETA, "" when it found nothing.
     */
    static method MatchFields(line: string)
      returns (percentMatch: Option<Numeral>, downloadedSize: string, speed: string, eta: string)
      requires Contains(line, Marker)
      ensures ParseLine(line) == Some(ProgressSample(percentMatch, Field(downloadedSize), Field(speed), Field(eta)))
    {
      percentMatch := Found(FirstPercent(line));

      var sizeMatch := Found(FirstQuantity(line, "of", ""));
      downloadedSize := "";
      if sizeMatch.Some? {
        QuantityToken(line, "of", "");
        downloadedSize := sizeMatch.value.number + sizeMatch.value.unit;
      }
      assert SizeText(sizeMatch) == Field(downloadedSize);

      var speedMatch := Found(FirstQuantity(line, "at", "/s"));
      speed := "";
      if speedMatch.Some? {
        QuantityToken(line, "at", "/s");
        speed := speedMatch.value.number + speedMatch.value.unit + "/s";
      }
      assert SpeedText(speedMatch) == Field(speed);

      var etaMatch := Found(FirstEta(line));
      eta := "";
      if etaMatch.Some? {
        EtaFieldClock(line);
        eta := etaMatch.value;
      }
      assert etaMatch == Field(eta);
    }

    /**
     * The label text of `ParseDownloadProgress`, built as the source builds
     * it: the percent first, then a segment for each field that is not "".
     */
    static method ComposeStatus(shownPercent: string, downloadedSize: string, speed: string, eta: string)
      returns (text: string)
      ensures text == StatusText(shownPercent, ProgressSample(None, Field(downloadedSize), Field(speed), Field(eta)))
    {
      text := "Pobieranie: " + shownPercent + "%";
      HeadText(shownPercent);
      ghost var head := text;
      if downloadedSize != "" {
        text := text + " Rozmiar: " + downloadedSize;
        AppendSegment(head, " Rozmiar: ", "Rozmiar:", downloadedSize);
      }
      ghost var withSize := text;
      assert withSize == head + Segment("Rozmiar:", Field(downloadedSize));
      if speed != "" {
        text := text + " Predkosc: " + speed;
        AppendSegment(withSize, " Predkosc: ", "Predkosc:", speed);
      }
      ghost var withSpeed := text;
      assert withSpeed == withSize + Segment("Predkosc:", Field(speed));
      if eta != "" {
        text := text + " ETA: " + eta;
        AppendSegment(withSpeed, " ETA: ", "ETA:", eta);
      }
      assert text == withSpeed + Segment("ETA:", Field(eta));
      ghost var sample := ProgressSample(None, Field(downloadedSize), Field(speed), Field(eta));
      SegmentsInOrder(head, sample);
      assert text == head + Segments(sample);
    }

    /**
     * The handler of yt-dlp's output lines: an empty line is dropped, a line
     * with `[download]` goes to the progress parser, and one naming `[info]`
     * or `Downloading` is shown on the label as it is.
     */
    method HandleOutputLine(line: string, formatPercent: Numeral -> string)
      modifies this
      ensures State() == AfterLine(old(State()), line, formatPercent)
    {
      if line != "" {
        if Contains(line, Marker) {
          ParseDownloadProgress(line, formatPercent);
        } else if Contains(line, "[info]") || Contains(line, "Downloading") {
          status := line;
        }
      } else {
        EmptyIgnored();
      }
    }

    /** The output of one download, handled line by line. */
    method HandleOutput(lines: seq<string>, formatPercent: Numeral -> string)
      modifies this
      ensures State() == AfterLines(old(State()), lines, formatPercent)
    {
      var i := 0;
      while i < |lines|
        invariant 0 <= i <= |lines|
        invariant State() == AfterLines(old(State()), lines[..i], formatPercent)
      {
        assert lines[..i + 1][..i] == lines[..i];
        HandleOutputLine(lines[i], formatPercent);
        i := i + 1;
      }
      assert lines[..|lines|] == lines;
    }

    /**
     * The end of a download: exit code 0 fills the bar and reports success;
     * any other code reports the failure and leaves the bar as it was.
     */
    method FinishDownload(exitCode: int)
      modifies this
      ensures status == FinishMessage(exitCode)
      ensures exitCode == 0 ==> progress == 100
      ensures exitCode != 0 ==> progress == old(progress)
    {
      if exitCode == 0 {
        progress := 100;
        UpdateStatus("Pobieranie zakonczono!");
      } else {
        UpdateStatus("Blad pobierania");
      }
    }

    /**
     * `DownloadFileWithProgress` over the sizes its reads return: the running
     * total of bytes read and, when the response announced its length, the
     * bar set to the truncated percentage after every read; the bar is reset
     * to 0 at the end. `shown` lists the values the bar took during the loop.
     * `fails` says that an exception ends the transfer after those reads (a
     * failed status check when there are none, else a read that throws): the
     * method then stops without the reset, leaving the last value shown, and
     * `completed` is false.
     */
    method DownloadFileWithProgress(chunks: seq<int>, totalBytes: int, fails: bool) returns (shown: seq<int>, completed: bool)
      requires Transfer.ValidTransfer(chunks, totalBytes)
      modifies this
      ensures shown == Transfer.Reports(chunks, totalBytes)
      ensures completed == !fails
      ensures completed ==> progress == 0
      ensures !completed ==> progress == (if shown == [] then old(progress) else shown[|shown| - 1])
      ensures status == old(status)
    {
      var canReportProgress := totalBytes != -1;
      var totalBytesRead := 0;
      shown := [];
      var i := 0;
      while i < |chunks|
        invariant 0 <= i <= |chunks|
        invariant Transfer.ValidTransfer(chunks[..i], totalBytes)
        invariant totalBytesRead == Transfer.Sum(chunks[..i])
        invariant shown == Transfer.Reports(chunks[..i], totalBytes)
        invariant progress == (if shown == [] then old(progress) else shown[|shown| - 1])
        invariant status == old(status)
      {
        var bytesRead := chunks[i];
        assert chunks[..i + 1][..i] == chunks[..i];
        Transfer.PrefixValid(chunks, i + 1, totalBytes);
        Transfer.SumBounds(chunks[..i + 1]);
        totalBytesRead := totalBytesRead + bytesRead;
        if canReportProgress {
          var percent := (totalBytesRead * 100) / totalBytes;
          progress := if percent < 100 then percent else 100;
          shown := shown + [progress];
        }
        i := i + 1;
      }
      assert chunks[..|chunks|] == chunks;
      if fails {
        return shown, false;
      }
      progress := 0;
      completed := true;
    }
  }

  /** A field as the source keeps it, "" standing for a field that was not found. */
  function Field(s: string): Option<string> {
    if s == "" then None else Some(s)
  }

  /** The status text does not depend on the percent field, only on its rendering. */
  lemma SameFieldsSameStatus(percentText: string, a: ProgressSample, b: ProgressSample)
    requires a.size == b.size && a.speed == b.speed && a.eta == b.eta
    ensures StatusText(percentText, a) == StatusText(percentText, b)
  {
  }

  /** The head of the label as the source writes it. */
  lemma HeadText(percentText: string)
    ensures "Pobieranie: " + percentText + "%" == StatusHead(percentText)
  {
  }

  /** Appending a ` <title> <value>` label piece is appending the present segment. */
  lemma AppendSegment(text: string, piece: string, title: string, v: string)
    requires piece == " " + title + " "
    ensures text + piece + v == text + Segment(title, Some(v))
  {
  }

  /** The segments appended one after another form the status text. */
  lemma SegmentsInOrder(head: string, p: ProgressSample)
    ensures head + Segment("Rozmiar:", p.size) + Segment("Predkosc:", p.speed) + Segment("ETA:", p.eta)
      == head + Segments(p)
  {
  }

  /** An empty line names none of the three markers. */
  lemma EmptyIgnored()
    ensures Ignored("")
  {
  }
}
