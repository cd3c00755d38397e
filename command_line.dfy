/**
 * The argument string `BtnDownload_Click` hands to yt-dlp, built with a
 * `StringBuilder`, and how a Windows program splits such a string into its
 * arguments: blanks separate arguments outside double quotes, and a double
 * quote opens or closes a quoted stretch and is dropped. The backslash rules
 * of that splitting are not modelled, so what is proved here about the split
 * carries over to the real splitter only for values that do not end in a
 * backslash; after one that does, the real splitter reads the closing quote
 * as a literal one.
 */
module YtDlpCommand {
  import opened Text

  // ---------------------------------------------------------------------------
  // Building the string

  /** A `StringBuilder`: text that grows by appending. */
  class ArgumentBuilder {
    var content: string

    constructor ()
      ensures content == ""
    {
      content := "";
    }

    method Append(s: string)
      modifies this
      ensures content == old(content) + s
    {
      content := content + s;
    }
  }

  const LocationOption := " --ffmpeg-location \""
  const OutputOptions := "\" --progress --newline -o \""
  const QuoteSpaceQuote := "\" \""

  /** The argument string, piece by piece in the order the builder receives them. */
  function CommandLine(jsRuntimeArg: string, ytDlpArgs: string, ffmpegBinPath: string, outputPattern: string, url: string): string {
    (if jsRuntimeArg != "" then jsRuntimeArg + " " else "")
      + ytDlpArgs + LocationOption + ffmpegBinPath + OutputOptions + outputPattern + QuoteSpaceQuote + url + "\""
  }

  /**
   * The appends of `BtnDownload_Click`: the runtime option and a blank only
   * when there is one, then the format arguments, the quoted FFmpeg folder,
   * the progress options, the quoted output template and the quoted URL.
   */
  method AssembleArguments(jsRuntimeArg: string, ytDlpArgs: string, ffmpegBinPath: string, outputPattern: string, url: string)
    returns (arguments: string)
    ensures arguments == CommandLine(jsRuntimeArg, ytDlpArgs, ffmpegBinPath, outputPattern, url)
  {
    var argBuilder := new ArgumentBuilder();
    if jsRuntimeArg != "" {
      argBuilder.Append(jsRuntimeArg);
      argBuilder.Append(" ");
    }
    argBuilder.Append(ytDlpArgs);
    argBuilder.Append(LocationOption);
    argBuilder.Append(ffmpegBinPath);
    argBuilder.Append(OutputOptions);
    argBuilder.Append(outputPattern);
    argBuilder.Append(QuoteSpaceQuote);
    argBuilder.Append(url);
    argBuilder.Append("\"");
    arguments := argBuilder.content;
  }

  /** The URL is the last argument, in quotes. */
  lemma UrlComesLast(jsRuntimeArg: string, ytDlpArgs: string, ffmpegBinPath: string, outputPattern: string, url: string)
    ensures EndsWith(CommandLine(jsRuntimeArg, ytDlpArgs, ffmpegBinPath, outputPattern, url), "\"" + url + "\"")
  {
    var p := (if jsRuntimeArg != "" then jsRuntimeArg + " " else "")
      + ytDlpArgs + LocationOption + ffmpegBinPath + OutputOptions + outputPattern;
    var c := CommandLine(jsRuntimeArg, ytDlpArgs, ffmpegBinPath, outputPattern, url);
    assert c == p + "\" \"" + url + "\"";
    assert "\" \"" == "\" " + "\"";
    assert c == (p + "\" ") + ("\"" + url + "\"");
    assert c[|c| - |"\"" + url + "\""|..] == "\"" + url + "\"";
  }

  // ---------------------------------------------------------------------------
  // Splitting a string into arguments

  predicate IsBlankChar(c: char) { c == ' ' || c == '\t' }

  /** The splitter's state: the finished arguments, the one being read (if any) and whether a quote is open. */
  datatype Lexer = Lexer(done: seq<string>, cur: Option<string>, quoted: bool)

  const Start := Lexer([], None, false)

  function Current(l: Lexer): string {
    if l.cur.Some? then l.cur.value else ""
  }

  function Step(l: Lexer, c: char): Lexer {
    if c == '"' then Lexer(l.done, Some(Current(l)), !l.quoted)
    else if IsBlankChar(c) && !l.quoted then
      (if l.cur.Some? then Lexer(l.done + [l.cur.value], None, false) else l)
    else Lexer(l.done, Some(Current(l) + [c]), l.quoted)
  }

  function Run(l: Lexer, s: string): Lexer
    decreases |s|
  {
    if s == [] then l else Run(Step(l, s[0]), s[1..])
  }

  function Finish(l: Lexer): seq<string> {
    if l.cur.Some? then l.done + [l.cur.value] else l.done
  }

  /** The arguments a program receives for the command-line string `s`. */
  function Tokens(s: string): seq<string> {
    Finish(Run(Start, s))
  }

  /** A non-empty argument with no blank and no quote, which stands for itself. */
  predicate IsWord(w: string) {
    w != [] && forall k :: 0 <= k < |w| ==> !IsBlankChar(w[k]) && w[k] != '"'
  }

  lemma {:induction false} RunConcat(l: Lexer, a: string, b: string)
    ensures Run(l, a + b) == Run(Run(l, a), b)
    decreases |a|
  {
    if a == [] {
      assert a + b == b;
    } else {
      assert (a + b)[0] == a[0];
      assert (a + b)[1..] == a[1..] + b;
      RunConcat(Step(l, a[0]), a[1..], b);
    }
  }

  /** The finished arguments already read do not influence how the rest is split. */
  lemma {:induction false} RunShift(d: seq<string>, cur: Option<string>, quoted: bool, s: string)
    ensures Run(Lexer(d, cur, quoted), s)
      == Lexer(d + Run(Lexer([], cur, quoted), s).done, Run(Lexer([], cur, quoted), s).cur, Run(Lexer([], cur, quoted), s).quoted)
    decreases |s|
  {
    if s == [] {
      assert d + [] == d;
    } else {
      var l0 := Step(Lexer([], cur, quoted), s[0]);
      var l1 := Step(Lexer(d, cur, quoted), s[0]);
      assert l1 == Lexer(d + l0.done, l0.cur, l0.quoted);
      RunShift(d + l0.done, l0.cur, l0.quoted, s[1..]);
      RunShift(l0.done, l0.cur, l0.quoted, s[1..]);
      assert d + l0.done + Run(Lexer([], l0.cur, l0.quoted), s[1..]).done
        == d + (l0.done + Run(Lexer([], l0.cur, l0.quoted), s[1..]).done);
    }
  }

  /** A string without quotes neither opens nor closes a quoted stretch. */
  lemma {:induction false} QuoteFreeKeepsQuoting(l: Lexer, s: string)
    requires '"' !in s
    ensures Run(l, s).quoted == l.quoted
    decreases |s|
  {
    if s != [] {
      assert '"' !in s[1..];
      QuoteFreeKeepsQuoting(Step(l, s[0]), s[1..]);
    }
  }

  /** A blank outside quotes ends the argument being read. */
  lemma BlankFlushes(l: Lexer)
    requires !l.quoted
    ensures Run(l, " ") == Lexer(Finish(l), None, false)
  {
    assert " "[1..] == "";
  }

  /** A split string followed by a blank: its arguments are finished and nothing is open. */
  lemma SplitThenBlank(d: seq<string>, a: string)
    requires Run(Start, a).quoted == false
    ensures Run(Lexer(d, None, false), a + " ") == Lexer(d + Tokens(a), None, false)
  {
    RunConcat(Lexer(d, None, false), a, " ");
    RunShift(d, None, false, a);
    var r := Run(Start, a);
    BlankFlushes(Run(Lexer(d, None, false), a));
    if r.cur.Some? {
      assert d + r.done + [r.cur.value] == d + (r.done + [r.cur.value]);
    }
  }

  /** Arguments separated by a blank outside quotes are the arguments of each side. */
  lemma TokensJoin(a: string, b: string)
    requires Run(Start, a).quoted == false
    ensures Tokens(a + " " + b) == Tokens(a) + Tokens(b)
  {
    RunConcat(Start, a + " ", b);
    SplitThenBlank([], a);
    assert [] + Tokens(a) == Tokens(a);
    RunShift(Tokens(a), None, false, b);
    var r := Run(Start, b);
    if r.cur.Some? {
      assert Tokens(a) + r.done + [r.cur.value] == Tokens(a) + (r.done + [r.cur.value]);
    }
  }

  /** Non-quote, non-blank characters read outside quotes extend the open argument. */
  lemma {:induction false} ExtendWord(d: seq<string>, p: string, w: string)
    requires forall k :: 0 <= k < |w| ==> !IsBlankChar(w[k]) && w[k] != '"'
    ensures Run(Lexer(d, Some(p), false), w) == Lexer(d, Some(p + w), false)
    decreases |w|
  {
    if w == [] {
      assert p + w == p;
    } else {
      assert Step(Lexer(d, Some(p), false), w[0]) == Lexer(d, Some(p + [w[0]]), false);
      ExtendWord(d, p + [w[0]], w[1..]);
      assert p + [w[0]] + w[1..] == p + w;
    }
  }

  /** A word read where no argument is open becomes the open argument. */
  lemma StartWord(d: seq<string>, w: string)
    requires IsWord(w)
    ensures Run(Lexer(d, None, false), w) == Lexer(d, Some(w), false)
  {
    assert "" + [w[0]] == [w[0]];
    assert Step(Lexer(d, None, false), w[0]) == Lexer(d, Some([w[0]]), false);
    ExtendWord(d, [w[0]], w[1..]);
    assert [w[0]] + w[1..] == w;
  }

  /** A word on its own is one argument. */
  lemma WordTokens(w: string)
    requires IsWord(w)
    ensures Tokens(w) == [w] && Run(Start, w).quoted == false
  {
    StartWord([], w);
  }

  lemma {:induction false} RunInQuotes(d: seq<string>, p: string, v: string)
    requires '"' !in v
    ensures Run(Lexer(d, Some(p), true), v) == Lexer(d, Some(p + v), true)
    decreases |v|
  {
    if v == [] {
      assert p + v == p;
    } else {
      assert '"' !in v[1..];
      RunInQuotes(d, p + [v[0]], v[1..]);
      assert p + [v[0]] + v[1..] == p + v;
    }
  }

  lemma QuoteStep(l: Lexer)
    ensures Run(l, "\"") == Lexer(l.done, Some(Current(l)), !l.quoted)
  {
    assert "\""[1..] == "";
  }

  /** A value between quotes is one argument, whatever blanks it holds. */
  lemma QuotedTokens(v: string)
    requires '"' !in v
    ensures Tokens("\"" + v + "\"") == [v] && Run(Start, "\"" + v + "\"").quoted == false
  {
    RunConcat(Start, "\"" + v, "\"");
    RunConcat(Start, "\"", v);
    QuoteStep(Start);
    RunInQuotes([], "", v);
    assert "" + v == v;
    QuoteStep(Lexer([], Some(v), true));
  }

  // ---------------------------------------------------------------------------
  // The arguments yt-dlp receives

  /** A word followed by a blank, from a state where nothing is open. */
  lemma WordThenBlank(d: seq<string>, w: string)
    requires IsWord(w)
    ensures Run(Lexer(d, None, false), w + " ") == Lexer(d + [w], None, false)
  {
    RunConcat(Lexer(d, None, false), w, " ");
    StartWord(d, w);
    BlankFlushes(Lexer(d, Some(w), false));
  }

  /** Outside quotes, a blank, an option word, a blank and a quote: the option is an argument of its own and a quote opens. */
  lemma OptionThenQuote(l: Lexer, w: string)
    requires !l.quoted && IsWord(w)
    ensures Run(l, " " + w + " " + "\"") == Lexer(Finish(l) + [w], Some(""), true)
  {
    RunConcat(l, " " + w + " ", "\"");
    assert " " + w + " " == " " + (w + " ");
    RunConcat(l, " ", w + " ");
    BlankFlushes(l);
    WordThenBlank(Finish(l), w);
    QuoteStep(Lexer(Finish(l) + [w], None, false));
  }

  /** Inside quotes, a closing quote and three blank-separated option words, then a new quote. */
  lemma CloseThenWords(d: seq<string>, v: string, w1: string, w2: string, w3: string)
    requires IsWord(w1) && IsWord(w2) && IsWord(w3)
    ensures Run(Lexer(d, Some(v), true), "\"" + " " + w1 + " " + w2 + " " + w3 + " " + "\"")
      == Lexer(d + [v, w1, w2, w3], Some(""), true)
  {
    var l := Lexer(d, Some(v), true);
    var a0 := "\"" + " ";
    var a1 := a0 + (w1 + " ");
    var a2 := a1 + (w2 + " ");
    var a3 := a2 + (w3 + " ");
    assert "\"" + " " + w1 + " " + w2 + " " + w3 + " " + "\"" == a3 + "\"";
    RunConcat(l, a3, "\"");
    RunConcat(l, a2, w3 + " ");
    RunConcat(l, a1, w2 + " ");
    RunConcat(l, a0, w1 + " ");
    RunConcat(l, "\"", " ");
    QuoteStep(l);
    BlankFlushes(Lexer(d, Some(v), false));
    WordThenBlank(d + [v], w1);
    WordThenBlank(d + [v] + [w1], w2);
    WordThenBlank(d + [v] + [w1] + [w2], w3);
    QuoteStep(Lexer(d + [v] + [w1] + [w2] + [w3], None, false));
    assert d + [v] + [w1] + [w2] + [w3] == d + [v, w1, w2, w3];
  }

  /** Inside quotes, `" "` closes the quote, finishes the argument and opens a new quote. */
  lemma CloseThenOpen(d: seq<string>, v: string)
    ensures Run(Lexer(d, Some(v), true), "\"" + " " + "\"") == Lexer(d + [v], Some(""), true)
  {
    RunConcat(Lexer(d, Some(v), true), "\"" + " ", "\"");
    RunConcat(Lexer(d, Some(v), true), "\"", " ");
    QuoteStep(Lexer(d, Some(v), true));
    BlankFlushes(Lexer(d, Some(v), false));
    QuoteStep(Lexer(d + [v], None, false));
  }

  lemma LocationOptionPieces()
    ensures LocationOption == " " + "--ffmpeg-location" + " " + "\""
  {
  }

  lemma OutputOptionsPieces()
    ensures OutputOptions == "\"" + " " + "--progress" + " " + "--newline" + " " + "-o" + " " + "\""
  {
  }

  lemma QuoteSpaceQuotePieces()
    ensures QuoteSpaceQuote == "\"" + " " + "\""
  {
  }

  lemma LocationWord()
    ensures IsWord("--ffmpeg-location")
  {
  }

  lemma ProgressWords()
    ensures IsWord("--progress") && IsWord("--newline") && IsWord("-o")
  {
  }

  /** From a state with no open quote, ` --ffmpeg-location "` finishes the pending argument, adds the option and opens a quote. */
  lemma AfterLocationOption(l: Lexer)
    requires !l.quoted
    ensures Run(l, LocationOption) == Lexer(Finish(l) + ["--ffmpeg-location"], Some(""), true)
  {
    LocationOptionPieces();
    LocationWord();
    OptionThenQuote(l, "--ffmpeg-location");
  }

  /** `" --progress --newline -o "` inside an open quote closes it and adds the three options. */
  lemma AfterOutputOptions(d: seq<string>, v: string)
    ensures Run(Lexer(d, Some(v), true), OutputOptions)
      == Lexer(d + [v, "--progress", "--newline", "-o"], Some(""), true)
  {
    OutputOptionsPieces();
    ProgressWords();
    CloseThenWords(d, v, "--progress", "--newline", "-o");
  }

  /** `" "` inside an open quote closes it, finishes the argument and opens a new quote. */
  lemma AfterQuoteSpaceQuote(d: seq<string>, v: string)
    ensures Run(Lexer(d, Some(v), true), QuoteSpaceQuote) == Lexer(d + [v], Some(""), true)
  {
    QuoteSpaceQuotePieces();
    CloseThenOpen(d, v);
  }

  lemma AfterPrefix(jsRuntimeArg: string, ytDlpArgs: string)
    requires '"' !in jsRuntimeArg && '"' !in ytDlpArgs
    ensures Run(Start, (if jsRuntimeArg != "" then jsRuntimeArg + " " else "") + ytDlpArgs).quoted == false
    ensures Finish(Run(Start, (if jsRuntimeArg != "" then jsRuntimeArg + " " else "") + ytDlpArgs))
      == Tokens(jsRuntimeArg) + Tokens(ytDlpArgs)
  {
    QuoteFreeKeepsQuoting(Start, jsRuntimeArg);
    if jsRuntimeArg != "" {
      TokensJoin(jsRuntimeArg, ytDlpArgs);
      RunConcat(Start, jsRuntimeArg + " ", ytDlpArgs);
      SplitThenBlank([], jsRuntimeArg);
      assert [] + Tokens(jsRuntimeArg) == Tokens(jsRuntimeArg);
      RunShift(Tokens(jsRuntimeArg), None, false, ytDlpArgs);
      QuoteFreeKeepsQuoting(Start, ytDlpArgs);
    } else {
      assert "" + ytDlpArgs == ytDlpArgs;
      assert Tokens(jsRuntimeArg) == [];
      QuoteFreeKeepsQuoting(Start, ytDlpArgs);
    }
  }

  /** Through the quoted FFmpeg folder: its quote is still open. */
  lemma ThroughLocation(jsRuntimeArg: string, ytDlpArgs: string, ffmpegBinPath: string)
    requires '"' !in jsRuntimeArg && '"' !in ytDlpArgs && '"' !in ffmpegBinPath
    ensures Run(Start, (if jsRuntimeArg != "" then jsRuntimeArg + " " else "") + ytDlpArgs + LocationOption + ffmpegBinPath)
      == Lexer(Tokens(jsRuntimeArg) + Tokens(ytDlpArgs) + ["--ffmpeg-location"], Some(ffmpegBinPath), true)
  {
    var p0 := (if jsRuntimeArg != "" then jsRuntimeArg + " " else "") + ytDlpArgs;
    AfterPrefix(jsRuntimeArg, ytDlpArgs);
    var l0 := Run(Start, p0);
    RunConcat(Start, p0, LocationOption);
    AfterLocationOption(l0);
    RunConcat(Start, p0 + LocationOption, ffmpegBinPath);
    RunInQuotes(Finish(l0) + ["--ffmpeg-location"], "", ffmpegBinPath);
    assert "" + ffmpegBinPath == ffmpegBinPath;
  }

  /** From inside the quoted FFmpeg folder through the opening quote of the URL. */
  lemma ThroughPattern(before: string, d: seq<string>, ffmpegBinPath: string, outputPattern: string)
    requires Run(Start, before) == Lexer(d, Some(ffmpegBinPath), true)
    requires '"' !in outputPattern
    ensures Run(Start, before + OutputOptions + outputPattern + QuoteSpaceQuote)
      == Lexer(d + [ffmpegBinPath, "--progress", "--newline", "-o", outputPattern], Some(""), true)
  {
    RunConcat(Start, before, OutputOptions);
    AfterOutputOptions(d, ffmpegBinPath);
    var d3 := d + [ffmpegBinPath, "--progress", "--newline", "-o"];
    RunConcat(Start, before + OutputOptions, outputPattern);
    RunInQuotes(d3, "", outputPattern);
    assert "" + outputPattern == outputPattern;
    RunConcat(Start, before + OutputOptions + outputPattern, QuoteSpaceQuote);
    AfterQuoteSpaceQuote(d3, outputPattern);
    SnocFour(d, ffmpegBinPath, "--progress", "--newline", "-o", outputPattern);
  }

  lemma SnocFour<T>(d: seq<T>, a: T, b: T, c: T, e: T, f: T)
    ensures d + [a, b, c, e] + [f] == d + [a, b, c, e, f]
  {
  }

  /** The state after everything before the URL: a quote is open and the finished arguments are those up to the template. */
  lemma PrefixThroughPattern(jsRuntimeArg: string, ytDlpArgs: string, ffmpegBinPath: string, outputPattern: string)
    requires '"' !in jsRuntimeArg && '"' !in ytDlpArgs
    requires '"' !in ffmpegBinPath && '"' !in outputPattern
    ensures Run(Start, (if jsRuntimeArg != "" then jsRuntimeArg + " " else "") + ytDlpArgs + LocationOption
        + ffmpegBinPath + OutputOptions + outputPattern + QuoteSpaceQuote)
      == Lexer(Tokens(jsRuntimeArg) + Tokens(ytDlpArgs)
        + ["--ffmpeg-location", ffmpegBinPath, "--progress", "--newline", "-o", outputPattern], Some(""), true)
  {
    var d := Tokens(jsRuntimeArg) + Tokens(ytDlpArgs) + ["--ffmpeg-location"];
    ThroughLocation(jsRuntimeArg, ytDlpArgs, ffmpegBinPath);
    ThroughPattern((if jsRuntimeArg != "" then jsRuntimeArg + " " else "") + ytDlpArgs + LocationOption + ffmpegBinPath,
      d, ffmpegBinPath, outputPattern);
    assert d + [ffmpegBinPath, "--progress", "--newline", "-o", outputPattern]
      == Tokens(jsRuntimeArg) + Tokens(ytDlpArgs) + ["--ffmpeg-location", ffmpegBinPath, "--progress", "--newline", "-o", outputPattern];
  }

  /**
   * What yt-dlp receives: the runtime option's and the format arguments'
   * own arguments, then `--ffmpeg-location` with the FFmpeg folder, the
   * progress options, `-o` with the output template, and the URL last, each
   * quoted value one argument whatever blanks it holds (for values without
   * double quotes).
   */
  lemma CommandTokens(jsRuntimeArg: string, ytDlpArgs: string, ffmpegBinPath: string, outputPattern: string, url: string)
    requires '"' !in jsRuntimeArg && '"' !in ytDlpArgs
    requires '"' !in ffmpegBinPath && '"' !in outputPattern && '"' !in url
    ensures Tokens(CommandLine(jsRuntimeArg, ytDlpArgs, ffmpegBinPath, outputPattern, url))
      == Tokens(jsRuntimeArg) + Tokens(ytDlpArgs)
        + ["--ffmpeg-location", ffmpegBinPath, "--progress", "--newline", "-o", outputPattern, url]
  {
    var p5 := (if jsRuntimeArg != "" then jsRuntimeArg + " " else "") + ytDlpArgs + LocationOption
      + ffmpegBinPath + OutputOptions + outputPattern + QuoteSpaceQuote;
    var d5 := Tokens(jsRuntimeArg) + Tokens(ytDlpArgs)
      + ["--ffmpeg-location", ffmpegBinPath, "--progress", "--newline", "-o", outputPattern];
    assert CommandLine(jsRuntimeArg, ytDlpArgs, ffmpegBinPath, outputPattern, url) == p5 + url + "\"";
    PrefixThroughPattern(jsRuntimeArg, ytDlpArgs, ffmpegBinPath, outputPattern);
    RunConcat(Start, p5, url);
    RunInQuotes(d5, "", url);
    assert "" + url == url;
    RunConcat(Start, p5 + url, "\"");
    QuoteStep(Lexer(d5, Some(url), true));
    assert d5 + [url] == Tokens(jsRuntimeArg) + Tokens(ytDlpArgs)
      + ["--ffmpeg-location", ffmpegBinPath, "--progress", "--newline", "-o", outputPattern, url];
  }

  /** Inside quotes: text, a quote, a blank, a word, a blank, a quote and text, then the closing quote. */
  lemma BreakOut(d: seq<string>, v1: string, w: string, v2: string)
    requires '"' !in v1 && '"' !in v2 && IsWord(w)
    ensures Finish(Run(Lexer(d, Some(""), true), v1 + "\"" + " " + w + " " + "\"" + v2 + "\"")) == d + [v1, w, v2]
  {
    var l := Lexer(d, Some(""), true);
    var a0 := v1 + "\"" + " ";
    var a1 := a0 + (w + " ");
    var a2 := a1 + "\"";
    assert v1 + "\"" + " " + w + " " + "\"" + v2 + "\"" == a2 + v2 + "\"";
    RunConcat(l, a2 + v2, "\"");
    RunConcat(l, a2, v2);
    RunConcat(l, a1, "\"");
    RunConcat(l, a0, w + " ");
    RunConcat(l, v1 + "\"", " ");
    RunConcat(l, v1, "\"");
    RunInQuotes(d, "", v1);
    assert "" + v1 == v1;
    QuoteStep(Lexer(d, Some(v1), true));
    BlankFlushes(Lexer(d, Some(v1), false));
    WordThenBlank(d + [v1], w);
    QuoteStep(Lexer(d + [v1] + [w], None, false));
    RunInQuotes(d + [v1] + [w], "", v2);
    assert "" + v2 == v2;
    QuoteStep(Lexer(d + [v1] + [w], Some(v2), true));
    assert d + [v1] + [w] + [v2] == d + [v1, w, v2];
  }

  /**
   * The URL is quoted but not escaped: a link holding `" <word> "` ends its
   * quoted argument early, and yt-dlp receives the word between as an option
   * of its own (`--exec`, say) and the link split in two.
   */
  lemma QuoteInUrlSplitsIt(jsRuntimeArg: string, ytDlpArgs: string, ffmpegBinPath: string, outputPattern: string,
                           head: string, option: string, rest: string)
    requires '"' !in jsRuntimeArg && '"' !in ytDlpArgs
    requires '"' !in ffmpegBinPath && '"' !in outputPattern
    requires '"' !in head && '"' !in rest && IsWord(option)
    ensures Tokens(CommandLine(jsRuntimeArg, ytDlpArgs, ffmpegBinPath, outputPattern, head + "\"" + " " + option + " " + "\"" + rest))
      == Tokens(jsRuntimeArg) + Tokens(ytDlpArgs)
        + ["--ffmpeg-location", ffmpegBinPath, "--progress", "--newline", "-o", outputPattern, head, option, rest]
  {
    var url := head + "\"" + " " + option + " " + "\"" + rest;
    var p5 := (if jsRuntimeArg != "" then jsRuntimeArg + " " else "") + ytDlpArgs + LocationOption
      + ffmpegBinPath + OutputOptions + outputPattern + QuoteSpaceQuote;
    var d5 := Tokens(jsRuntimeArg) + Tokens(ytDlpArgs)
      + ["--ffmpeg-location", ffmpegBinPath, "--progress", "--newline", "-o", outputPattern];
    assert CommandLine(jsRuntimeArg, ytDlpArgs, ffmpegBinPath, outputPattern, url) == p5 + (url + "\"");
    PrefixThroughPattern(jsRuntimeArg, ytDlpArgs, ffmpegBinPath, outputPattern);
    RunConcat(Start, p5, url + "\"");
    BreakOut(d5, head, option, rest);
    assert d5 + [head, option, rest] == Tokens(jsRuntimeArg) + Tokens(ytDlpArgs)
      + ["--ffmpeg-location", ffmpegBinPath, "--progress", "--newline", "-o", outputPattern, head, option, rest];
  }

  /** Two words separated by a blank are two arguments. */
  lemma TwoWordTokens(a: string, b: string)
    requires IsWord(a) && IsWord(b)
    ensures Tokens(a + " " + b) == [a, b]
  {
    WordTokens(a);
    WordTokens(b);
    TokensJoin(a, b);
  }
}
