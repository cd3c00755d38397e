/**
 * The link the user types: `NormalizeUrl` turns free text into an absolute
 * http(s) link and `ValidateUrl` decides whether the downloader accepts it.
 */
module UrlInput {
  import opened Text

  const WatchPrefix := "https://www.youtube.com/watch?v="

  /** Characters of the class `[a-zA-Z0-9_-]`. */
  predicate IsIdChar(c: char) {
    ('a' <= c <= 'z') || ('A' <= c <= 'Z') || ('0' <= c <= '9') || c == '_' || c == '-'
  }

  /**
   * `^[a-zA-Z0-9_-]{11}$` on a trimmed string: exactly eleven id characters
   * (a trimmed string has no final newline for `$` to stop before).
   */
  predicate IsVideoId(s: string) {
    |s| == 11 && forall i :: 0 <= i < |s| ==> IsIdChar(s[i])
  }

  /** Starts with `http://` or `https://`, ignoring case. */
  predicate HasScheme(s: string) {
    StartsWithIgnoreCase(s, "http://") || StartsWithIgnoreCase(s, "https://")
  }

  /** Starts with one of the four YouTube host names, ignoring case. */
  predicate HasYouTubeHostPrefix(s: string) {
    StartsWithIgnoreCase(s, "www.youtube.com") || StartsWithIgnoreCase(s, "youtube.com")
    || StartsWithIgnoreCase(s, "youtu.be") || StartsWithIgnoreCase(s, "m.youtube.com")
  }

  /** The host test of `ValidateUrl`: an ordinal, case-sensitive substring test. */
  predicate NamesYouTubeHost(s: string) {
    Contains(s, "youtube.com") || Contains(s, "youtu.be")
  }

  /**
   * `NormalizeUrl`: blank text becomes "", otherwise the trimmed text is
   * completed by `Complete`.
   */
  function NormalizeUrl(url: string): string {
    if IsBlank(url) then "" else Complete(Trim(url))
  }

  /**
   * The trimmed text is kept when it already has a scheme, a bare host is
   * given `https://`, a bare video id becomes a watch link, and anything else
   * gets `https://` in front.
   */
  function Complete(t: string): string {
    if HasScheme(t) then t
    else if HasYouTubeHostPrefix(t) then "https://" + t
    else if IsVideoId(t) then WatchPrefix + t
    else "https://" + t
  }

  /** Text put behind an https prefix is a trimmed https link ending in that text. */
  lemma SchemeFirst(prefix: string, t: string)
    requires StartsWith(prefix, "https://")
    requires t != [] && IsTrimmed(t)
    ensures HasScheme(prefix + t) && IsTrimmed(prefix + t) && EndsWith(prefix + t, t)
  {
    assert prefix == "https://" + prefix[8..];
    PrefixIgnoreCase("https://", prefix[8..] + t);
    assert prefix + t == "https://" + (prefix[8..] + t);
    assert (prefix + t)[|prefix + t| - 1] == t[|t| - 1];
    assert (prefix + t)[0] == 'h';
    assert (prefix + t)[|prefix + t| - |t|..] == t;
  }

  /** Every string ends with itself. */
  lemma EndsWithSelf(t: string)
    ensures EndsWith(t, t)
  {
    assert t[|t| - |t|..] == t;
  }

  /** `Complete` gives a trimmed link with a scheme that ends in the text it was given. */
  lemma CompleteShape(t: string)
    requires t != [] && IsTrimmed(t)
    ensures HasScheme(Complete(t)) && IsTrimmed(Complete(t)) && EndsWith(Complete(t), t)
  {
    if HasScheme(t) {
      EndsWithSelf(t);
    } else if IsVideoId(t) && !HasYouTubeHostPrefix(t) {
      SchemeFirst(WatchPrefix, t);
    } else {
      SchemeFirst("https://", t);
    }
  }

  /**
   * Only blank text normalises to ""; anything else becomes a trimmed link
   * with an http or https scheme that ends in the trimmed input.
   */
  lemma NormalizeShape(url: string)
    ensures NormalizeUrl(url) == [] <==> IsBlank(url)
    ensures NormalizeUrl(url) != [] ==>
      HasScheme(NormalizeUrl(url)) && IsTrimmed(NormalizeUrl(url)) && EndsWith(NormalizeUrl(url), Trim(url))
  {
    TrimShape(url);
    if !IsBlank(url) {
      CompleteShape(Trim(url));
    }
  }

  /** The five branches of `NormalizeUrl`, in the order the source tries them. */
  lemma NormalizeCases(url: string)
    ensures IsBlank(url) ==> NormalizeUrl(url) == ""
    ensures var t := Trim(url); !IsBlank(url) && HasScheme(t) ==> NormalizeUrl(url) == t
    ensures var t := Trim(url); !IsBlank(url) && !HasScheme(t) && HasYouTubeHostPrefix(t) ==> NormalizeUrl(url) == "https://" + t
    ensures var t := Trim(url); !IsBlank(url) && !HasScheme(t) && !HasYouTubeHostPrefix(t) && IsVideoId(t) ==> NormalizeUrl(url) == WatchPrefix + t
    ensures var t := Trim(url); !IsBlank(url) && !HasScheme(t) && !HasYouTubeHostPrefix(t) && !IsVideoId(t) ==> NormalizeUrl(url) == "https://" + t
  {
  }

  /** Normalising an already normalised link changes nothing. */
  lemma NormalizeIdempotent(url: string)
    ensures NormalizeUrl(NormalizeUrl(url)) == NormalizeUrl(url)
  {
    NormalizeShape(url);
    var r := NormalizeUrl(url);
    if r != [] {
      assert !IsWhiteSpace(r[0]);
      TrimTrimmed(r);
    }
  }

  /** One position where the two strings differ even ignoring case rules out the prefix. */
  lemma MismatchAt(s: string, prefix: string, k: nat)
    requires k < |prefix| && k < |s| && UpperAscii(s[k]) != UpperAscii(prefix[k])
    ensures !StartsWithIgnoreCase(s, prefix)
  {
  }

  /** Upper-casing keeps an id character an id character. */
  lemma UpperIdChar(c: char)
    requires IsIdChar(c)
    ensures IsIdChar(UpperAscii(c))
  {
  }

  /** An eleven-character id starts neither with a scheme nor with a host name. */
  lemma VideoIdHasNoPrefix(t: string)
    requires IsVideoId(t)
    ensures !HasScheme(t) && !HasYouTubeHostPrefix(t)
  {
    IdMismatch(t, "http://", 4);
    IdMismatch(t, "https://", 5);
    VideoIdHasNoHost(t);
  }

  lemma VideoIdHasNoHost(t: string)
    requires IsVideoId(t)
    ensures !HasYouTubeHostPrefix(t)
  {
    IdMismatch(t, "www.youtube.com", 3);
    IdMismatch(t, "youtube.com", 7);
    IdMismatch(t, "youtu.be", 5);
    IdMismatch(t, "m.youtube.com", 1);
  }

  /** A prefix with a non-id character within the first eleven cannot start a video id. */
  lemma IdMismatch(t: string, prefix: string, k: nat)
    requires IsVideoId(t) && k < |prefix| && k < 11 && !IsIdChar(prefix[k])
    ensures !StartsWithIgnoreCase(t, prefix)
  {
    UpperIdChar(t[k]);
    MismatchAt(t, prefix, k);
  }

  /** A pattern found in `a` is still found in `a + b`. */
  lemma OccursInLonger(a: string, b: string, i: nat, pattern: string)
    requires OccursAt(a, i, pattern)
    ensures OccursAt(a + b, i, pattern)
  {
    assert (a + b)[i..i + |pattern|] == a[i..i + |pattern|];
  }

  /** An eleven-character id is never taken for a scheme or a host name, so it becomes a watch link. */
  lemma VideoIdBecomesWatchLink(url: string)
    requires IsVideoId(Trim(url))
    ensures NormalizeUrl(url) == WatchPrefix + Trim(url)
    ensures NamesYouTubeHost(NormalizeUrl(url))
  {
    var t := Trim(url);
    TrimShape(url);
    VideoIdHasNoPrefix(t);
    assert Complete(t) == WatchPrefix + t;
    WatchLinkNamesHost(t);
  }

  /** A watch link names youtube.com. */
  lemma WatchLinkNamesHost(t: string)
    ensures NamesYouTubeHost(WatchPrefix + t)
  {
    assert WatchPrefix[12..23] == "youtube.com";
    OccursInLonger(WatchPrefix, t, 12, "youtube.com");
  }

  /** Why `ValidateUrl` turned a link down, or the link it accepted. */
  datatype UrlCheck = Accepted(normalized: string) | EmptyUrl | NotYouTube | MalformedUri

  /**
   * `ValidateUrl`: blank text is refused, then a normalised link naming neither
   * youtube.com nor youtu.be, then one that the platform's URI parser does not
   * read as an absolute http(s) URI (`isAbsoluteHttpUri`, a library call here
   * taken as given).
   */
  function ValidateUrl(url: string, isAbsoluteHttpUri: string -> bool): (r: UrlCheck)
    ensures r == EmptyUrl <==> IsBlank(url)
    ensures r == NotYouTube <==> !IsBlank(url) && !NamesYouTubeHost(NormalizeUrl(url))
    ensures r.Accepted? <==> !IsBlank(url) && NamesYouTubeHost(NormalizeUrl(url)) && isAbsoluteHttpUri(NormalizeUrl(url))
    ensures r.Accepted? ==> r.normalized == NormalizeUrl(url) && r.normalized != [] && HasScheme(r.normalized)
  {
    NormalizeShape(url);
    if IsBlank(url) then EmptyUrl
    else
      var n := NormalizeUrl(url);
      if !NamesYouTubeHost(n) then NotYouTube
      else if !isAbsoluteHttpUri(n) then MalformedUri
      else Accepted(n)
  }

  /** The status message `ValidateUrl` shows for each refusal; none for an accepted link. */
  function RefusalMessage(r: UrlCheck): (m: Option<string>)
    ensures m.None? <==> r.Accepted?
  {
    match r
    case Accepted(_) => None
    case EmptyUrl => Some("Blad: URL nie moze byc pusty")
    case NotYouTube => Some("Blad: Tylko linki YouTube")
    case MalformedUri => Some("Blad: Nieprawidlowy URL")
  }

  /** Characters missing from a string are missing from its trimmed form. */
  lemma TrimKeepsOut(s: string, c: char)
    requires c !in s
    ensures c !in Trim(s)
  {
    var a := TrimStart(s);
    SliceKeepsOut(s, |s| - |a|, |s|, c);
    SliceKeepsOut(a, 0, |TrimEnd(a)|, c);
  }

  lemma SliceKeepsOut(s: string, i: nat, j: nat, c: char)
    requires i <= j <= |s| && c !in s
    ensures c !in s[i..j]
  {
    assert forall k :: 0 <= k < j - i ==> s[i..j][k] == s[i + k];
  }

  /**
   * The host test is case-sensitive although the host prefixes are matched
   * ignoring case: a link that starts with a YouTube host name written without
   * a lower-case `y` (as in `YOUTU.BE/...`) is completed by `NormalizeUrl` and
   * then refused.
   */
  lemma UpperCaseHostRefused(url: string, isAbsoluteHttpUri: string -> bool)
    requires !IsBlank(url)
    requires !HasScheme(Trim(url)) && HasYouTubeHostPrefix(Trim(url))
    requires 'y' !in url
    ensures NormalizeUrl(url) == "https://" + Trim(url)
    ensures ValidateUrl(url, isAbsoluteHttpUri) == NotYouTube
  {
    var t := Trim(url);
    TrimKeepsOut(url, 'y');
    var n := "https://" + t;
    assert 'y' !in n;
    MissingCharNotContained(n, "youtube.com", 'y');
    MissingCharNotContained(n, "youtu.be", 'y');
  }
}
