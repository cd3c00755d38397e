/**
 * The parser for yt-dlp's `[download]` progress lines (`ParseDownloadProgress`).
 * Each of the four regular expressions of the source becomes an explicit
 * scanner `...At(s, i)` that tries one start position the way a backtracking
 * matcher does, and the leftmost start wins (`Leftmost`). Next to each scanner
 * stands a declarative statement of what the pattern matches (`PercentMatch`,
 * `QuantityMatch`, `EtaMatch`), and lemmas show the scanner returns exactly the
 * leftmost such match.
 */
module ProgressLine {
  import opened Text

  /** Only lines holding this marker are progress lines. */
  const Marker := "[download]"

  predicate IsDigit(c: char) { '0' <= c <= '9' }

  /** The class `[0-9.]`. */
  predicate IsNumberChar(c: char) { IsDigit(c) || c == '.' }

  /** The character classes the patterns use: `[0-9]`, `\s` and `[0-9.]`. */
  datatype CharClass = Digits | Spaces | NumberChars

  predicate InClass(c: char, p: CharClass) {
    match p
    case Digits => IsDigit(c)
    case Spaces => IsWhiteSpace(c)
    case NumberChars => IsNumberChar(c)
  }

  predicate All(s: string, p: CharClass) {
    forall k :: 0 <= k < |s| ==> InClass(s[k], p)
  }

  // ---------------------------------------------------------------------------
  // Scanning helpers

  /** Length of the longest run of characters satisfying `p` that starts at `i`. */
  function RunLength(s: string, i: nat, p: CharClass): (n: nat)
    requires i <= |s|
    ensures i + n <= |s|
    decreases |s| - i
  {
    if i < |s| && InClass(s[i], p) then 1 + RunLength(s, i + 1, p) else 0
  }

  /** A run that stops where `p` fails is the longest run. */
  lemma {:induction false} RunLengthIs(s: string, i: nat, p: CharClass, n: nat)
    requires i + n <= |s|
    requires forall k :: i <= k < i + n ==> InClass(s[k], p)
    requires i + n == |s| || !InClass(s[i + n], p)
    ensures RunLength(s, i, p) == n
    decreases n
  {
    if n > 0 {
      RunLengthIs(s, i + 1, p, n - 1);
    }
  }

  lemma OccursAtAll(s: string, i: int, t: string, p: CharClass)
    requires OccursAt(s, i, t) && All(t, p)
    ensures forall k :: i <= k < i + |t| ==> InClass(s[k], p)
  {
    forall k | i <= k < i + |t| ensures InClass(s[k], p) {
      assert s[k] == s[i..i + |t|][k - i];
    }
  }

  lemma OccursAtChar(s: string, i: int, c: char)
    ensures OccursAt(s, i, [c]) <==> 0 <= i < |s| && s[i] == c
  {
    if 0 <= i < |s| {
      assert s[i..i + 1] == [s[i]];
    }
  }

  /**
   * The leftmost start position in `i..n` at which `at` finds a match, with the
   * match found there. This is how a regular expression's `Match` picks among
   * start positions.
   */
  function Leftmost<T>(at: nat -> Option<T>, i: nat, n: nat): (r: Option<(nat, T)>)
    ensures r.Some? ==> i <= r.value.0 <= n && at(r.value.0) == Some(r.value.1)
    ensures r.Some? ==> forall j :: i <= j < r.value.0 ==> at(j).None?
    ensures r.None? ==> forall j :: i <= j <= n ==> at(j).None?
    decreases n + 1 - i
  {
    if i > n then None
    else match at(i)
      case Some(v) => Some((i, v))
      case None => Leftmost(at, i + 1, n)
  }

  function Found<T>(r: Option<(nat, T)>): Option<T> {
    match r
    case Some((_, v)) => Some(v)
    case None => None
  }

  // ---------------------------------------------------------------------------
  // Percent: ([0-9]+(?:\.[0-9]+)?)%

  /** A percent numeral kept as its digits: integer part and fraction part (empty when absent). */
  datatype Numeral = Numeral(whole: string, fraction: string)

  predicate ValidNumeral(n: Numeral) {
    n.whole != [] && All(n.whole, Digits) && All(n.fraction, Digits)
  }

  /**
   * The percent pattern matches at `i`, capturing `n`: the integer digits at
   * `i`, then `%`, or `.`, the fraction digits and `%`.
   */
  predicate PercentMatch(s: string, i: nat, n: Numeral) {
    ValidNumeral(n) && OccursAt(s, i, n.whole)
    && (if n.fraction == [] then OccursAt(s, i + |n.whole|, "%")
        else
          OccursAt(s, i + |n.whole|, ".") && OccursAt(s, i + |n.whole| + 1, n.fraction)
          && OccursAt(s, i + |n.whole| + 1 + |n.fraction|, "%"))
  }

  /** The percent pattern tried at start position `i`. */
  function PercentAt(s: string, i: nat): Option<Numeral> {
    if i > |s| then None else PercentAfterWhole(s, i, i + RunLength(s, i, Digits))
  }

  /** The rest of the percent pattern once the integer digits `s[i..j]` are read. */
  function PercentAfterWhole(s: string, i: nat, j: nat): Option<Numeral>
    requires i <= j <= |s|
  {
    if j == i || j >= |s| then None
    else if s[j] == '%' then Some(Numeral(s[i..j], ""))
    else if s[j] == '.' then PercentAfterFraction(s, i, j, j + 1 + RunLength(s, j + 1, Digits))
    else None
  }

  /** The rest once the integer digits `s[i..j]`, the point and the fraction digits `s[j + 1..k]` are read. */
  function PercentAfterFraction(s: string, i: nat, j: nat, k: nat): Option<Numeral>
    requires i <= j < k <= |s|
  {
    if k > j + 1 && k < |s| && s[k] == '%' then Some(Numeral(s[i..j], s[j + 1..k])) else None
  }

  lemma RunAll(s: string, i: nat, p: CharClass)
    requires i <= |s|
    ensures All(s[i..i + RunLength(s, i, p)], p)
  {
    var r := s[i..i + RunLength(s, i, p)];
    forall k | 0 <= k < |r| ensures InClass(r[k], p) {
      assert r[k] == s[i + k];
      RunIn(s, i, p, i + k);
    }
  }

  /** Every character of the run satisfies `p`. */
  lemma {:induction false} RunIn(s: string, i: nat, p: CharClass, k: nat)
    requires i <= |s| && i <= k < i + RunLength(s, i, p)
    ensures InClass(s[k], p)
    decreases k - i
  {
    if k > i {
      RunIn(s, i + 1, p, k);
    }
  }

  lemma WholeSound(s: string, i: nat, j: nat)
    requires i < j < |s| && s[j] == '%' && All(s[i..j], Digits)
    ensures PercentMatch(s, i, Numeral(s[i..j], ""))
  {
    OccursAtChar(s, j, '%');
  }

  lemma FractionSound(s: string, i: nat, j: nat, k: nat)
    requires i < j && j + 1 < k < |s| && s[j] == '.' && s[k] == '%'
    requires All(s[i..j], Digits) && All(s[j + 1..k], Digits)
    ensures PercentMatch(s, i, Numeral(s[i..j], s[j + 1..k]))
  {
    OccursAtChar(s, j, '.');
    OccursAtChar(s, k, '%');
  }

  lemma AfterFractionSound(s: string, i: nat, j: nat, k: nat)
    requires i < j < k <= |s| && s[j] == '.' && All(s[i..j], Digits) && All(s[j + 1..k], Digits)
    ensures PercentAfterFraction(s, i, j, k).Some? ==> PercentMatch(s, i, PercentAfterFraction(s, i, j, k).value)
  {
    if k > j + 1 && k < |s| && s[k] == '%' {
      FractionSound(s, i, j, k);
    }
  }

  lemma AfterWholeSound(s: string, i: nat, j: nat)
    requires i <= j <= |s| && All(s[i..j], Digits)
    ensures PercentAfterWhole(s, i, j).Some? ==> PercentMatch(s, i, PercentAfterWhole(s, i, j).value)
  {
    if j > i && j < |s| && s[j] == '%' {
      WholeSound(s, i, j);
    } else if j > i && j < |s| && s[j] == '.' {
      RunAll(s, j + 1, Digits);
      AfterFractionSound(s, i, j, j + 1 + RunLength(s, j + 1, Digits));
    }
  }

  /** What `PercentAt` returns is a match of the pattern at `i`. */
  lemma PercentAtSound(s: string, i: nat)
    ensures PercentAt(s, i).Some? ==> PercentMatch(s, i, PercentAt(s, i).value)
  {
    if i <= |s| {
      RunAll(s, i, Digits);
      AfterWholeSound(s, i, i + RunLength(s, i, Digits));
    }
  }

  lemma WholeParts(s: string, i: nat, n: Numeral)
    requires PercentMatch(s, i, n) && n.fraction == []
    ensures i + |n.whole| < |s| && s[i + |n.whole|] == '%' && s[i..i + |n.whole|] == n.whole
    ensures RunLength(s, i, Digits) == |n.whole|
  {
    OccursAtChar(s, i + |n.whole|, '%');
    RunOf(s, i, n.whole, Digits);
  }

  lemma FractionParts(s: string, i: nat, n: Numeral)
    requires PercentMatch(s, i, n) && n.fraction != []
    ensures i + |n.whole| + 1 + |n.fraction| < |s|
    ensures s[i + |n.whole|] == '.' && s[i + |n.whole| + 1 + |n.fraction|] == '%'
    ensures s[i..i + |n.whole|] == n.whole && s[i + |n.whole| + 1..i + |n.whole| + 1 + |n.fraction|] == n.fraction
    ensures RunLength(s, i, Digits) == |n.whole| && RunLength(s, i + |n.whole| + 1, Digits) == |n.fraction|
  {
    OccursAtChar(s, i + |n.whole|, '.');
    OccursAtChar(s, i + |n.whole| + 1 + |n.fraction|, '%');
    RunOf(s, i, n.whole, Digits);
    RunOf(s, i + |n.whole| + 1, n.fraction, Digits);
  }

  lemma WholeComplete(s: string, i: nat, n: Numeral)
    requires PercentMatch(s, i, n) && n.fraction == []
    ensures PercentAt(s, i) == Some(n)
  {
    WholeParts(s, i, n);
    assert Numeral(s[i..i + |n.whole|], "") == n;
    PercentAtIs(s, i, |n.whole|, Some(n));
  }

  lemma FractionComplete(s: string, i: nat, n: Numeral)
    requires PercentMatch(s, i, n) && n.fraction != []
    ensures PercentAt(s, i) == Some(n)
  {
    FractionParts(s, i, n);
    PercentFromFraction(s, i, |n.whole|, |n.fraction|);
    assert Numeral(s[i..i + |n.whole|], s[i + |n.whole| + 1..i + |n.whole| + 1 + |n.fraction|]) == n;
  }

  /** The scanner's result from the two digit runs it will measure around the point. */
  lemma PercentFromFraction(s: string, i: nat, m: nat, n: nat)
    requires 0 < m && 0 < n && i + m + 1 + n < |s| && s[i + m] == '.' && s[i + m + 1 + n] == '%'
    requires RunLength(s, i, Digits) == m && RunLength(s, i + m + 1, Digits) == n
    ensures PercentAt(s, i) == Some(Numeral(s[i..i + m], s[i + m + 1..i + m + 1 + n]))
  {
    var j := i + m;
    var k := j + 1 + n;
    var r := Some(Numeral(s[i..j], s[j + 1..k]));
    assert PercentAfterFraction(s, i, j, k) == r;
    PercentAfterWholeIs(s, i, j, n, r);
    PercentAtIs(s, i, m, r);
  }

  lemma PercentAtIs(s: string, i: nat, m: nat, r: Option<Numeral>)
    requires i + m <= |s| && RunLength(s, i, Digits) == m && PercentAfterWhole(s, i, i + m) == r
    ensures PercentAt(s, i) == r
  {
  }

  lemma PercentAfterWholeIs(s: string, i: nat, j: nat, n: nat, r: Option<Numeral>)
    requires i < j < |s| && s[j] == '.' && j + 1 + n <= |s| && RunLength(s, j + 1, Digits) == n
    requires PercentAfterFraction(s, i, j, j + 1 + n) == r
    ensures PercentAfterWhole(s, i, j) == r
  {
  }

  /** Whatever the pattern can match at `i`, `PercentAt` finds (a match at a position is unique). */
  lemma PercentAtComplete(s: string, i: nat, n: Numeral)
    ensures PercentMatch(s, i, n) ==> PercentAt(s, i) == Some(n)
  {
    if PercentMatch(s, i, n) {
      if n.fraction == [] {
        WholeComplete(s, i, n);
      } else {
        FractionComplete(s, i, n);
      }
    }
  }

  /** The leftmost percent match of the line, with its position. */
  function FirstPercent(line: string): Option<(nat, Numeral)> {
    Leftmost((j: nat) => PercentAt(line, j), 0, |line|)
  }

  /** Where `PercentAt` finds nothing, the pattern does not match. */
  lemma NoPercentBefore(line: string, i: nat)
    requires forall j: nat :: j < i ==> PercentAt(line, j).None?
    ensures forall j: nat, m :: j < i || j >= |line| ==> !PercentMatch(line, j, m)
  {
    forall j: nat, m | j < i || j >= |line| ensures !PercentMatch(line, j, m) {
      if j < i {
        PercentAtComplete(line, j, m);
      }
    }
  }

  lemma FirstPercentNone(line: string)
    requires FirstPercent(line).None?
    ensures forall j: nat, m :: !PercentMatch(line, j, m)
  {
    var at := (j: nat) => PercentAt(line, j);
    forall j: nat | j < |line| + 1 ensures PercentAt(line, j).None? {
      assert at(j).None?;
    }
    NoPercentBefore(line, |line| + 1);
  }

  /** `FirstPercent` is the leftmost match of the percent pattern, and there is none when it finds none. */
  lemma FirstPercentIsLeftmost(line: string)
    ensures FirstPercent(line).Some? ==>
      PercentMatch(line, FirstPercent(line).value.0, FirstPercent(line).value.1)
      && forall j: nat, m :: j < FirstPercent(line).value.0 ==> !PercentMatch(line, j, m)
    ensures FirstPercent(line).None? ==> forall j: nat, m :: !PercentMatch(line, j, m)
  {
    var r := FirstPercent(line);
    if r.Some? {
      var at := (j: nat) => PercentAt(line, j);
      PercentAtSound(line, r.value.0);
      forall j: nat | j < r.value.0 ensures PercentAt(line, j).None? {
        assert at(j).None?;
      }
      NoPercentBefore(line, r.value.0);
    } else {
      FirstPercentNone(line);
    }
  }

  // ---------------------------------------------------------------------------
  // Size and speed: of\s+([0-9.]+)(MiB|GiB|KiB|B)  and  at\s+([0-9.]+)(MiB|GiB|KiB|B)/s

  predicate IsUnit(u: string) {
    u == "MiB" || u == "GiB" || u == "KiB" || u == "B"
  }

  /** The alternation `(MiB|GiB|KiB|B)` tried in the order written. */
  function UnitAt(s: string, k: nat): (r: Option<string>)
    ensures r.Some? ==> IsUnit(r.value) && OccursAt(s, k, r.value)
  {
    if OccursAt(s, k, "MiB") then Some("MiB")
    else if OccursAt(s, k, "GiB") then Some("GiB")
    else if OccursAt(s, k, "KiB") then Some("KiB")
    else if OccursAt(s, k, "B") then Some("B")
    else None
  }

  /** The four units start with four different letters, so at most one of them occurs at `k`. */
  lemma UnitAtFinds(s: string, k: nat, u: string)
    requires IsUnit(u) && OccursAt(s, k, u)
    ensures UnitAt(s, k) == Some(u)
  {
    assert s[k] == u[0] by { assert s[k..k + |u|][0] == s[k]; }
  }

  /** A transfer quantity: the `[0-9.]+` number and its unit. */
  datatype Quantity = Quantity(number: string, unit: string)

  /**
   * `keyword\s+([0-9.]+)(MiB|GiB|KiB|B)suffix` matches at `i` with `ws` the
   * white space it reads: keyword, white space, number, unit and suffix one
   * after another.
   */
  predicate QuantityMatch(s: string, i: nat, keyword: string, suffix: string, ws: string, q: Quantity) {
    ws != [] && All(ws, Spaces) && q.number != [] && All(q.number, NumberChars) && IsUnit(q.unit)
    && OccursAt(s, i, keyword) && OccursAt(s, i + |keyword|, ws)
    && OccursAt(s, i + |keyword| + |ws|, q.number)
    && OccursAt(s, i + |keyword| + |ws| + |q.number|, q.unit)
    && OccursAt(s, i + |keyword| + |ws| + |q.number| + |q.unit|, suffix)
  }

  /** The quantity pattern tried at start position `i`. */
  function QuantityAt(s: string, i: nat, keyword: string, suffix: string): Option<Quantity> {
    if !OccursAt(s, i, keyword) then None else QuantityAfterKeyword(s, i + |keyword|, suffix)
  }

  /** The rest of the quantity pattern once the keyword, ending at `a`, is read. */
  function QuantityAfterKeyword(s: string, a: nat, suffix: string): Option<Quantity>
    requires a <= |s|
  {
    QuantityAfterSpace(s, a, a + RunLength(s, a, Spaces), suffix)
  }

  /** The rest of the quantity pattern once the keyword and the white space `s[a..j]` are read. */
  function QuantityAfterSpace(s: string, a: nat, j: nat, suffix: string): Option<Quantity>
    requires a <= j <= |s|
  {
    if j == a then None else QuantityAfterNumber(s, j, j + RunLength(s, j, NumberChars), suffix)
  }

  /** The rest once the number `s[j..k]` is read: a unit, then the suffix. */
  function QuantityAfterNumber(s: string, j: nat, k: nat, suffix: string): Option<Quantity>
    requires j <= k <= |s|
  {
    if k == j then None
    else match UnitAt(s, k)
      case None => None
      case Some(u) => if OccursAt(s, k + |u|, suffix) then Some(Quantity(s[j..k], u)) else None
  }

  lemma AfterNumberSound(s: string, i: nat, keyword: string, suffix: string, j: nat, k: nat)
    requires i + |keyword| < j <= k <= |s| && OccursAt(s, i, keyword)
    requires All(s[i + |keyword|..j], Spaces) && All(s[j..k], NumberChars)
    ensures QuantityAfterNumber(s, j, k, suffix).Some? ==>
      QuantityMatch(s, i, keyword, suffix, s[i + |keyword|..j], QuantityAfterNumber(s, j, k, suffix).value)
  {
  }

  lemma AfterSpaceSound(s: string, i: nat, keyword: string, suffix: string, j: nat)
    requires i + |keyword| <= j <= |s| && OccursAt(s, i, keyword) && All(s[i + |keyword|..j], Spaces)
    ensures QuantityAfterSpace(s, i + |keyword|, j, suffix).Some? ==>
      QuantityMatch(s, i, keyword, suffix, s[i + |keyword|..j], QuantityAfterSpace(s, i + |keyword|, j, suffix).value)
  {
    if j > i + |keyword| {
      RunAll(s, j, NumberChars);
      AfterNumberSound(s, i, keyword, suffix, j, j + RunLength(s, j, NumberChars));
    }
  }

  lemma AfterKeywordSound(s: string, i: nat, keyword: string, suffix: string)
    requires OccursAt(s, i, keyword)
    ensures QuantityAfterKeyword(s, i + |keyword|, suffix).Some? ==>
      QuantityMatch(s, i, keyword, suffix, s[i + |keyword|..i + |keyword| + RunLength(s, i + |keyword|, Spaces)],
        QuantityAfterKeyword(s, i + |keyword|, suffix).value)
  {
    RunAll(s, i + |keyword|, Spaces);
    AfterSpaceSound(s, i, keyword, suffix, i + |keyword| + RunLength(s, i + |keyword|, Spaces));
  }

  /** What `QuantityAt` returns is a match of the pattern at `i`. */
  lemma QuantityAtSound(s: string, i: nat, keyword: string, suffix: string)
    ensures QuantityAt(s, i, keyword, suffix).Some? ==>
      exists ws :: QuantityMatch(s, i, keyword, suffix, ws, QuantityAt(s, i, keyword, suffix).value)
  {
    if OccursAt(s, i, keyword) {
      AfterKeywordSound(s, i, keyword, suffix);
      var r := QuantityAfterKeyword(s, i + |keyword|, suffix);
      if r.Some? {
        var ws := s[i + |keyword|..i + |keyword| + RunLength(s, i + |keyword|, Spaces)];
        assert QuantityMatch(s, i, keyword, suffix, ws, r.value);
      }
    }
  }

  lemma NumberCharNotSpace(c: char)
    ensures IsNumberChar(c) ==> !IsWhiteSpace(c)
  {
  }

  /** A pattern piece of class `p` that the next character does not continue is the whole run. */
  lemma RunOf(s: string, i: nat, t: string, p: CharClass)
    requires OccursAt(s, i, t) && All(t, p) && (i + |t| == |s| || !InClass(s[i + |t|], p))
    ensures RunLength(s, i, p) == |t|
  {
    OccursAtAll(s, i, t, p);
    RunLengthIs(s, i, p, |t|);
  }

  /** A match of the quantity pattern, read as run lengths and a unit. */
  lemma QuantityParts(s: string, i: nat, keyword: string, suffix: string, ws: string, q: Quantity)
    requires QuantityMatch(s, i, keyword, suffix, ws, q)
    ensures i + |keyword| + |ws| + |q.number| < |s|
    ensures s[i + |keyword| + |ws|..i + |keyword| + |ws| + |q.number|] == q.number
    ensures RunLength(s, i + |keyword|, Spaces) == |ws|
    ensures RunLength(s, i + |keyword| + |ws|, NumberChars) == |q.number|
    ensures UnitAt(s, i + |keyword| + |ws| + |q.number|) == Some(q.unit)
  {
    var j := i + |keyword| + |ws|;
    var k := j + |q.number|;
    assert s[j] == q.number[0] by { assert s[j..k][0] == s[j]; }
    NumberCharNotSpace(s[j]);
    RunOf(s, i + |keyword|, ws, Spaces);
    assert s[k] == q.unit[0] by { assert s[k..k + |q.unit|][0] == s[k]; }
    RunOf(s, j, q.number, NumberChars);
    UnitAtFinds(s, k, q.unit);
  }

  /** Whatever the quantity pattern can match at `i`, `QuantityAt` finds (the match at `i` is unique). */
  lemma QuantityAtComplete(s: string, i: nat, keyword: string, suffix: string, ws: string, q: Quantity)
    ensures QuantityMatch(s, i, keyword, suffix, ws, q) ==> QuantityAt(s, i, keyword, suffix) == Some(q)
  {
    if QuantityMatch(s, i, keyword, suffix, ws, q) {
      var j := i + |keyword| + |ws|;
      QuantityParts(s, i, keyword, suffix, ws, q);
      QuantityFromParts(s, i, keyword, suffix, |ws|, |q.number|, q.unit);
      assert Quantity(s[j..j + |q.number|], q.unit) == q;
    }
  }

  /** The scanner's result from the run lengths it will measure and the unit it will find. */
  lemma QuantityFromParts(s: string, i: nat, keyword: string, suffix: string, m: nat, n: nat, u: string)
    requires OccursAt(s, i, keyword) && m > 0 && n > 0 && i + |keyword| + m + n <= |s|
    requires RunLength(s, i + |keyword|, Spaces) == m && RunLength(s, i + |keyword| + m, NumberChars) == n
    requires UnitAt(s, i + |keyword| + m + n) == Some(u) && OccursAt(s, i + |keyword| + m + n + |u|, suffix)
    ensures QuantityAt(s, i, keyword, suffix) == Some(Quantity(s[i + |keyword| + m..i + |keyword| + m + n], u))
  {
    AfterKeywordFinds(s, i + |keyword|, suffix, m, n, u);
  }

  lemma AfterKeywordFinds(s: string, a: nat, suffix: string, m: nat, n: nat, u: string)
    requires m > 0 && n > 0 && a + m + n <= |s|
    requires RunLength(s, a, Spaces) == m && RunLength(s, a + m, NumberChars) == n
    requires UnitAt(s, a + m + n) == Some(u) && OccursAt(s, a + m + n + |u|, suffix)
    ensures QuantityAfterKeyword(s, a, suffix) == Some(Quantity(s[a + m..a + m + n], u))
  {
    AfterSpaceFinds(s, a, a + m, suffix, n, u);
  }

  lemma AfterSpaceFinds(s: string, a: nat, j: nat, suffix: string, n: nat, u: string)
    requires a < j && n > 0 && j + n <= |s| && RunLength(s, j, NumberChars) == n
    requires UnitAt(s, j + n) == Some(u) && OccursAt(s, j + n + |u|, suffix)
    ensures QuantityAfterSpace(s, a, j, suffix) == Some(Quantity(s[j..j + n], u))
  {
    AfterNumberFinds(s, j, j + n, suffix, u);
  }

  lemma AfterNumberFinds(s: string, j: nat, k: nat, suffix: string, u: string)
    requires j < k <= |s| && UnitAt(s, k) == Some(u) && OccursAt(s, k + |u|, suffix)
    ensures QuantityAfterNumber(s, j, k, suffix) == Some(Quantity(s[j..k], u))
  {
  }

  /** The leftmost match of a quantity pattern, with its position. */
  function FirstQuantity(line: string, keyword: string, suffix: string): Option<(nat, Quantity)> {
    Leftmost((j: nat) => QuantityAt(line, j, keyword, suffix), 0, |line|)
  }

  /** Where `QuantityAt` finds nothing, the pattern does not match. */
  lemma NoQuantityBefore(line: string, keyword: string, suffix: string, i: nat)
    requires forall j: nat :: j < i ==> QuantityAt(line, j, keyword, suffix).None?
    ensures forall j: nat, ws, q :: j < i || j >= |line| ==> !QuantityMatch(line, j, keyword, suffix, ws, q)
  {
    forall j: nat, ws, q | j < i || j >= |line| ensures !QuantityMatch(line, j, keyword, suffix, ws, q) {
      if j < i {
        QuantityAtComplete(line, j, keyword, suffix, ws, q);
      }
    }
  }

  /** What `FirstQuantity` finds is a match of the quantity pattern. */
  lemma FirstQuantityFound(line: string, keyword: string, suffix: string)
    requires FirstQuantity(line, keyword, suffix).Some?
    ensures var (i, q) := FirstQuantity(line, keyword, suffix).value;
      exists ws :: QuantityMatch(line, i, keyword, suffix, ws, q)
  {
    var r := FirstQuantity(line, keyword, suffix);
    var at := (j: nat) => QuantityAt(line, j, keyword, suffix);
    assert at(r.value.0) == Some(r.value.1);
    QuantityAtSound(line, r.value.0, keyword, suffix);
  }

  /** `FirstQuantity` is the leftmost match of the quantity pattern, and there is none when it finds none. */
  lemma FirstQuantityIsLeftmost(line: string, keyword: string, suffix: string)
    ensures FirstQuantity(line, keyword, suffix).Some? ==>
      var (i, q) := FirstQuantity(line, keyword, suffix).value;
      (exists ws :: QuantityMatch(line, i, keyword, suffix, ws, q))
      && forall j: nat, ws, q' :: j < i ==> !QuantityMatch(line, j, keyword, suffix, ws, q')
    ensures FirstQuantity(line, keyword, suffix).None? ==>
      forall j: nat, ws, q' :: !QuantityMatch(line, j, keyword, suffix, ws, q')
  {
    var r := FirstQuantity(line, keyword, suffix);
    var at := (j: nat) => QuantityAt(line, j, keyword, suffix);
    if r.Some? {
      FirstQuantityFound(line, keyword, suffix);
      forall j: nat | j < r.value.0 ensures QuantityAt(line, j, keyword, suffix).None? {
        assert at(j).None?;
      }
      NoQuantityBefore(line, keyword, suffix, r.value.0);
    } else {
      forall j: nat | j < |line| + 1 ensures QuantityAt(line, j, keyword, suffix).None? {
        assert at(j).None?;
      }
      NoQuantityBefore(line, keyword, suffix, |line| + 1);
    }
  }

  // ---------------------------------------------------------------------------
  // ETA: ETA\s+([0-9]{2}:[0-9]{2}:[0-9]{2}|[0-9]{2}:[0-9]{2})

  /** `[0-9]{2}:[0-9]{2}`. */
  predicate IsClock2(t: string) {
    |t| == 5 && IsDigit(t[0]) && IsDigit(t[1]) && t[2] == ':' && IsDigit(t[3]) && IsDigit(t[4])
  }

  /** `[0-9]{2}:[0-9]{2}:[0-9]{2}`. */
  predicate IsClock3(t: string) {
    |t| == 8 && IsDigit(t[0]) && IsDigit(t[1]) && t[2] == ':' && IsDigit(t[3]) && IsDigit(t[4])
    && t[5] == ':' && IsDigit(t[6]) && IsDigit(t[7])
  }

  /** The ETA pattern matches at `i` with either alternative, reading `ws` and capturing `t`. */
  predicate EtaMatch(s: string, i: nat, ws: string, t: string) {
    ws != [] && All(ws, Spaces) && (IsClock3(t) || IsClock2(t))
    && OccursAt(s, i, "ETA") && OccursAt(s, i + 3, ws) && OccursAt(s, i + 3 + |ws|, t)
  }

  /** The ETA pattern tried at start position `i`. */
  function EtaAt(s: string, i: nat): Option<string> {
    if !OccursAt(s, i, "ETA") then None else EtaAfterSpace(s, i + 3, i + 3 + RunLength(s, i + 3, Spaces))
  }

  /** The rest of the ETA pattern once `ETA` and the white space `s[a..j]` are read: `HH:MM:SS` before `MM:SS`. */
  function EtaAfterSpace(s: string, a: nat, j: nat): Option<string>
    requires a <= j <= |s|
  {
    if j == a then None
    else if j + 8 <= |s| && IsClock3(s[j..j + 8]) then Some(s[j..j + 8])
    else if j + 5 <= |s| && IsClock2(s[j..j + 5]) then Some(s[j..j + 5])
    else None
  }

  lemma AfterSpaceEtaSound(s: string, i: nat, j: nat)
    requires i + 3 <= j <= |s| && OccursAt(s, i, "ETA") && All(s[i + 3..j], Spaces)
    ensures EtaAfterSpace(s, i + 3, j).Some? ==> EtaMatch(s, i, s[i + 3..j], EtaAfterSpace(s, i + 3, j).value)
  {
  }

  /** What `EtaAt` returns is a match of the pattern at `i`. */
  lemma EtaAtSound(s: string, i: nat)
    ensures EtaAt(s, i).Some? ==> exists ws :: EtaMatch(s, i, ws, EtaAt(s, i).value)
  {
    if OccursAt(s, i, "ETA") {
      var j := i + 3 + RunLength(s, i + 3, Spaces);
      RunAll(s, i + 3, Spaces);
      AfterSpaceEtaSound(s, i, j);
      var r := EtaAfterSpace(s, i + 3, j);
      assert EtaAt(s, i) == r;
      if r.Some? {
        assert EtaMatch(s, i, s[i + 3..j], r.value);
      }
    }
  }

  /** The positions an ETA match covers. */
  lemma EtaParts(s: string, i: nat, ws: string, t: string)
    requires EtaMatch(s, i, ws, t)
    ensures var j := i + 3 + |ws|;
      j + |t| <= |s| && s[j..j + |t|] == t
      && (forall p :: i + 3 <= p < j ==> InClass(s[p], Spaces))
      && !InClass(s[j], Spaces)
  {
    var j := i + 3 + |ws|;
    OccursAtAll(s, i + 3, ws, Spaces);
    assert s[j] == t[0] by { assert s[j..j + |t|][0] == s[j]; }
  }

  /** Once the white space is read, a clock at `j` is found, preferring the longer one. */
  lemma EtaAfterSpaceFinds(s: string, a: nat, j: nat, t: string)
    requires a < j && j + |t| <= |s| && s[j..j + |t|] == t && (IsClock3(t) || IsClock2(t))
    ensures var r := EtaAfterSpace(s, a, j);
      r.Some? && OccursAt(s, j, r.value) && (IsClock3(r.value) || IsClock2(r.value))
      && (IsClock3(t) ==> r.value == t) && (IsClock2(t) ==> r.value[..5] == t)
  {
    if IsClock2(t) && j + 8 <= |s| {
      assert s[j..j + 8][..5] == s[j..j + 5];
    }
  }

  /**
   * Whatever the ETA pattern can match at `i`, `EtaAt` finds a match there,
   * and it is the `HH:MM:SS` one whenever that alternative matches.
   */
  lemma EtaAtComplete(s: string, i: nat, ws: string, t: string)
    ensures EtaMatch(s, i, ws, t) ==>
      EtaAt(s, i).Some? && EtaMatch(s, i, ws, EtaAt(s, i).value)
      && (IsClock3(t) ==> EtaAt(s, i).value == t)
      && (IsClock2(t) ==> EtaAt(s, i).value[..5] == t)
  {
    if EtaMatch(s, i, ws, t) {
      var j := i + 3 + |ws|;
      EtaParts(s, i, ws, t);
      RunLengthIs(s, i + 3, Spaces, |ws|);
      assert EtaAt(s, i) == EtaAfterSpace(s, i + 3, j);
      EtaAfterSpaceFinds(s, i + 3, j, t);
    }
  }

  /** The leftmost match of the ETA pattern, with its position. */
  function FirstEta(line: string): Option<(nat, string)> {
    Leftmost((j: nat) => EtaAt(line, j), 0, |line|)
  }

  /** Where `EtaAt` finds nothing, the pattern does not match. */
  lemma NoEtaBefore(line: string, i: nat)
    requires forall j: nat :: j < i ==> EtaAt(line, j).None?
    ensures forall j: nat, ws, t :: j < i || j >= |line| ==> !EtaMatch(line, j, ws, t)
  {
    forall j: nat, ws, t | j < i || j >= |line| ensures !EtaMatch(line, j, ws, t) {
      if j < i {
        EtaAtComplete(line, j, ws, t);
      }
    }
  }

  /** `FirstEta` is the leftmost match of the ETA pattern, taking the longer alternative there. */
  lemma FirstEtaIsLeftmost(line: string)
    ensures FirstEta(line).Some? ==>
      var (i, t) := FirstEta(line).value;
      (exists ws :: EtaMatch(line, i, ws, t))
      && (forall ws, t' :: EtaMatch(line, i, ws, t') ==> |t'| <= |t|)
      && forall j: nat, ws, t' :: j < i ==> !EtaMatch(line, j, ws, t')
    ensures FirstEta(line).None? ==> forall j: nat, ws, t' :: !EtaMatch(line, j, ws, t')
  {
    var r := FirstEta(line);
    var at := (j: nat) => EtaAt(line, j);
    if r.Some? {
      var (i, t) := r.value;
      assert at(i) == Some(t);
      EtaAtSound(line, i);
      forall ws, t' | EtaMatch(line, i, ws, t') ensures |t'| <= |t| {
        EtaAtComplete(line, i, ws, t');
      }
      forall j: nat | j < i ensures EtaAt(line, j).None? {
        assert at(j).None?;
      }
      NoEtaBefore(line, i);
    } else {
      forall j: nat | j < |line| + 1 ensures EtaAt(line, j).None? {
        assert at(j).None?;
      }
      NoEtaBefore(line, |line| + 1);
    }
  }

  // ---------------------------------------------------------------------------
  // The parsed line

  /** The fields read from one progress line; each is absent when its pattern found nothing. */
  datatype ProgressSample = ProgressSample(
    percent: Option<Numeral>,
    size: Option<string>,
    speed: Option<string>,
    eta: Option<string>)

  function SizeText(q: Option<Quantity>): Option<string> {
    match q
    case Some(v) => Some(v.number + v.unit)
    case None => None
  }

  function SpeedText(q: Option<Quantity>): Option<string> {
    match q
    case Some(v) => Some(v.number + v.unit + "/s")
    case None => None
  }

  /**
   * The four independent extractors of `ParseDownloadProgress`, run only on a
   * line holding `[download]`.
   */
  function ParseLine(line: string): (r: Option<ProgressSample>)
    ensures r.None? <==> !Contains(line, Marker)
    ensures r.Some? && r.value.percent.Some? ==> ValidNumeral(r.value.percent.value)
  {
    PercentFieldValid(line);
    if !Contains(line, Marker) then None
    else Some(ProgressSample(
      Found(FirstPercent(line)),
      SizeText(Found(FirstQuantity(line, "of", ""))),
      SpeedText(Found(FirstQuantity(line, "at", "/s"))),
      Found(FirstEta(line))))
  }

  /** Value of a string of decimal digits. */
  function DigitsValue(ds: string): nat
    requires All(ds, Digits)
  {
    if ds == [] then 0 else DigitsValue(ds[..|ds| - 1]) * 10 + (ds[|ds| - 1] as int - '0' as int)
  }

  /**
   * The progress bar after a parsed line: `Math.Min((int)percent, 100)` when a
   * percent was found (the cast keeps the integer part), the old value otherwise.
   */
  function BarValue(sample: ProgressSample, current: int): (v: int)
    requires sample.percent.Some? ==> ValidNumeral(sample.percent.value)
    ensures sample.percent.None? ==> v == current
    ensures sample.percent.Some? ==> 0 <= v <= 100
    ensures sample.percent.Some? ==> v <= DigitsValue(sample.percent.value.whole)
    ensures sample.percent.Some? && DigitsValue(sample.percent.value.whole) <= 100 ==> v == DigitsValue(sample.percent.value.whole)
    ensures sample.percent.Some? && DigitsValue(sample.percent.value.whole) >= 100 ==> v == 100
  {
    match sample.percent
    case None => current
    case Some(n) => if DigitsValue(n.whole) < 100 then DigitsValue(n.whole) else 100
  }

  /** Textual form of a field: no white space, hence no space either. */
  predicate IsToken(t: Option<string>) {
    t.Some? ==> t.value != [] && ' ' !in t.value
  }

  lemma NoSpaceIn(s: string, p: CharClass)
    requires All(s, p) && !InClass(' ', p)
    ensures ' ' !in s
  {
  }

  /**
   * What a parsed progress line holds: a valid numeral for the percent, and for
   * size, speed and ETA non-empty texts without spaces, of the forms the
   * patterns allow.
   */
  lemma ParsedFieldsWellFormed(line: string)
    requires ParseLine(line).Some?
    ensures var p := ParseLine(line).value;
      (p.percent.Some? ==> ValidNumeral(p.percent.value))
      && IsToken(p.size) && IsToken(p.speed) && IsToken(p.eta)
      && (p.speed.Some? ==> EndsWith(p.speed.value, "/s"))
      && (p.eta.Some? ==> IsClock3(p.eta.value) || IsClock2(p.eta.value))
  {
    PercentFieldValid(line);
    SizeFieldToken(line);
    SpeedFieldToken(line);
    EtaFieldClock(line);
  }

  lemma PercentFieldValid(line: string)
    ensures var r := Found(FirstPercent(line)); r.Some? ==> ValidNumeral(r.value)
  {
    FirstPercentIsLeftmost(line);
  }

  /** The number and unit found by a quantity pattern form a token. */
  lemma QuantityToken(line: string, keyword: string, suffix: string)
    ensures var r := FirstQuantity(line, keyword, suffix);
      r.Some? ==> r.value.1.number != [] && ' ' !in r.value.1.number + r.value.1.unit
  {
    var r := FirstQuantity(line, keyword, suffix);
    if r.Some? {
      FirstQuantityFound(line, keyword, suffix);
      var ws :| QuantityMatch(line, r.value.0, keyword, suffix, ws, r.value.1);
      QuantityNoSpace(r.value.1);
    }
  }

  lemma QuantityNoSpace(q: Quantity)
    requires q.number != [] && All(q.number, NumberChars) && IsUnit(q.unit)
    ensures ' ' !in q.number + q.unit
  {
    NoSpaceIn(q.number, NumberChars);
    assert ' ' !in q.unit;
  }

  lemma SizeFieldToken(line: string)
    ensures IsToken(SizeText(Found(FirstQuantity(line, "of", ""))))
  {
    QuantityToken(line, "of", "");
  }

  lemma SpeedFieldToken(line: string)
    ensures var r := SpeedText(Found(FirstQuantity(line, "at", "/s")));
      IsToken(r) && (r.Some? ==> EndsWith(r.value, "/s"))
  {
    QuantityToken(line, "at", "/s");
    var q := Found(FirstQuantity(line, "at", "/s"));
    if q.Some? {
      var t := q.value.number + q.value.unit;
      assert t + "/s" == t + ['/'] + ['s'];
      assert (t + "/s")[|t|..] == "/s";
    }
  }

  lemma EtaFieldClock(line: string)
    ensures var r := Found(FirstEta(line));
      IsToken(r) && (r.Some? ==> IsClock3(r.value) || IsClock2(r.value))
  {
    FirstEtaIsLeftmost(line);
    var r := FirstEta(line);
    if r.Some? {
      var ws :| EtaMatch(line, r.value.0, ws, r.value.1);
      ClockToken(r.value.1);
    }
  }

  lemma ClockToken(t: string)
    requires IsClock3(t) || IsClock2(t)
    ensures IsToken(Some(t))
  {
    assert forall k :: 0 <= k < |t| ==> IsDigit(t[k]) || t[k] == ':';
  }

  // ---------------------------------------------------------------------------
  // The status text and reading it back

  /**
   * The text the source renders for the percent: the parsed value through
   * `formatPercent` (the source's `ToString("F1")`), or the same rendering of
   * the default 0.0 when no percent was found.
   */
  function PercentText(sample: ProgressSample, formatPercent: Numeral -> string): string {
    match sample.percent
    case Some(n) => formatPercent(n)
    case None => formatPercent(ZeroPercent)
  }

  /** The percent the source starts from, 0.0, before any match. */
  const ZeroPercent := Numeral("0", "")

  /** One optional segment of the status text: ` <title> <value>` or nothing. */
  function Segment(title: string, field: Option<string>): string {
    match field
    case Some(v) => " " + title + " " + v
    case None => ""
  }

  /**
   * The status text: `Pobieranie: <percent>%`, then ` Rozmiar: `, ` Predkosc: `
   * and ` ETA: ` segments in that order, each only for a field that is present.
   */
  function StatusText(percentText: string, sample: ProgressSample): string {
    StatusHead(percentText) + Segments(sample)
  }

  function StatusHead(percentText: string): string {
    "Pobieranie:" + " " + (percentText + "%")
  }

  function Segments(sample: ProgressSample): string {
    Segment("Rozmiar:", sample.size) + (Segment("Predkosc:", sample.speed) + Segment("ETA:", sample.eta))
  }

  /** Index of the first `c` in `s`, or `|s|` when there is none. */
  function IndexOf(s: string, c: char): (k: nat)
    ensures k <= |s| && (k < |s| ==> s[k] == c)
    ensures forall i :: 0 <= i < k ==> s[i] != c
  {
    if s == [] || s[0] == c then 0 else 1 + IndexOf(s[1..], c)
  }

  /** `String.Split(' ')`: the pieces between single spaces, empty pieces kept. */
  function Words(s: string): (w: seq<string>)
    ensures |w| >= 1
    decreases |s|
  {
    var k := IndexOf(s, ' ');
    if k == |s| then [s] else [s[..k]] + Words(s[k + 1..])
  }

  /** The words after the first space-separated piece: none for an empty rest. */
  function WordsAfter(rest: string): seq<string>
    requires rest == [] || rest[0] == ' '
  {
    if rest == [] then [] else Words(rest[1..])
  }

  /** A piece without spaces followed by nothing or a space is the first word. */
  lemma WordsHead(x: string, rest: string, s: string)
    requires s == x + rest
    requires ' ' !in x
    requires rest == [] || rest[0] == ' '
    ensures Words(s) == [x] + WordsAfter(rest)
  {
    assert forall i :: 0 <= i < |x| ==> s[i] == x[i];
    if rest == [] {
      assert s == x;
      assert IndexOf(s, ' ') == |s|;
    } else {
      assert s[|x|] == ' ';
      assert IndexOf(s, ' ') == |x|;
      assert s[..|x|] == x;
      assert s[|x| + 1..] == rest[1..];
    }
  }

  /** The words a segment adds. */
  function SegmentWords(title: string, field: Option<string>): seq<string> {
    match field
    case Some(v) => [title, v]
    case None => []
  }

  /** A segment either is empty or starts with a space. */
  lemma SegmentShape(title: string, field: Option<string>, more: string)
    requires more == [] || more[0] == ' '
    ensures var s := Segment(title, field) + more; s == [] || s[0] == ' '
  {
  }

  /** Each present segment contributes exactly its title and its value. */
  lemma WordsAfterSegment(title: string, field: Option<string>, more: string)
    requires ' ' !in title && IsToken(field)
    requires more == [] || more[0] == ' '
    ensures var s := Segment(title, field) + more;
      (s == [] || s[0] == ' ') && WordsAfter(s) == SegmentWords(title, field) + WordsAfter(more)
  {
    if field.Some? {
      PresentSegmentWords(title, field.value, more);
    } else {
      assert Segment(title, field) + more == more;
    }
  }

  lemma PresentSegmentWords(title: string, v: string, more: string)
    requires ' ' !in title && ' ' !in v
    requires more == [] || more[0] == ' '
    ensures WordsAfter(" " + title + " " + v + more) == [title, v] + WordsAfter(more)
  {
    var s := " " + title + " " + v + more;
    assert s[1..] == title + " " + v + more;
    TwoWords(title, v, more);
  }

  /** What a reader of the status text can recover. */
  datatype StatusFields = StatusFields(percentText: string, size: Option<string>, speed: Option<string>, eta: Option<string>)

  function TakeField(title: string, words: seq<string>): (Option<string>, seq<string>) {
    if |words| >= 2 && words[0] == title then (Some(words[1]), words[2..]) else (None, words)
  }

  /** Reads a status text back into its fields; `None` when it is not of the status form. */
  function DecodeStatus(status: string): Option<StatusFields> {
    DecodeWords(Words(status))
  }

  function DecodeWords(w: seq<string>): Option<StatusFields> {
    if |w| < 2 || w[0] != "Pobieranie:" || w[1] == [] || w[1][|w[1]| - 1] != '%' then None
    else
      var (size, r1) := TakeField("Rozmiar:", w[2..]);
      var (speed, r2) := TakeField("Predkosc:", r1);
      var (eta, r3) := TakeField("ETA:", r2);
      if r3 == [] then Some(StatusFields(w[1][..|w[1]| - 1], size, speed, eta)) else None
  }

  /** Two space-free pieces joined by a space, then nothing or a space: two words. */
  lemma TwoWords(x: string, y: string, rest: string)
    requires ' ' !in x && ' ' !in y
    requires rest == [] || rest[0] == ' '
    ensures Words(x + " " + y + rest) == [x, y] + WordsAfter(rest)
  {
    var s := x + " " + y + rest;
    var tail := " " + (y + rest);
    WordsHead(x, tail, s);
    WordsHead(y, rest, tail[1..]);
    assert WordsAfter(tail) == [y] + WordsAfter(rest);
    ConsTwo(x, y, WordsAfter(rest));
  }

  lemma ConsTwo<T>(a: T, b: T, r: seq<T>)
    ensures [a] + ([b] + r) == [a, b] + r
  {
  }

  /** `Pobieranie: <percent>%` gives two words, whatever space-led text follows. */
  lemma HeadWords(percentText: string, rest: string)
    requires ' ' !in percentText
    requires rest == [] || rest[0] == ' '
    ensures Words(StatusHead(percentText) + rest) == ["Pobieranie:", percentText + "%"] + WordsAfter(rest)
  {
    TwoWords("Pobieranie:", percentText + "%", rest);
  }

  /** The three segments give the words of the fields present, in order. */
  lemma SegmentsWords(sample: ProgressSample)
    requires IsToken(sample.size) && IsToken(sample.speed) && IsToken(sample.eta)
    ensures var s := Segments(sample);
      (s == [] || s[0] == ' ')
      && WordsAfter(s) == SegmentWords("Rozmiar:", sample.size)
        + (SegmentWords("Predkosc:", sample.speed) + SegmentWords("ETA:", sample.eta))
  {
    var s3 := Segment("ETA:", sample.eta);
    WordsAfterSegment("ETA:", sample.eta, "");
    assert s3 == Segment("ETA:", sample.eta) + "";
    assert SegmentWords("ETA:", sample.eta) + [] == SegmentWords("ETA:", sample.eta);
    WordsAfterSegment("Predkosc:", sample.speed, s3);
    WordsAfterSegment("Rozmiar:", sample.size, Segment("Predkosc:", sample.speed) + s3);
  }

  /** The words of a status text: the head, the percent and the present fields with their titles. */
  lemma StatusWords(percentText: string, sample: ProgressSample)
    requires ' ' !in percentText
    requires IsToken(sample.size) && IsToken(sample.speed) && IsToken(sample.eta)
    ensures Words(StatusText(percentText, sample)) == ["Pobieranie:", percentText + "%"]
      + (SegmentWords("Rozmiar:", sample.size) + (SegmentWords("Predkosc:", sample.speed) + SegmentWords("ETA:", sample.eta)))
  {
    SegmentsWords(sample);
    HeadWords(percentText, Segments(sample));
  }

  /**
   * The status text is unambiguous: when the percent rendering and the fields
   * hold no spaces, reading it back gives the percent text and exactly the
   * fields that were present, so segments appear in the fixed order and only
   * for present fields.
   */
  lemma StatusRoundTrip(percentText: string, sample: ProgressSample)
    requires ' ' !in percentText
    requires IsToken(sample.size) && IsToken(sample.speed) && IsToken(sample.eta)
    ensures DecodeStatus(StatusText(percentText, sample))
      == Some(StatusFields(percentText, sample.size, sample.speed, sample.eta))
  {
    StatusWords(percentText, sample);
    var rest := SegmentWords("Rozmiar:", sample.size) + (SegmentWords("Predkosc:", sample.speed) + SegmentWords("ETA:", sample.eta));
    FieldsRead(sample);
    DecodeHead(percentText, rest);
  }

  /** A segment's words are taken back by the title they start with, and other titles leave them. */
  lemma TakeSegment(title: string, field: Option<string>, rest: seq<string>)
    requires rest == [] || rest[0] != title
    ensures TakeField(title, SegmentWords(title, field) + rest) == (field, rest)
  {
    if field.Some? {
      assert (SegmentWords(title, field) + rest)[2..] == rest;
    } else {
      assert SegmentWords(title, field) + rest == rest;
    }
  }

  lemma FieldsRead(sample: ProgressSample)
    ensures var w3 := SegmentWords("ETA:", sample.eta);
      var w2 := SegmentWords("Predkosc:", sample.speed) + w3;
      var w1 := SegmentWords("Rozmiar:", sample.size) + w2;
      TakeField("Rozmiar:", w1) == (sample.size, w2)
      && TakeField("Predkosc:", w2) == (sample.speed, w3)
      && TakeField("ETA:", w3) == (sample.eta, [])
  {
    var w3 := SegmentWords("ETA:", sample.eta);
    var w2 := SegmentWords("Predkosc:", sample.speed) + w3;
    assert w3 == SegmentWords("ETA:", sample.eta) + [];
    TakeSegment("ETA:", sample.eta, []);
    TakeSegment("Predkosc:", sample.speed, w3);
    TakeSegment("Rozmiar:", sample.size, w2);
  }

  lemma DecodeHead(percentText: string, rest: seq<string>)
    ensures var w := ["Pobieranie:", percentText + "%"] + rest;
      |w| >= 2 && w[0] == "Pobieranie:" && w[1] == percentText + "%" && w[2..] == rest
      && w[1][..|w[1]| - 1] == percentText && w[1][|w[1]| - 1] == '%'
  {
    var w := ["Pobieranie:", percentText + "%"] + rest;
    assert w[2..] == rest;
  }

  /**
   * The status written for a progress line reports exactly the fields parsed
   * from it, whatever the line, for any percent rendering without spaces.
   */
  lemma StatusReportsParsedFields(line: string, formatPercent: Numeral -> string)
    requires Contains(line, Marker)
    requires forall n :: ' ' !in formatPercent(n)
    ensures var p := ParseLine(line).value;
      DecodeStatus(StatusText(PercentText(p, formatPercent), p))
        == Some(StatusFields(PercentText(p, formatPercent), p.size, p.speed, p.eta))
  {
    ParsedFieldsWellFormed(line);
    var p := ParseLine(line).value;
    StatusRoundTrip(PercentText(p, formatPercent), p);
  }
}
