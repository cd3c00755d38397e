/**
 * String primitives of the .NET base library that the downloader's decision
 * routines rely on, written out over `seq<char>`: white space as
 * `char.IsWhiteSpace` sees it, `String.Trim`, ordinal prefix, suffix and
 * substring tests, ASCII-only `OrdinalIgnoreCase` comparison and the Windows
 * form of `Path.Combine`.
 */
module Text {

  datatype Option<+T> = None | Some(value: T)

  /** `char.IsWhiteSpace`: U+0009..U+000D, U+0085 and the Unicode categories Zs, Zl and Zp. */
  predicate IsWhiteSpace(c: char) {
    ('\t' <= c <= '\r') || c == ' ' || c == '\U{0085}' || c == '\U{00A0}' || c == '\U{1680}'
    || ('\U{2000}' <= c <= '\U{200A}') || c == '\U{2028}' || c == '\U{2029}'
    || c == '\U{202F}' || c == '\U{205F}' || c == '\U{3000}'
  }

  /** `string.IsNullOrWhiteSpace` for a non-null string. */
  predicate IsBlank(s: string) {
    forall i :: 0 <= i < |s| ==> IsWhiteSpace(s[i])
  }

  /** Neither end of `s` is white space. */
  predicate IsTrimmed(s: string) {
    s == [] || (!IsWhiteSpace(s[0]) && !IsWhiteSpace(s[|s| - 1]))
  }

  /** `String.TrimStart()`: drops the leading white space. */
  function TrimStart(s: string): (r: string)
    ensures |r| <= |s| && r == s[|s| - |r|..]
    ensures forall i :: 0 <= i < |s| - |r| ==> IsWhiteSpace(s[i])
    ensures r == [] || !IsWhiteSpace(r[0])
  {
    if |s| > 0 && IsWhiteSpace(s[0]) then TrimStart(s[1..]) else s
  }

  /** `String.TrimEnd()`: drops the trailing white space. */
  function TrimEnd(s: string): (r: string)
    ensures |r| <= |s| && r == s[..|r|]
    ensures forall i :: |r| <= i < |s| ==> IsWhiteSpace(s[i])
    ensures r == [] || !IsWhiteSpace(r[|r| - 1])
  {
    if |s| > 0 && IsWhiteSpace(s[|s| - 1]) then TrimEnd(s[..|s| - 1]) else s
  }

  /** `String.Trim()`: drops white space at both ends. */
  function Trim(s: string): string {
    TrimEnd(TrimStart(s))
  }

  /** Trimming leaves a string with no white space at either end, and only a blank string trims to "". */
  lemma TrimShape(s: string)
    ensures IsTrimmed(Trim(s))
    ensures Trim(s) == [] <==> IsBlank(s)
  {
    var a := TrimStart(s);
    var b := TrimEnd(a);
    assert b != [] ==> b[0] == a[0];
    assert a != [] ==> a[0] == s[|s| - |a|];
    if b == [] {
      assert a[|b|..] == a;
      assert a == [];
      assert s[..|s| - |a|] == s;
    }
  }

  /** A string that is already trimmed is left alone by `Trim`. */
  lemma TrimTrimmed(s: string)
    requires IsTrimmed(s)
    ensures Trim(s) == s
  {
  }

  /** Trimming twice is trimming once. */
  lemma TrimIdempotent(s: string)
    ensures Trim(Trim(s)) == Trim(s)
  {
    TrimShape(s);
    TrimTrimmed(Trim(s));
  }

  /** Ordinal `String.StartsWith`. */
  predicate StartsWith(s: string, prefix: string) {
    |prefix| <= |s| && s[..|prefix|] == prefix
  }

  /** Ordinal `String.EndsWith`. */
  predicate EndsWith(s: string, suffix: string) {
    |suffix| <= |s| && s[|s| - |suffix|..] == suffix
  }

  /** `s` holds `pattern` starting at index `i`. */
  predicate OccursAt(s: string, i: int, pattern: string) {
    0 <= i && i + |pattern| <= |s| && s[i..i + |pattern|] == pattern
  }

  /** Ordinal `String.Contains`. */
  predicate Contains(s: string, pattern: string) {
    exists i :: 0 <= i <= |s| - |pattern| && OccursAt(s, i, pattern)
  }

  /** A pattern holding a character that `s` lacks cannot occur in `s`. */
  lemma {:induction false} MissingCharNotContained(s: string, pattern: string, c: char)
    requires c in pattern && c !in s
    ensures !Contains(s, pattern)
  {
    var k :| 0 <= k < |pattern| && pattern[k] == c;
    forall i | 0 <= i <= |s| - |pattern| ensures !OccursAt(s, i, pattern) {
      assert s[i..i + |pattern|][k] == s[i + k];
    }
  }

  /** A suffix is a substring. */
  lemma EndsWithContains(s: string, suffix: string)
    requires EndsWith(s, suffix)
    ensures Contains(s, suffix)
  {
    assert OccursAt(s, |s| - |suffix|, suffix);
  }

  /**
   * Upper-casing as `StringComparison.OrdinalIgnoreCase` applies it, restricted
   * to the ASCII letters.
   */
  function UpperAscii(c: char): (u: char)
    ensures ('a' <= c <= 'z') ==> 'A' <= u <= 'Z'
    ensures !('a' <= c <= 'z') ==> u == c
  {
    if 'a' <= c <= 'z' then (c as int - 32) as char else c
  }

  /** `s.StartsWith(prefix, StringComparison.OrdinalIgnoreCase)`. */
  predicate StartsWithIgnoreCase(s: string, prefix: string) {
    |prefix| <= |s| && forall i :: 0 <= i < |prefix| ==> UpperAscii(s[i]) == UpperAscii(prefix[i])
  }

  /** `s.EndsWith(suffix, StringComparison.OrdinalIgnoreCase)`. */
  predicate EndsWithIgnoreCase(s: string, suffix: string) {
    |suffix| <= |s|
    && forall i :: 0 <= i < |suffix| ==> UpperAscii(s[|s| - |suffix| + i]) == UpperAscii(suffix[i])
  }

  /** An exact prefix is also a prefix when case is ignored, whatever follows it. */
  lemma PrefixIgnoreCase(prefix: string, rest: string)
    ensures StartsWithIgnoreCase(prefix + rest, prefix)
  {
    assert forall i :: 0 <= i < |prefix| ==> (prefix + rest)[i] == prefix[i];
  }

  /** An exact suffix is also a suffix when case is ignored. */
  lemma SuffixIgnoreCase(s: string, suffix: string)
    requires EndsWith(s, suffix)
    ensures EndsWithIgnoreCase(s, suffix)
  {
    assert forall i :: 0 <= i < |suffix| ==> s[|s| - |suffix| + i] == suffix[i];
  }

  /** `String.Replace(c.ToString(), "")`: every occurrence of `c` removed. */
  function RemoveAll(s: string, c: char): (r: string)
    ensures c !in r
    ensures c !in s ==> r == s
  {
    if s == [] then []
    else if s[0] == c then RemoveAll(s[1..], c)
    else [s[0]] + RemoveAll(s[1..], c)
  }

  /** Every other character is kept, as often as it occurs. */
  lemma {:induction false} RemoveAllKeepsOthers(s: string, c: char)
    ensures multiset(RemoveAll(s, c)) == multiset(s)[c := 0]
  {
    if s != [] {
      assert s == [s[0]] + s[1..];
      RemoveAllKeepsOthers(s[1..], c);
    }
  }

  /** Removal works piece by piece, so the kept characters stay in their order. */
  lemma {:induction false} RemoveAllConcat(a: string, b: string, c: char)
    ensures RemoveAll(a + b, c) == RemoveAll(a, c) + RemoveAll(b, c)
  {
    if a == [] {
      assert a + b == b;
    } else {
      assert (a + b)[0] == a[0];
      assert (a + b)[1..] == a[1..] + b;
      RemoveAllConcat(a[1..], b, c);
    }
  }

  predicate IsSeparator(c: char) { c == '\\' || c == '/' }

  /** A drive letter: an ASCII letter of either case. */
  predicate IsDriveLetter(c: char) { 'A' <= c <= 'Z' || 'a' <= c <= 'z' }

  /** `Path.IsPathRooted` on Windows: a leading separator or a drive letter and `:`. */
  predicate IsRooted(path: string) {
    (|path| >= 1 && IsSeparator(path[0])) || (|path| >= 2 && IsDriveLetter(path[0]) && path[1] == ':')
  }

  /** `Path.Combine(dir, name)` on Windows (.NET Core rules). */
  function PathCombine(dir: string, name: string): (r: string)
    ensures name != [] ==> EndsWith(r, name)
    ensures dir != [] && name != [] && !IsRooted(name) ==> StartsWith(r, dir)
  {
    if dir == [] then name
    else if name == [] then dir
    else if IsRooted(name) then name
    else if IsSeparator(dir[|dir| - 1]) || IsSeparator(name[0]) then dir + name
    else dir + "\\" + name
  }

  /** `Path.Combine` adds no character but the backslash separator. */
  lemma PathCombineKeepsOut(dir: string, name: string, c: char)
    requires c !in dir && c !in name && c != '\\'
    ensures c !in PathCombine(dir, name)
  {
    if dir != [] && name != [] && !IsRooted(name) && !(IsSeparator(dir[|dir| - 1]) || IsSeparator(name[0])) {
      assert PathCombine(dir, name) == dir + "\\" + name;
    }
  }
}
