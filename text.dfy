/**
 * ASCII models of the Python string operations the parser uses:
 * character classes of `re` (`\d`, `\w`, `\s`), `lower()`, `title()`,
 * `startswith`/`endswith`, `in`, `find`, `strip` and `splitlines()`.
 */
module Text {
  import opened Wrappers

  // ---------------------------------------------------------------------
  // Character classes

  /** `\d`: an ASCII decimal digit. */
  predicate IsDigit(c: char) { '0' <= c <= '9' }

  predicate IsUpper(c: char) { 'A' <= c <= 'Z' }

  predicate IsLower(c: char) { 'a' <= c <= 'z' }

  /** A cased character in the sense of `str.title()`. */
  predicate IsLetter(c: char) { IsUpper(c) || IsLower(c) }

  /** `\w`: a letter, a digit or the underscore. */
  predicate IsWordChar(c: char) { IsLetter(c) || IsDigit(c) || c == '_' }

  /** `[\w\-]`: the characters of a token. */
  predicate IsTokenChar(c: char) { IsWordChar(c) || c == '-' }

  /** `\s`, and what `str.strip()` removes: space, TAB to CR, and the separators 0x1C-0x1F. */
  predicate IsSpace(c: char) {
    var n := c as int;
    n == 32 || 9 <= n <= 13 || 28 <= n <= 31
  }

  /** The characters at which `str.splitlines()` ends a line. */
  predicate IsLineBreak(c: char) {
    var n := c as int;
    10 <= n <= 13 || 28 <= n <= 30 || n == 0x85 || n == 0x2028 || n == 0x2029
  }

  /** What `str.strip()` removes: the characters `\s` stands for. */
  const Whitespace: set<char> := {' ', '\t', '\n', '\U{0B}', '\U{0C}', '\r', '\U{1C}', '\U{1D}', '\U{1E}', '\U{1F}'}

  lemma WhitespaceIsSpace(c: char)
    ensures c in Whitespace <==> IsSpace(c)
  {
  }

  /** The punctuation stripped from a token before it becomes a candidate. */
  const TokenPunctuation: set<char> := {'.', ',', ';', ':', '\'', '"', '!', '?'}

  /** Whitespace and word characters are disjoint, which the pattern model relies on. */
  lemma SpaceIsNotWord(c: char)
    requires IsSpace(c)
    ensures !IsWordChar(c) && !IsTokenChar(c)
  {
  }

  // ---------------------------------------------------------------------
  // Case mapping

  function ToLower(c: char): char {
    if IsUpper(c) then (c as int + 32) as char else c
  }

  function ToUpper(c: char): char {
    if IsLower(c) then (c as int - 32) as char else c
  }

  /** `str.lower()` on ASCII. */
  function Lower(s: string): string {
    seq(|s|, i requires 0 <= i < |s| => ToLower(s[i]))
  }

  /**
   * `str.title()` on ASCII: a letter is upper-cased when the character before
   * it is not a letter, and lower-cased otherwise.
   */
  function Title(s: string): string {
    seq(|s|, i requires 0 <= i < |s| => if i > 0 && IsLetter(s[i - 1]) then ToLower(s[i]) else ToUpper(s[i]))
  }

  /** Folding case after title-casing is folding case. */
  lemma LowerOfTitle(s: string)
    ensures Lower(Title(s)) == Lower(s)
  {
    assert forall i | 0 <= i < |s| :: Lower(Title(s))[i] == Lower(s)[i];
  }

  lemma LowerIdempotent(s: string)
    ensures Lower(Lower(s)) == Lower(s)
  {
    assert forall i | 0 <= i < |s| :: Lower(Lower(s))[i] == Lower(s)[i];
  }

  lemma LowerAppend(a: string, b: string)
    ensures Lower(a + b) == Lower(a) + Lower(b)
  {
    assert forall i | 0 <= i < |a + b| :: Lower(a + b)[i] == (Lower(a) + Lower(b))[i];
  }

  lemma LowerSlice(s: string, i: nat, j: nat)
    requires i <= j <= |s|
    ensures Lower(s[i..j]) == Lower(s)[i..j]
  {
    assert forall k | 0 <= k < j - i :: Lower(s[i..j])[k] == Lower(s)[i..j][k];
  }

  /** Upper-case letters are the only characters `Lower` changes. */
  lemma LowerKeeps(c: char)
    requires !IsUpper(c)
    ensures ToLower(c) == c
  {
  }

  // ---------------------------------------------------------------------
  // Prefixes, suffixes and substrings

  predicate StartsWith(s: string, prefix: string) {
    |prefix| <= |s| && s[..|prefix|] == prefix
  }

  /** `s.endswith('s')`. */
  predicate EndsWithS(s: string) {
    |s| > 0 && s[|s| - 1] == 's'
  }

  predicate OccursAt(s: string, sub: string, i: nat) {
    i + |sub| <= |s| && s[i..i + |sub|] == sub
  }

  /** The first index at or after `from` where `sub` occurs in `s`. */
  function Find(s: string, sub: string, from: nat): (r: Option<nat>)
    requires from <= |s|
    ensures r.Some? ==> from <= r.value && OccursAt(s, sub, r.value)
    ensures r.Some? ==> forall j :: from <= j < r.value ==> !OccursAt(s, sub, j)
    ensures r.None? ==> forall j :: from <= j ==> !OccursAt(s, sub, j)
    decreases |s| - from
  {
    if OccursAt(s, sub, from) then Some(from)
    else if from == |s| then None
    else Find(s, sub, from + 1)
  }

  /** Python's `sub in s`. */
  predicate Contains(s: string, sub: string) {
    Find(s, sub, 0).Some?
  }

  lemma ContainsIff(s: string, sub: string)
    ensures Contains(s, sub) <==> exists j :: OccursAt(s, sub, j)
  {
    if Contains(s, sub) {
      assert OccursAt(s, sub, Find(s, sub, 0).value);
    }
  }

  /**
   * `s.split(sep)[1]` for an `s` that starts with `sep`: the text after the
   * leading `sep` up to the next occurrence of `sep`, or to the end.
   */
  function SecondPiece(s: string, sep: string): (r: string)
    requires |sep| > 0 && StartsWith(s, sep)
    ensures StartsWith(s[|sep|..], r)
    ensures forall j :: 0 <= j < |r| ==> !OccursAt(s[|sep|..], sep, j)
    ensures Contains(s[|sep|..], sep) ==> OccursAt(s[|sep|..], sep, |r|)
    ensures !Contains(s[|sep|..], sep) ==> r == s[|sep|..]
  {
    var rest := s[|sep|..];
    match Find(rest, sep, 0)
    case Some(i) => rest[..i]
    case None => rest
  }

  // ---------------------------------------------------------------------
  // strip

  /** The character classes the patterns match runs of. */
  datatype CharClass = Digits | WordChars | TokenChars | Spaces {

    predicate Has(c: char) {
      match this
      case Digits => IsDigit(c)
      case WordChars => IsWordChar(c)
      case TokenChars => IsTokenChar(c)
      case Spaces => IsSpace(c)
    }
  }

  /** The length of the longest run of `cls` characters starting at `i`. */
  function Run(s: string, i: nat, cls: CharClass): (n: nat)
    requires i <= |s|
    ensures i + n <= |s|
    ensures forall k :: i <= k < i + n ==> cls.Has(s[k])
    ensures i + n < |s| ==> !cls.Has(s[i + n])
    decreases |s| - i
  {
    if i < |s| && cls.Has(s[i]) then 1 + Run(s, i + 1, cls) else 0
  }

  /** Where the longest run of `cls` characters starting at `i` ends. */
  function RunEnd(s: string, i: nat, cls: CharClass): (j: nat)
    requires i <= |s|
    ensures i <= j <= |s| && AllOf(s, i, j, cls) && (j < |s| ==> !cls.Has(s[j]))
  {
    i + Run(s, i, cls)
  }

  /** Every character of `s[a..b]` is of class `cls`. */
  predicate AllOf(s: string, a: nat, b: nat, cls: CharClass) {
    a <= b <= |s| && forall k :: a <= k < b ==> cls.Has(s[k])
  }

  /** A run of `cls` characters is at least as long as any stretch of them. */
  lemma RunCovers(s: string, i: nat, j: nat, cls: CharClass)
    requires AllOf(s, i, j, cls)
    ensures Run(s, i, cls) >= j - i
  {
  }

  /** A stretch of `cls` characters followed by none is the run. */
  lemma RunEnds(s: string, i: nat, j: nat, cls: CharClass)
    requires AllOf(s, i, j, cls) && (j < |s| ==> !cls.Has(s[j]))
    ensures Run(s, i, cls) == j - i && RunEnd(s, i, cls) == j
  {
    RunCovers(s, i, j, cls);
  }

  /**
   * `s.strip(chars)`: drop the leading and then the trailing characters in
   * `drop`. What is left neither starts nor ends with one.
   */
  function Strip(s: string, drop: set<char>): (r: string)
    ensures |r| <= |s|
    ensures r != [] ==> r[0] !in drop && r[|r| - 1] !in drop
    decreases |s|
  {
    if |s| > 0 && s[0] in drop then Strip(s[1..], drop)
    else if |s| > 0 && s[|s| - 1] in drop then Strip(s[..|s| - 1], drop)
    else s
  }

  /** The stripped text is `s` without a prefix and a suffix made only of `drop` characters. */
  lemma StripIsSlice(s: string, drop: set<char>)
    ensures exists a: nat, b: nat :: a <= b <= |s| && Strip(s, drop) == s[a..b]
              && (forall k :: 0 <= k < a ==> s[k] in drop) && (forall k :: b <= k < |s| ==> s[k] in drop)
  {
    var a, b := StripBounds(s, drop);
  }

  /** Where the stripped text starts and ends in `s`. */
  lemma {:induction false} StripBounds(s: string, drop: set<char>) returns (a: nat, b: nat)
    ensures a <= b <= |s| && Strip(s, drop) == s[a..b]
    ensures forall k :: 0 <= k < a ==> s[k] in drop
    ensures forall k :: b <= k < |s| ==> s[k] in drop
    decreases |s|
  {
    if |s| > 0 && s[0] in drop {
      a, b := StripBounds(s[1..], drop);
      a, b := ShiftBounds(s, s[1..], drop, a, b);
    } else if |s| > 0 && s[|s| - 1] in drop {
      a, b := StripBounds(s[..|s| - 1], drop);
      ExtendBounds(s, s[..|s| - 1], drop, a, b);
    } else {
      a, b := 0, |s|;
    }
  }

  /** Bounds in `t == s[1..]` are, one further on, bounds in `s` when `s[0]` is dropped. */
  lemma ShiftBounds(s: string, t: string, drop: set<char>, a: nat, b: nat) returns (a': nat, b': nat)
    requires |s| > 0 && s[0] in drop && t == s[1..]
    requires a <= b <= |t| && Strip(t, drop) == t[a..b]
    requires forall k :: 0 <= k < a ==> t[k] in drop
    requires forall k :: b <= k < |t| ==> t[k] in drop
    ensures a' == a + 1 && b' == b + 1 && Strip(s, drop) == s[a'..b']
    ensures forall k :: 0 <= k < a' ==> s[k] in drop
    ensures forall k :: b' <= k < |s| ==> s[k] in drop
  {
    a', b' := a + 1, b + 1;
    assert t[a..b] == s[a'..b'];
    forall k | 0 < k < a' ensures s[k] in drop {
      assert s[k] == t[k - 1];
    }
    forall k | b' <= k < |s| ensures s[k] in drop {
      assert s[k] == t[k - 1];
    }
  }

  /** Bounds in `t == s[..|s| - 1]` are bounds in `s` when its last character is dropped. */
  lemma ExtendBounds(s: string, t: string, drop: set<char>, a: nat, b: nat)
    requires |s| > 0 && s[0] !in drop && s[|s| - 1] in drop && t == s[..|s| - 1]
    requires a <= b <= |t| && Strip(t, drop) == t[a..b]
    requires forall k :: 0 <= k < a ==> t[k] in drop
    requires forall k :: b <= k < |t| ==> t[k] in drop
    ensures Strip(s, drop) == s[a..b]
    ensures forall k :: 0 <= k < a ==> s[k] in drop
    ensures forall k :: b <= k < |s| ==> s[k] in drop
  {
    assert a == 0;
    assert Strip(s, drop) == Strip(t, drop);
    assert t[a..b] == s[a..b];
    forall k | b <= k < |t| ensures s[k] in drop {
      assert s[k] == t[k];
    }
  }

  /** A string none of whose characters may be dropped is left unchanged by `strip`. */
  lemma StripNothing(s: string, drop: set<char>)
    requires forall k :: 0 <= k < |s| ==> s[k] !in drop
    ensures Strip(s, drop) == s
  {
  }

  // ---------------------------------------------------------------------
  // splitlines

  /** The index of the first line break in `s`, or `|s|`. */
  function LineEnd(s: string): (i: nat)
    ensures i <= |s|
    ensures forall k :: 0 <= k < i ==> !IsLineBreak(s[k])
    ensures i < |s| ==> IsLineBreak(s[i])
  {
    if s == [] || IsLineBreak(s[0]) then 0 else 1 + LineEnd(s[1..])
  }

  /**
   * `str.splitlines()`: the lines of `s` without their terminators; `"\r\n"`
   * ends one line, and a final terminator does not start an empty line.
   */
  function SplitLines(s: string): (lines: seq<string>)
    ensures forall l :: l in lines ==> forall k :: 0 <= k < |l| ==> !IsLineBreak(l[k])
    decreases |s|
  {
    if s == [] then []
    else
      var i := LineEnd(s);
      if i == |s| then [s]
      else
        var skip := if s[i] == '\r' && i + 1 < |s| && s[i + 1] == '\n' then 2 else 1;
        [s[..i]] + SplitLines(s[i + skip..])
  }

  /** Break-free text. */
  predicate NoBreak(a: string) {
    forall k :: 0 <= k < |a| ==> !IsLineBreak(a[k])
  }

  /** The first line break of `a + [c] + b`, for break-free `a`, is `c`. */
  lemma LineEndAt(a: string, c: char, b: string)
    requires NoBreak(a) && IsLineBreak(c)
    ensures LineEnd(a + [c] + b) == |a|
  {
    var s := a + [c] + b;
    assert s[|a|] == c && forall k :: 0 <= k < |a| ==> s[k] == a[k];
  }

  /** A line ended by a single break character, other than the `\r` of a `\r\n`, then the lines after it. */
  lemma SplitLinesBreak(a: string, c: char, b: string)
    requires NoBreak(a) && IsLineBreak(c) && !(c == '\r' && b != [] && b[0] == '\n')
    ensures SplitLines(a + [c] + b) == [a] + SplitLines(b)
  {
    var s := a + [c] + b;
    LineEndAt(a, c, b);
    assert s[..|a|] == a;
    assert s[|a| + 1..] == b;
  }

  /** A line ended by `\r\n`, then the lines after it. */
  lemma SplitLinesCrLf(a: string, b: string)
    requires NoBreak(a)
    ensures SplitLines(a + "\r\n" + b) == [a] + SplitLines(b)
  {
    var s := a + "\r\n" + b;
    assert s == a + ['\r'] + (['\n'] + b);
    LineEndAt(a, '\r', ['\n'] + b);
    assert s[..|a|] == a;
    assert s[|a| + 2..] == b;
  }

  /** Break-free, non-empty text is one line; empty text has none. */
  lemma SplitLinesLast(a: string)
    requires NoBreak(a)
    ensures SplitLines(a) == (if a == [] then [] else [a])
  {
  }
}
