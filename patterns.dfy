/**
 * Character-level models of the four regular expressions the parser compiles
 * and of `re.finditer`, which scans them leftmost-first and without overlap.
 *
 * Each matcher follows the backtracking order of Python's `re` for its
 * pattern. Because `\s` and `\w` (and `[\w\-]`) share no character, a greedy
 * run of digits, word characters or token characters can only be followed
 * by `\s` when it is taken whole, so those runs are never shortened; the
 * runs of whitespace are, and the matchers try them from longest to shortest.
 */
module Patterns {
  import opened Wrappers
  import opened Text

  /** A half-open range `[start, end)` of character positions. */
  datatype Span = Span(start: nat, end: nat)

  /** A match: its whole span and the spans of its capturing groups. */
  datatype Match = Match(span: Span, groups: seq<Span>)

  datatype Pattern =
    | Quantity(key: string)   // \b(\d+)\s+(?:\w+\s+)?KEY\b   with re.IGNORECASE
    | Bare(key: string)       // \bKEY\b                      with re.IGNORECASE
    | Conjunction             // \b([\w\-]+)\s+and\s+([\w\-]+)\b  with re.IGNORECASE
    | Token                   // [\w\-]+

  predicate WordBefore(s: string, i: nat) { 0 < i <= |s| && IsWordChar(s[i - 1]) }

  predicate WordAt(s: string, i: nat) { i < |s| && IsWordChar(s[i]) }

  /** `\b` at position `i`. */
  predicate Boundary(s: string, i: nat) { WordBefore(s, i) != WordAt(s, i) }

  /** The escaped key matches at `i`, ignoring ASCII case. */
  predicate KeyAt(s: string, i: nat, key: string) {
    i + |key| <= |s| && KeyPrefixAt(s, i, key, |key|)
  }

  /** The first `n` characters of the key match at `i`, ignoring ASCII case. */
  predicate KeyPrefixAt(s: string, i: nat, key: string, n: nat)
    requires n <= |key| && i + |key| <= |s|
    decreases n
  {
    n == 0 || (KeyPrefixAt(s, i, key, n - 1) && ToLower(s[i + n - 1]) == ToLower(key[n - 1]))
  }

  /** `KEY\b` at `i`. */
  predicate KeyThenBoundary(s: string, i: nat, key: string) {
    KeyAt(s, i, key) && Boundary(s, i + |key|)
  }

  /**
   * The key position chosen when `\s+` over `s[base..base + n]` backtracks:
   * the first of `base + n`, `base + n - 1`, ..., `base + 1` where `KEY\b` matches.
   */
  function KeyAfterSpaces(s: string, base: nat, n: nat, key: string): (t: Option<nat>)
    requires base + n <= |s|
    requires forall k :: base <= k < base + n ==> IsSpace(s[k])
    ensures t.Some? ==> base < t.value <= base + n && IsSpace(s[t.value - 1])
    ensures t.Some? ==> KeyThenBoundary(s, t.value, key)
    decreases n
  {
    if n == 0 then None
    else if KeyThenBoundary(s, base + n, key) then Some(base + n)
    else KeyAfterSpaces(s, base, n - 1, key)
  }

  /**
   * `(?:\w+\s+)KEY\b` at `r`: a word, then whitespace given back from its
   * end until the key with `\b` after it follows.
   */
  function ViaWord(s: string, r: nat, key: string): (t: Option<nat>)
    requires r <= |s|
    ensures t.Some? ==> r < t.value && KeyThenBoundary(s, t.value, key) && IsSpace(s[t.value - 1])
  {
    var b := RunEnd(s, r, WordChars);
    if b == r then None else KeyAfterSpaces(s, b, Run(s, b, Spaces), key)
  }

  /**
   * Where the key starts after the whitespace at `q` in a quantity match:
   * after a filler word when there is one, else right after the whitespace,
   * else at an earlier point of it, backtracking from the longest.
   */
  function KeyStart(s: string, q: nat, key: string): (t: Option<nat>)
    requires q < |s| && IsSpace(s[q])
    ensures t.Some? ==> q < t.value && KeyThenBoundary(s, t.value, key) && IsSpace(s[t.value - 1])
  {
    var r := RunEnd(s, q, Spaces);
    match ViaWord(s, r, key)
    case Some(t) => Some(t)
    case None =>
      if KeyThenBoundary(s, r, key) then Some(r)
      else KeyAfterSpaces(s, q, r - q - 1, key)
  }

  /**
   * Where the digits of the group end in a match of the quantity pattern at
   * `i`, and where the key starts.
   */
  function QuantityParts(s: string, i: nat, key: string): (r: Option<(nat, nat)>)
    requires i <= |s|
    ensures r.Some? ==> var (q, t) := r.value;
      i < q < t && t + |key| <= |s|
      && (forall k :: i <= k < q ==> IsDigit(s[k]))
      && (q < |s| ==> !IsDigit(s[q]))
      && IsSpace(s[q]) && IsSpace(s[t - 1])
      && Boundary(s, i) && KeyThenBoundary(s, t, key)
  {
    if !Boundary(s, i) then None
    else
      var q := RunEnd(s, i, Digits);
      if q == i || q == |s| || !IsSpace(s[q]) then None
      else
        match KeyStart(s, q, key)
        case None => None
        case Some(t) => Some((q, t))
  }

  /** The second group of the conjunction pattern: the longest prefix of a token run ending at `\b`. */
  function LastBoundary(s: string, b: nat, n: nat): (e: nat)
    requires b + n <= |s|
    ensures e <= n
    ensures e > 0 ==> Boundary(s, b + e)
    ensures forall j :: b + e < j <= b + n ==> !Boundary(s, j)
    decreases n
  {
    if n == 0 then 0
    else if Boundary(s, b + n) then n
    else LastBoundary(s, b, n - 1)
  }

  /** A quantity match: its one group is the run of digits it starts with. */
  predicate QuantityShape(s: string, m: Match) {
    && m.span.end <= |s| && |m.groups| == 1
    && m.groups[0].start == m.span.start < m.groups[0].end < m.span.end
    && forall k :: m.groups[0].start <= k < m.groups[0].end ==> IsDigit(s[k])
  }

  /** A conjunction match: two groups of token characters, the second ending the match. */
  predicate ConjunctionShape(s: string, m: Match) {
    && m.span.end <= |s| && |m.groups| == 2
    && m.span.start == m.groups[0].start < m.groups[0].end < m.groups[1].start < m.groups[1].end == m.span.end
    && (forall k :: m.groups[0].start <= k < m.groups[0].end ==> IsTokenChar(s[k]))
    && (forall k :: m.groups[1].start <= k < m.groups[1].end ==> IsTokenChar(s[k]))
  }

  /** A token match: a non-empty run of token characters and no groups. */
  predicate TokenShape(s: string, m: Match) {
    && m.span.start < m.span.end <= |s| && m.groups == []
    && forall k :: m.span.start <= k < m.span.end ==> IsTokenChar(s[k])
  }

  /** What every match of `pattern` in `s` looks like. */
  predicate Shaped(pattern: Pattern, s: string, m: Match) {
    match pattern
    case Quantity(_) => QuantityShape(s, m)
    case Bare(key) => m.groups == [] && m.span.end == m.span.start + |key| <= |s|
    case Conjunction => ConjunctionShape(s, m)
    case Token => TokenShape(s, m)
  }

  /** The match of `\b(\d+)\s+(?:\w+\s+)?KEY\b` at `i`; its group is the digits. */
  function QuantityMatchAt(s: string, i: nat, key: string): (r: Option<Match>)
    requires i <= |s|
    ensures r.Some? ==> r.value.span.start == i && QuantityShape(s, r.value)
  {
    match QuantityParts(s, i, key)
    case None => None
    case Some((q, t)) => Some(Match(Span(i, t + |key|), [Span(i, q)]))
  }

  /** The match of `\bKEY\b` at `i`. */
  function BareMatchAt(s: string, i: nat, key: string): (r: Option<Match>)
    requires i <= |s|
    ensures r.Some? ==> r.value == Match(Span(i, i + |key|), []) && i + |key| <= |s|
  {
    if Boundary(s, i) && KeyThenBoundary(s, i, key) then Some(Match(Span(i, i + |key|), [])) else None
  }

  /** `and\s+([\w\-]+)\b` at `a`, in any case: the span of the group. */
  function SecondGroup(s: string, a: nat): (g: Option<Span>)
    requires a <= |s|
    ensures g.Some? ==> a + 3 < g.value.start < g.value.end <= |s|
                        && forall k :: g.value.start <= k < g.value.end ==> IsTokenChar(s[k])
  {
    if !(a + 3 <= |s| && Lower(s[a..a + 3]) == "and") then None
    else
      var b := RunEnd(s, a + 3, Spaces);
      var e := LastBoundary(s, b, Run(s, b, TokenChars));
      if b == a + 3 || e == 0 then None else Some(Span(b, b + e))
  }

  /** The match of `\b([\w\-]+)\s+and\s+([\w\-]+)\b` at `i`, with its two groups. */
  function ConjunctionMatchAt(s: string, i: nat): (r: Option<Match>)
    requires i <= |s|
    ensures r.Some? ==> r.value.span.start == i && ConjunctionShape(s, r.value)
  {
    if !Boundary(s, i) then None
    else
      var g := RunEnd(s, i, TokenChars);
      var a := RunEnd(s, g, Spaces);
      if g == i || a == g then None
      else
        match SecondGroup(s, a)
        case None => None
        case Some(second) => Some(Match(Span(i, second.end), [Span(i, g), second]))
  }

  /** The match of `[\w\-]+` at `i`. */
  function TokenMatchAt(s: string, i: nat): (r: Option<Match>)
    requires i <= |s|
    ensures r.Some? ==> r.value.span.start == i && TokenShape(s, r.value)
  {
    var l := Run(s, i, TokenChars);
    if l == 0 then None else Some(Match(Span(i, i + l), []))
  }

  /** The match of `pattern` that starts exactly at `i`, if any. */
  function MatchAt(pattern: Pattern, s: string, i: nat): (r: Option<Match>)
    requires i <= |s|
    ensures r.Some? ==> r.value.span.start == i <= r.value.span.end <= |s| && Shaped(pattern, s, r.value)
  {
    match pattern
    case Quantity(key) => QuantityMatchAt(s, i, key)
    case Bare(key) => BareMatchAt(s, i, key)
    case Conjunction => ConjunctionMatchAt(s, i)
    case Token => TokenMatchAt(s, i)
  }

  /** The match of `pattern` at each of the positions `0 .. n - 1` of `s`. */
  function TableUpTo(pattern: Pattern, s: string, n: nat): (t: seq<Option<Match>>)
    requires n <= |s| + 1
    ensures |t| == n && TableShaped(pattern, s, t)
    decreases n, 1
  {
    if n == 0 then [] else Extend(pattern, s, n - 1)
  }

  /** The table of the positions before `i`, extended by the match at `i`. */
  function Extend(pattern: Pattern, s: string, i: nat): (t: seq<Option<Match>>)
    requires i <= |s|
    ensures |t| == i + 1 && TableShaped(pattern, s, t)
    decreases i + 1, 0
  {
    TableUpTo(pattern, s, i) + [MatchAt(pattern, s, i)]
  }

  /** Every entry of the table is a match of `pattern` at its own position. */
  predicate TableShaped(pattern: Pattern, s: string, t: seq<Option<Match>>) {
    forall i :: 0 <= i < |t| && t[i].Some? ==>
      t[i].value.span.start == i <= t[i].value.span.end <= |s| && Shaped(pattern, s, t[i].value)
  }

  /** Entry `i` of the table is the match at `i`. */
  lemma TableEntry(pattern: Pattern, s: string, n: nat, i: nat)
    requires i < n <= |s| + 1
    ensures TableUpTo(pattern, s, n)[i] == MatchAt(pattern, s, i)
  {
    var t := TableUpTo(pattern, s, n);
    TablePrefix(pattern, s, n, i + 1);
    TableLast(pattern, s, i);
    assert t[i] == t[..i + 1][i];
  }

  /** The last entry of the table of the positions up to `i` is the match at `i`. */
  lemma TableLast(pattern: Pattern, s: string, i: nat)
    requires i <= |s|
    ensures TableUpTo(pattern, s, i + 1)[i] == MatchAt(pattern, s, i)
  {
    assert TableUpTo(pattern, s, i + 1) == TableUpTo(pattern, s, i) + [MatchAt(pattern, s, i)];
  }

  /** A shorter table is a prefix of a longer one. */
  lemma {:induction false} TablePrefix(pattern: Pattern, s: string, n: nat, m: nat)
    requires m <= n <= |s| + 1
    ensures TableUpTo(pattern, s, n)[..m] == TableUpTo(pattern, s, m)
    decreases n
  {
    if m < n {
      var init := TableUpTo(pattern, s, n - 1);
      assert TableUpTo(pattern, s, n) == Extend(pattern, s, n - 1);
      assert TableUpTo(pattern, s, n)[..n - 1] == init;
      TablePrefix(pattern, s, n - 1, m);
      assert TableUpTo(pattern, s, n)[..m] == init[..m];
    }
  }

  /** The match of `pattern` at every position of `s`, end of text included. */
  function MatchTable(pattern: Pattern, s: string): (t: seq<Option<Match>>)
    ensures |t| == |s| + 1 && WellFormed(t)
    ensures forall i :: 0 <= i < |t| && t[i].Some? ==> Shaped(pattern, s, t[i].value)
  {
    TableUpTo(pattern, s, |s| + 1)
  }

  /** A table of matches by start position: each match starts where it is listed and ends within the text. */
  predicate WellFormed(t: seq<Option<Match>>) {
    forall i :: 0 <= i < |t| && t[i].Some? ==> t[i].value.span.start == i <= t[i].value.span.end < |t|
  }

  /**
   * The scan of `re.finditer` from position `from`: the leftmost match, then
   * the search goes on at its end (one further if it was empty).
   */
  function Scan(t: seq<Option<Match>>, from: nat): (r: seq<Match>)
    requires WellFormed(t)
    ensures forall k :: 0 <= k < |r| ==> from <= r[k].span.start < |t| && t[r[k].span.start] == Some(r[k])
    decreases |t| - from
  {
    if from >= |t| then []
    else
      match t[from]
      case None => Scan(t, from + 1)
      case Some(m) => [m] + Scan(t, if m.span.end > from then m.span.end else from + 1)
  }

  /** `pattern.finditer(s)`. */
  function FindIter(pattern: Pattern, s: string): (r: seq<Match>)
    ensures forall m :: m in r ==> m.span.start <= m.span.end <= |s| && Shaped(pattern, s, m)
  {
    var t := MatchTable(pattern, s);
    var r := Scan(t, 0);
    assert forall m :: m in r ==> m.span.start <= m.span.end <= |s| && Shaped(pattern, s, m) by {
      forall m | m in r ensures m.span.start <= m.span.end <= |s| && Shaped(pattern, s, m) {
        var k :| 0 <= k < |r| && r[k] == m;
        assert t[m.span.start] == Some(m);
      }
    }
    r
  }

  /** Each match `finditer` yields is the match of the pattern at its start. */
  lemma FindIterMatchAt(pattern: Pattern, s: string, m: Match)
    requires m in FindIter(pattern, s)
    ensures m.span.start <= |s| && MatchAt(pattern, s, m.span.start) == Some(m)
  {
    ScanEntry(MatchTable(pattern, s), 0, m);
    TableEntry(pattern, s, |s| + 1, m.span.start);
  }

  /** A match of the scan is the table's entry at its start. */
  lemma ScanEntry(t: seq<Option<Match>>, from: nat, m: Match)
    requires WellFormed(t) && m in Scan(t, from)
    ensures m.span.start < |t| && t[m.span.start] == Some(m)
  {
    var r := Scan(t, from);
    var k :| 0 <= k < |r| && r[k] == m;
  }

  /** A scan's matches come in order of position and do not overlap. */
  predicate Ordered(r: seq<Match>) {
    forall j, k :: 0 <= j < k < |r| ==> r[j].span.start < r[k].span.start && r[j].span.end <= r[k].span.start
  }

  /** A match before all of an ordered sequence extends it. */
  lemma OrderedCons(m: Match, tail: seq<Match>)
    requires Ordered(tail) && m.span.start <= m.span.end
    requires forall k :: 0 <= k < |tail| ==> m.span.end <= tail[k].span.start && m.span.start < tail[k].span.start
    ensures Ordered([m] + tail)
  {
    var r := [m] + tail;
    forall j, k | 0 <= j < k < |r|
      ensures r[j].span.start < r[k].span.start && r[j].span.end <= r[k].span.start
    {
      assert r[k] == tail[k - 1];
      if j > 0 {
        assert r[j] == tail[j - 1];
      }
    }
  }

  lemma {:induction false} ScanOrdered(t: seq<Option<Match>>, from: nat)
    requires WellFormed(t)
    ensures Ordered(Scan(t, from))
    decreases |t| - from
  {
    if from < |t| {
      match t[from]
      case None =>
        ScanOrdered(t, from + 1);
        assert Scan(t, from) == Scan(t, from + 1);
      case Some(m) =>
        var next := if m.span.end > from then m.span.end else from + 1;
        ScanOrdered(t, next);
        var tail := Scan(t, next);
        assert Scan(t, from) == [m] + tail;
        assert m.span.start == from <= m.span.end <= next;
        OrderedCons(m, tail);
    }
  }

  /** Position `x` starts one of the matches `r`, or lies inside one. */
  predicate Covers(r: seq<Match>, x: nat) {
    exists k :: 0 <= k < |r| && r[k].span.start <= x && (x == r[k].span.start || x < r[k].span.end)
  }

  /**
   * A scan misses no match except inside one it has taken: every position
   * where there is a match starts a match of the scan or lies within one.
   */
  lemma {:induction false} ScanLeftmost(t: seq<Option<Match>>, from: nat, x: nat)
    requires WellFormed(t)
    requires from <= x < |t| && t[x].Some?
    ensures Covers(Scan(t, from), x)
    decreases |t| - from
  {
    match t[from]
    case None =>
      ScanLeftmost(t, from + 1, x);
      assert Scan(t, from) == Scan(t, from + 1);
    case Some(m) =>
      var next := if m.span.end > from then m.span.end else from + 1;
      if !(x == from || x < m.span.end) {
        ScanLeftmost(t, next, x);
      }
      assert Scan(t, from) == [m] + Scan(t, next);
      CoversCons(m, Scan(t, next), x);
  }

  /** A position covered by `tail`, or by `m` itself, is covered once `m` is put before `tail`. */
  lemma CoversCons(m: Match, tail: seq<Match>, x: nat)
    requires Covers(tail, x) || (m.span.start <= x && (x == m.span.start || x < m.span.end))
    ensures Covers([m] + tail, x)
  {
    var r := [m] + tail;
    if Covers(tail, x) {
      var k :| 0 <= k < |tail| && tail[k].span.start <= x && (x == tail[k].span.start || x < tail[k].span.end);
      assert r[k + 1] == tail[k];
    } else {
      assert r[0] == m;
    }
  }

  /** `finditer` yields its matches in order of position, without overlap. */
  lemma FindIterOrdered(pattern: Pattern, s: string)
    ensures Ordered(FindIter(pattern, s))
  {
    var t := MatchTable(pattern, s);
    ScanOrdered(t, 0);
  }

  /** Every place where the pattern matches starts a match `finditer` yields or lies inside one. */
  lemma FindIterLeftmost(pattern: Pattern, s: string, x: nat)
    requires x <= |s| && MatchAt(pattern, s, x).Some?
    ensures Covers(FindIter(pattern, s), x)
  {
    var t := MatchTable(pattern, s);
    TableEntry(pattern, s, |s| + 1, x);
    ScanLeftmost(t, 0, x);
  }

  // -----------------------------------------------------------------------
  // What a match of each pattern consists of

  /** `KEY` at `i` under `re.IGNORECASE`: the text there, case folded, is the key case folded. */
  predicate KeyOccursAt(s: string, i: nat, key: string) {
    i + |key| <= |s| && Lower(s[i..i + |key|]) == Lower(key)
  }

  lemma {:induction false} KeyPrefixIff(s: string, i: nat, key: string, n: nat)
    requires n <= |key| && i + |key| <= |s|
    ensures KeyPrefixAt(s, i, key, n) <==> forall k :: 0 <= k < n ==> ToLower(s[i + k]) == ToLower(key[k])
    decreases n
  {
    if n > 0 {
      KeyPrefixIff(s, i, key, n - 1);
    }
  }

  /** The character-by-character comparison of the matcher is the case-folded comparison of the text. */
  lemma KeyAtIff(s: string, i: nat, key: string)
    ensures KeyAt(s, i, key) <==> KeyOccursAt(s, i, key)
  {
    if i + |key| <= |s| {
      KeyPrefixIff(s, i, key, |key|);
      var w := s[i..i + |key|];
      assert forall k :: 0 <= k < |key| ==> Lower(w)[k] == ToLower(s[i + k]) && Lower(key)[k] == ToLower(key[k]);
    }
  }

  /**
   * A bare match is exactly an occurrence of the key, in any case, with `\b`
   * on both sides.
   */
  lemma BareMatchIff(s: string, key: string, i: nat)
    requires i <= |s|
    ensures BareMatchAt(s, i, key).Some? <==>
              && Boundary(s, i)
              && i + |key| <= |s| && Lower(s[i..i + |key|]) == Lower(key)
              && Boundary(s, i + |key|)
  {
    KeyAtIff(s, i, key);
  }

  /**
   * `\s+(?:\w+\s+)?` matches `s[q..t]`: whitespace `s[q..a]`, then either
   * nothing more (`a == b == t`) or the word `s[a..b]` and whitespace `s[b..t]`.
   */
  predicate FillerAt(s: string, q: nat, a: nat, b: nat, t: nat) {
    q < a && AllOf(s, q, a, Spaces) && AllOf(s, a, b, WordChars) && AllOf(s, b, t, Spaces) && (a == b <==> b == t)
  }

  /**
   * `\b(\d+)\s+(?:\w+\s+)?KEY\b` matches `s[i..t + |key|]`, with the group
   * `s[i..q]` and the filler `s[q..t]`.
   */
  predicate QuantityFormAt(s: string, i: nat, key: string, q: nat, a: nat, b: nat, t: nat) {
    Boundary(s, i) && i < q && AllOf(s, i, q, Digits) && FillerAt(s, q, a, b, t)
    && KeyOccursAt(s, t, key) && Boundary(s, t + |key|)
  }

  /** The filler word after `r` in a quantity match with one. */
  lemma ViaWordForm(s: string, r: nat, key: string) returns (b: nat)
    requires r <= |s| && ViaWord(s, r, key).Some?
    ensures var t := ViaWord(s, r, key).value; r < b < t && AllOf(s, r, b, WordChars) && AllOf(s, b, t, Spaces)
  {
    b := RunEnd(s, r, WordChars);
  }

  /** Whitespace alone is a filler. */
  lemma SpacesFiller(s: string, q: nat, t: nat)
    requires q < t && AllOf(s, q, t, Spaces)
    ensures FillerAt(s, q, t, t, t)
  {
  }

  /** The filler that the key position chosen after `q` leaves. */
  lemma KeyStartForm(s: string, q: nat, key: string) returns (a: nat, b: nat)
    requires q < |s| && IsSpace(s[q]) && KeyStart(s, q, key).Some?
    ensures FillerAt(s, q, a, b, KeyStart(s, q, key).value)
  {
    var r := RunEnd(s, q, Spaces);
    var t := KeyStart(s, q, key).value;
    if ViaWord(s, r, key).Some? {
      a := r;
      b := ViaWordForm(s, r, key);
    } else {
      a, b := t, t;
      assert t <= r;
      SpacesFiller(s, q, t);
    }
  }

  /** Where the filler word of a quantity match lies. */
  lemma QuantityPartsForm(s: string, i: nat, key: string) returns (a: nat, b: nat)
    requires i <= |s| && QuantityParts(s, i, key).Some?
    ensures QuantityFormAt(s, i, key, QuantityParts(s, i, key).value.0, a, b, QuantityParts(s, i, key).value.1)
  {
    a, b := KeyStartForm(s, RunEnd(s, i, Digits), key);
    KeyAtIff(s, QuantityParts(s, i, key).value.1, key);
  }

  /**
   * A quantity match is the pattern's form: `\b`, the digits of its group,
   * whitespace with at most one word inside, and the key with `\b` after it
   * at the end of the match.
   */
  lemma QuantityMatchShape(s: string, key: string, i: nat)
    requires i <= |s| && QuantityMatchAt(s, i, key).Some?
    ensures var m := QuantityMatchAt(s, i, key).value;
            && |m.groups| == 1 && m.groups[0].start == i
            && exists a, b, t :: t + |key| == m.span.end && QuantityFormAt(s, i, key, m.groups[0].end, a, b, t)
  {
    var a, b := QuantityPartsForm(s, i, key);
  }

  /** The backtracking of `\s+` before the key finds any key position it passes over. */
  lemma {:induction false} KeyAfterSpacesFinds(s: string, base: nat, n: nat, key: string, t: nat)
    requires base + n <= |s| && forall k :: base <= k < base + n ==> IsSpace(s[k])
    requires base < t <= base + n && KeyThenBoundary(s, t, key)
    ensures KeyAfterSpaces(s, base, n, key).Some?
    decreases n
  {
    if !KeyThenBoundary(s, base + n, key) {
      KeyAfterSpacesFinds(s, base, n - 1, key, t);
    }
  }

  /** A filler word followed by whitespace and the key is matched by `(?:\w+\s+)KEY\b`. */
  lemma ViaWordComplete(s: string, r: nat, key: string, b: nat, t: nat)
    requires r < b < t && AllOf(s, r, b, WordChars) && AllOf(s, b, t, Spaces) && KeyThenBoundary(s, t, key)
    ensures ViaWord(s, r, key).Some?
  {
    SpaceIsNotWord(s[b]);
    RunEnds(s, r, b, WordChars);
    RunCovers(s, b, t, Spaces);
    KeyAfterSpacesFinds(s, b, Run(s, b, Spaces), key, t);
  }

  /** Whitespace followed by the key leads the quantity pattern to some key position. */
  lemma KeyStartSpacesComplete(s: string, q: nat, key: string, t: nat)
    requires q < t && AllOf(s, q, t, Spaces) && KeyThenBoundary(s, t, key)
    ensures KeyStart(s, q, key).Some?
  {
    RunCovers(s, q, t, Spaces);
    var r := RunEnd(s, q, Spaces);
    if t < r {
      KeyAfterSpacesFinds(s, q, r - q - 1, key, t);
    }
  }

  /** Whitespace, a word, whitespace and the key lead the quantity pattern to some key position. */
  lemma KeyStartWordComplete(s: string, q: nat, key: string, a: nat, b: nat, t: nat)
    requires q < a < b && AllOf(s, q, a, Spaces) && AllOf(s, a, b, WordChars)
    requires b < t && AllOf(s, b, t, Spaces) && KeyThenBoundary(s, t, key)
    ensures KeyStart(s, q, key).Some?
  {
    RunEnds(s, q, a, Spaces);
    ViaWordComplete(s, a, key, b, t);
  }

  /** Any filler followed by the key leads the quantity pattern to some key position. */
  lemma KeyStartComplete(s: string, q: nat, key: string, a: nat, b: nat, t: nat)
    requires FillerAt(s, q, a, b, t) && KeyThenBoundary(s, t, key)
    ensures q < |s| && IsSpace(s[q]) && KeyStart(s, q, key).Some?
  {
    if a == b {
      KeyStartSpacesComplete(s, q, key, t);
    } else {
      KeyStartWordComplete(s, q, key, a, b, t);
    }
  }

  /**
   * Wherever the text has the quantity pattern's form at `i`, the pattern
   * matches at `i`, and its group is the same digit run.
   */
  lemma QuantityMatchComplete(s: string, key: string, i: nat, q: nat, a: nat, b: nat, t: nat)
    requires i <= |s| && QuantityFormAt(s, i, key, q, a, b, t)
    ensures QuantityMatchAt(s, i, key).Some? && QuantityMatchAt(s, i, key).value.groups == [Span(i, q)]
  {
    KeyAtIff(s, t, key);
    KeyStartComplete(s, q, key, a, b, t);
    RunEnds(s, i, q, Digits);
  }

  /** `\b([\w\-]+)\s+` matches `s[i..a]`, with the group `s[i..g]`. */
  predicate FirstPartAt(s: string, i: nat, g: nat, a: nat) {
    Boundary(s, i) && i < g && AllOf(s, i, g, TokenChars) && g < a && AllOf(s, g, a, Spaces)
  }

  /** `and\s+([\w\-]+)\b` matches `s[a..e]`, in any case, with the group `s[b..e]`. */
  predicate SecondPartAt(s: string, a: nat, b: nat, e: nat) {
    a + 3 < b && AllOf(s, a + 3, b, Spaces) && Lower(s[a..a + 3]) == "and"
    && b < e && AllOf(s, b, e, TokenChars) && Boundary(s, e)
  }

  /**
   * `\b([\w\-]+)\s+and\s+([\w\-]+)\b` matches `s[i..e]`, with the groups
   * `s[i..g]` and `s[b..e]` and `and`, in any case, at `a`.
   */
  predicate ConjunctionFormAt(s: string, i: nat, g: nat, a: nat, b: nat, e: nat) {
    FirstPartAt(s, i, g, a) && SecondPartAt(s, a, b, e)
  }

  /**
   * What `and\s+([\w\-]+)\b` matches at `a`: `and` in any case, whitespace,
   * and the longest prefix of the following token run that ends at `\b`.
   */
  lemma SecondGroupForm(s: string, a: nat)
    requires a <= |s| && SecondGroup(s, a).Some?
    ensures var g := SecondGroup(s, a).value;
            && SecondPartAt(s, a, g.start, g.end)
            && forall j :: g.end < j <= |s| && AllOf(s, g.end, j, TokenChars) ==> !Boundary(s, j)
  {
    var g := SecondGroup(s, a).value;
    forall j | g.end < j <= |s| && AllOf(s, g.end, j, TokenChars) ensures !Boundary(s, j) {
      RunCovers(s, g.start, j, TokenChars);
    }
  }

  /**
   * A conjunction match is the pattern's form. Its first group is a whole
   * run of token characters, and its second group is the longest that
   * ends at `\b`.
   */
  lemma ConjunctionMatchShape(s: string, i: nat)
    requires i <= |s| && ConjunctionMatchAt(s, i).Some?
    ensures var m := ConjunctionMatchAt(s, i).value;
            && |m.groups| == 2 && m.groups[0].start == i && m.groups[1].end == m.span.end
            && (exists a :: ConjunctionFormAt(s, i, m.groups[0].end, a, m.groups[1].start, m.span.end))
            && (m.groups[0].end < |s| ==> !IsTokenChar(s[m.groups[0].end]))
            && forall j :: m.span.end < j <= |s| && AllOf(s, m.span.end, j, TokenChars) ==> !Boundary(s, j)
  {
    var g := RunEnd(s, i, TokenChars);
    var a := RunEnd(s, g, Spaces);
    SpaceIsNotWord(s[g]);
    SecondGroupForm(s, a);
    var second := SecondGroup(s, a).value;
    assert ConjunctionFormAt(s, i, g, a, second.start, second.end);
  }

  /**
   * `and`, whitespace and a token ending at `\b` are matched by
   * `and\s+([\w\-]+)\b`, with a group starting at the token and reaching
   * at least as far.
   */
  lemma SecondGroupComplete(s: string, a: nat, b: nat, e: nat)
    requires SecondPartAt(s, a, b, e)
    ensures SecondGroup(s, a).Some? && SecondGroup(s, a).value.start == b && e <= SecondGroup(s, a).value.end
  {
    RunEnds(s, a + 3, b, Spaces);
    RunCovers(s, b, e, TokenChars);
  }

  /** `and` is not whitespace, so the whitespace after the first group ends where it starts. */
  lemma FirstGroupComplete(s: string, i: nat, g: nat, a: nat, b: nat, e: nat)
    requires ConjunctionFormAt(s, i, g, a, b, e)
    ensures RunEnd(s, i, TokenChars) == g && RunEnd(s, g, Spaces) == a
  {
    SpaceIsNotWord(s[g]);
    RunEnds(s, i, g, TokenChars);
    assert ToLower(s[a]) == Lower(s[a..a + 3])[0] == 'a';
    RunEnds(s, g, a, Spaces);
  }

  /**
   * Wherever the text has the conjunction pattern's form at `i`, the pattern
   * matches at `i`, with the same first group, the second group starting at
   * the same place, and reaching at least as far.
   */
  lemma ConjunctionMatchComplete(s: string, i: nat, g: nat, a: nat, b: nat, e: nat)
    requires i <= |s| && ConjunctionFormAt(s, i, g, a, b, e)
    ensures ConjunctionMatchAt(s, i).Some?
    ensures var m := ConjunctionMatchAt(s, i).value;
            m.groups[0] == Span(i, g) && m.groups[1].start == b && e <= m.span.end
  {
    FirstGroupComplete(s, i, g, a, b, e);
    SecondGroupComplete(s, a, b, e);
  }

  /** A token match, which exists exactly at a token character, is a maximal run of token characters. */
  lemma TokenMatchShape(s: string, i: nat)
    requires i <= |s|
    ensures TokenMatchAt(s, i).Some? <==> i < |s| && IsTokenChar(s[i])
    ensures TokenMatchAt(s, i).Some? ==>
              var m := TokenMatchAt(s, i).value;
              && m.groups == [] && i < m.span.end && AllOf(s, i, m.span.end, TokenChars)
              && (m.span.end < |s| ==> !IsTokenChar(s[m.span.end]))
  {
  }

  /**
   * `re.findall(r'[\w\-]+', s)` yields exactly the maximal runs of token
   * characters: a token starts at `x` if and only if a run starts there.
   */
  lemma FindIterTokens(s: string, x: nat)
    requires x <= |s|
    ensures (exists m :: m in FindIter(Token, s) && m.span.start == x)
            <==> x < |s| && IsTokenChar(s[x]) && (x == 0 || !IsTokenChar(s[x - 1]))
  {
    var r := FindIter(Token, s);
    if exists m :: m in r && m.span.start == x {
      var m :| m in r && m.span.start == x;
      FindIterMatchAt(Token, s, m);
      TokenMatchShape(s, x);
      if x > 0 && IsTokenChar(s[x - 1]) {
        TokensDisjoint(s, m);
      }
    }
    if x < |s| && IsTokenChar(s[x]) && (x == 0 || !IsTokenChar(s[x - 1])) {
      TokenMatchShape(s, x);
      FindIterLeftmost(Token, s, x);
      var k :| 0 <= k < |r| && r[k].span.start <= x && (x == r[k].span.start || x < r[k].span.end);
      FindIterMatchAt(Token, s, r[k]);
      TokenMatchShape(s, r[k].span.start);
      assert r[k] in r;
    }
  }

  /** Of two matches in a scan, the one that starts first ends before the other starts. */
  lemma OrderedSeparates(r: seq<Match>, k: nat, j: nat)
    requires Ordered(r) && k < |r| && j < |r| && r[k].span.start < r[j].span.start
    ensures r[k].span.end <= r[j].span.start
  {
  }

  /** A token that starts before `x` and reaches it runs on through a token character at `x`. */
  lemma TokenReaches(s: string, p: Match, x: nat)
    requires p.span.start < x < |s| && TokenMatchAt(s, p.span.start) == Some(p)
    requires x - 1 < p.span.end && IsTokenChar(s[x])
    ensures x < p.span.end
  {
  }

  /** No token starts right after a token character: that one would belong to an earlier token reaching past it. */
  lemma TokensDisjoint(s: string, m: Match)
    requires m in FindIter(Token, s) && 0 < m.span.start <= |s|
    requires TokenMatchAt(s, m.span.start).Some?
    ensures !IsTokenChar(s[m.span.start - 1])
  {
    var x := m.span.start;
    var r := FindIter(Token, s);
    if IsTokenChar(s[x - 1]) {
      FindIterLeftmost(Token, s, x - 1);
      var k :| 0 <= k < |r| && r[k].span.start <= x - 1 && (x - 1 == r[k].span.start || x - 1 < r[k].span.end);
      var j :| 0 <= j < |r| && r[j] == m;
      var p := r[k];
      FindIterOrdered(Token, s);
      OrderedSeparates(r, k, j);
      FindIterMatchAt(Token, s, p);
      FindIterMatchAt(Token, s, m);
      TokenReaches(s, p, x);
      assert false;
    }
  }

  /** An occurrence of a key that starts with a word character starts with one. */
  lemma KeyStartsWord(s: string, t: nat, key: string)
    requires KeyAt(s, t, key) && |key| > 0 && IsWordChar(key[0])
    ensures WordAt(s, t)
  {
    KeyPrefixFirst(s, t, key, |key|);
  }

  lemma {:induction false} KeyPrefixFirst(s: string, t: nat, key: string, n: nat)
    requires 0 < n <= |key| && t + |key| <= |s| && KeyPrefixAt(s, t, key, n)
    ensures ToLower(s[t]) == ToLower(key[0])
    decreases n
  {
    if n > 1 {
      KeyPrefixFirst(s, t, key, n - 1);
    }
  }

  /**
   * When the key starts with a word character, the key that ends a quantity
   * match, preceded by whitespace and followed by `\b`, is itself a bare
   * match: the occurrence that the quantity-qualified mention accounts for.
   */
  lemma KeyAfterSpaceIsBare(s: string, key: string, t: nat)
    requires 0 < t && t + |key| <= |s| && IsSpace(s[t - 1]) && KeyThenBoundary(s, t, key)
    requires |key| > 0 && IsWordChar(key[0])
    ensures BareMatchAt(s, t, key) == Some(Match(Span(t, t + |key|), []))
  {
    SpaceIsNotWord(s[t - 1]);
    KeyStartsWord(s, t, key);
  }

  /** The key that ends a quantity match lies strictly inside it and is itself a bare match. */
  lemma QuantityKeyIsBareMatch(s: string, key: string, m: Match)
    requires m.span.start <= |s| && QuantityMatchAt(s, m.span.start, key) == Some(m)
    requires |key| > 0 && IsWordChar(key[0])
    ensures m.span.start < m.span.end - |key|
    ensures BareMatchAt(s, m.span.end - |key|, key) == Some(Match(Span(m.span.end - |key|, m.span.end), []))
  {
    var t := QuantityParts(s, m.span.start, key).value.1;
    assert m.span.end == t + |key|;
    QuantityPartsKeyIsBare(s, key, m.span.start);
  }

  lemma QuantityPartsKeyIsBare(s: string, key: string, i: nat)
    requires i <= |s| && QuantityParts(s, i, key).Some?
    requires |key| > 0 && IsWordChar(key[0])
    ensures var t := QuantityParts(s, i, key).value.1;
            BareMatchAt(s, t, key) == Some(Match(Span(t, t + |key|), []))
  {
    KeyAfterSpaceIsBare(s, key, QuantityParts(s, i, key).value.1);
  }
}
