/**
 * The heuristics for products that are not in the price list: the other
 * half of a pair `X and Y` of which exactly one is a known alias, and the
 * first plausible word among the four after a purchase verb. Either way a
 * candidate must look like a plural (end in "s") and must be neither an
 * alias nor a stopword; it is reported title-cased, each candidate once.
 */
module UnknownProducts {
  import opened Wrappers
  import opened Text
  import opened Patterns
  import opened Records
  import opened Vocabulary
  import opened Sequences

  /** The words never taken for a product name. */
  const Stopwords: set<string> := {
    "some", "any", "more", "few", "asap", "pricing", "price", "cost", "time",
    "info", "information", "availability", "please", "could", "looking", "items", "item",
    "product", "products", "it", "them", "they", "your", "our", "quote", "yet", "us", "about",
    "to", "and", "thanks", "thank", "get", "me", "how", "many", "if", "there", "let", "know",
    "hello", "hi", "we", "i", "my", "you", "also", "regards", "cheers", "kind", "best", "team"
  }

  /** The words after which a product name is looked for. */
  const Verbs: set<string> := {"order", "buy", "purchase", "need", "looking"}

  /**
   * The two word lists of the heuristics. The parser passes `Lists`; the
   * functions and lemmas of this module hold for any lists.
   */
  datatype WordLists = WordLists(stopwords: set<string>, verbs: set<string>)

  const Lists := WordLists(Stopwords, Verbs)

  /** `x.lower() in self.product_names` */
  predicate IsKnown(am: AliasMap, x: string) {
    Lower(x) in am.canon
  }

  /** A candidate is kept when, lower-cased, it is no alias, no stopword, and ends in "s". */
  predicate Plausible(am: AliasMap, w: WordLists, candidate: string) {
    var lc := Lower(candidate);
    lc !in am.canon && lc !in w.stopwords && EndsWithS(lc)
  }

  // -----------------------------------------------------------------------
  // Pairs joined by "and"

  /** The candidate of one match `first and second`: the unknown one of the pair, when exactly one is known. */
  function PairCandidate(am: AliasMap, w: WordLists, first: string, second: string): Option<string> {
    if IsKnown(am, first) != IsKnown(am, second) then
      var candidate := if IsKnown(am, first) then second else first;
      // The source tests `cand_lc not in self.product_names` here again; `PairCandidateUnknown` shows it always holds.
      if Plausible(am, w, candidate) then Some(Title(candidate)) else None
    else None
  }

  /** `m.group(1)` and `m.group(2)`. */
  function PairGroups(body: string, m: Match): (string, string)
    requires ConjunctionShape(body, m)
  {
    (body[m.groups[0].start..m.groups[0].end], body[m.groups[1].start..m.groups[1].end])
  }

  /** The candidates of the matches `ms`, in order. */
  function PairCandidatesOf(am: AliasMap, w: WordLists, body: string, ms: seq<Match>): seq<string>
    requires forall m :: m in ms ==> ConjunctionShape(body, m)
    decreases |ms|
  {
    if ms == [] then []
    else
      var last := ms[|ms| - 1];
      var (first, second) := PairGroups(body, last);
      var init := PairCandidatesOf(am, w, body, ms[..|ms| - 1]);
      match PairCandidate(am, w, first, second)
      case Some(c) => init + [c]
      case None => init
  }

  /** The matches of the conjunction pattern in the body, each with its two groups. */
  function PairMatches(body: string): (r: seq<Match>)
    ensures forall m :: m in r ==> ConjunctionShape(body, m)
  {
    FindIter(Conjunction, body)
  }

  /** The candidates of every match of `\b([\w\-]+)\s+and\s+([\w\-]+)\b` in the body. */
  function PairCandidates(am: AliasMap, w: WordLists, body: string): seq<string> {
    PairCandidatesOf(am, w, body, PairMatches(body))
  }

  // -----------------------------------------------------------------------
  // Words after a verb

  /** `re.findall(r'[\w\-]+', body)`: the tokens of the body, in order. */
  function Tokens(body: string): (tokens: seq<string>)
    ensures forall k :: 0 <= k < |tokens| ==> IsToken(tokens[k])
  {
    TokensOf(body, FindIter(Token, body))
  }

  /** The text of each of the token matches `ms`. */
  function TokensOf(body: string, ms: seq<Match>): (tokens: seq<string>)
    requires forall m :: m in ms ==> TokenShape(body, m)
    ensures |tokens| == |ms| && forall k :: 0 <= k < |tokens| ==> IsToken(tokens[k])
    decreases |ms|
  {
    if ms == [] then []
    else
      var m := ms[|ms| - 1];
      TokenSlice(body, m);
      TokensOf(body, ms[..|ms| - 1]) + [body[m.span.start..m.span.end]]
  }

  /** The text of a token match is a token. */
  lemma TokenSlice(body: string, m: Match)
    requires TokenShape(body, m)
    ensures IsToken(body[m.span.start..m.span.end])
  {
    var t := body[m.span.start..m.span.end];
    forall j | 0 <= j < |t| ensures IsTokenChar(t[j]) {
      assert t[j] == body[m.span.start + j];
    }
  }

  /** A non-empty run of token characters. */
  predicate IsToken(t: string) {
    |t| > 0 && forall j :: 0 <= j < |t| ==> IsTokenChar(t[j])
  }

  /** `token.strip('.,;:\'"!?')` */
  function StripPunct(token: string): string {
    Strip(token, TokenPunctuation)
  }

  /** The punctuation stripped from a candidate never occurs in a token, so the strip changes nothing. */
  lemma StripPunctOfToken(t: string)
    requires IsToken(t)
    ensures StripPunct(t) == t
  {
    forall j | 0 <= j < |t| ensures t[j] !in TokenPunctuation {
      assert IsTokenChar(t[j]);
    }
    StripNothing(t, TokenPunctuation);
  }

  /** The token after position `i` that the look-ahead tries at `offset`, and the ones after it up to offset 4. */
  function LookAheadFrom(am: AliasMap, w: WordLists, tokens: seq<string>, i: nat, offset: nat): Option<string>
    requires 1 <= offset <= 5
    decreases 5 - offset
  {
    if offset == 5 || i + offset >= |tokens| then None
    else if Plausible(am, w, StripPunct(tokens[i + offset])) then Some(Title(StripPunct(tokens[i + offset])))
    else LookAheadFrom(am, w, tokens, i, offset + 1)
  }

  /** The candidates found after the verbs among the first `n` tokens. */
  function VerbCandidatesUpTo(am: AliasMap, w: WordLists, tokens: seq<string>, n: nat): seq<string>
    requires n <= |tokens|
  {
    if n == 0 then []
    else
      var init := VerbCandidatesUpTo(am, w, tokens, n - 1);
      if Lower(tokens[n - 1]) in w.verbs then
        match LookAheadFrom(am, w, tokens, n - 1, 1)
        case Some(c) => init + [c]
        case None => init
      else init
  }

  function VerbCandidates(am: AliasMap, w: WordLists, body: string): seq<string> {
    var tokens := Tokens(body);
    VerbCandidatesUpTo(am, w, tokens, |tokens|)
  }

  /** `unknown_candidates`: the pair candidates, then the verb candidates. */
  function Candidates(am: AliasMap, w: WordLists, body: string): seq<string> {
    PairCandidates(am, w, body) + VerbCandidates(am, w, body)
  }

  /** The unknown mentions: each candidate once, at confidence 0.2. */
  function UnknownMentions(am: AliasMap, w: WordLists, body: string): seq<Mention> {
    MentionsOfCandidates(Dedup(Candidates(am, w, body)))
  }

  /** One mention without quantity, at confidence 0.2, per candidate. */
  function MentionsOfCandidates(cands: seq<string>): (r: seq<Mention>)
    ensures |r| == |cands|
    decreases |cands|
  {
    if cands == [] then []
    else MentionsOfCandidates(cands[..|cands| - 1]) + [Mention(cands[|cands| - 1], None, 0.2, "unknown product")]
  }

  // -----------------------------------------------------------------------
  // The loops

  /** The loop over the conjunction matches. */
  method CollectPairCandidates(am: AliasMap, w: WordLists, body: string, ms: seq<Match>) returns (cands: seq<string>)
    requires forall m :: m in ms ==> ConjunctionShape(body, m)
    ensures cands == PairCandidatesOf(am, w, body, ms)
  {
    cands := [];
    for k := 0 to |ms|
      invariant cands == PairCandidatesOf(am, w, body, ms[..k])
    {
      assert ms[..k + 1][..k] == ms[..k] && ms[k] in ms;
      var (first, second) := PairGroups(body, ms[k]);
      var firstLc, secondLc := Lower(first), Lower(second);
      if (firstLc in am.canon) != (secondLc in am.canon) {
        var candidate := if firstLc in am.canon then second else first;
        var candLc := Lower(candidate);
        if candLc !in am.canon && candLc !in w.stopwords && EndsWithS(candLc) {
          cands := cands + [Title(candidate)];
        }
      }
    }
    assert ms[..|ms|] == ms;
  }

  /** The inner loop `for offset in range(1, 5)`, which stops at the first plausible token. */
  method LookAhead(am: AliasMap, w: WordLists, tokens: seq<string>, i: nat) returns (found: Option<string>)
    ensures found == LookAheadFrom(am, w, tokens, i, 1)
  {
    found := None;
    var offset := 1;
    while offset < 5
      invariant 1 <= offset <= 5
      invariant LookAheadFrom(am, w, tokens, i, 1) == LookAheadFrom(am, w, tokens, i, offset)
      decreases 5 - offset
    {
      var idx := i + offset;
      if idx >= |tokens| {
        assert LookAheadFrom(am, w, tokens, i, offset) == None;
        break;
      }
      var candidate := StripPunct(tokens[idx]);
      var plausible := CheckCandidate(am, w, candidate);
      if !plausible {
        NextOffset(am, w, tokens, i, offset);
        offset := offset + 1;
        continue;
      }
      TakeOffset(am, w, tokens, i, offset);
      found := Some(Title(candidate));
      break;
    }
  }

  /** The two `continue` tests of the look-ahead: an alias or stopword, or no plural. */
  method CheckCandidate(am: AliasMap, w: WordLists, candidate: string) returns (plausible: bool)
    ensures plausible == Plausible(am, w, candidate)
  {
    var candLc := Lower(candidate);
    if candLc in am.canon || candLc in w.stopwords {
      return false;
    }
    if !EndsWithS(candLc) {
      return false;
    }
    return true;
  }

  /** The look-ahead passes over a token that is no candidate. */
  lemma NextOffset(am: AliasMap, w: WordLists, tokens: seq<string>, i: nat, offset: nat)
    requires 1 <= offset < 5 && i + offset < |tokens| && !Plausible(am, w, StripPunct(tokens[i + offset]))
    ensures LookAheadFrom(am, w, tokens, i, offset) == LookAheadFrom(am, w, tokens, i, offset + 1)
  {
  }

  /** The look-ahead takes the first token that is a candidate. */
  lemma TakeOffset(am: AliasMap, w: WordLists, tokens: seq<string>, i: nat, offset: nat)
    requires 1 <= offset < 5 && i + offset < |tokens| && Plausible(am, w, StripPunct(tokens[i + offset]))
    ensures LookAheadFrom(am, w, tokens, i, offset) == Some(Title(StripPunct(tokens[i + offset])))
  {
  }

  /** The loop over the tokens. */
  method CollectVerbCandidates(am: AliasMap, w: WordLists, tokens: seq<string>) returns (cands: seq<string>)
    ensures cands == VerbCandidatesUpTo(am, w, tokens, |tokens|)
  {
    cands := [];
    for i := 0 to |tokens|
      invariant cands == VerbCandidatesUpTo(am, w, tokens, i)
    {
      if Lower(tokens[i]) in w.verbs {
        var found := LookAhead(am, w, tokens, i);
        if found.Some? {
          cands := cands + [found.value];
        }
      }
    }
  }

  /** The loop with `seen_unknown`: each candidate the first time it comes. */
  method DedupCandidates(cands: seq<string>) returns (unique: seq<string>)
    ensures unique == Dedup(cands)
  {
    unique := [];
    var seen: set<string> := {};
    for i := 0 to |cands|
      invariant unique == Dedup(cands[..i])
      invariant forall x :: x in seen <==> x in cands[..i]
    {
      assert cands[..i + 1][..i] == cands[..i];
      if cands[i] !in seen {
        seen := seen + {cands[i]};
        unique := unique + [cands[i]];
      }
    }
    assert cands[..|cands|] == cands;
  }

  /** All of it: the unknown mentions of the body. */
  method FindUnknownMentions(am: AliasMap, w: WordLists, body: string) returns (found: seq<Mention>)
    ensures found == UnknownMentions(am, w, body)
  {
    var pairs := CollectPairCandidates(am, w, body, PairMatches(body));
    var verbs := CollectVerbCandidates(am, w, Tokens(body));
    var unique := DedupCandidates(pairs + verbs);
    found := ReportCandidates(unique);
  }

  /** `items_found.append((cand, None, 0.2, 'unknown product'))` for each candidate. */
  method ReportCandidates(unique: seq<string>) returns (found: seq<Mention>)
    ensures found == MentionsOfCandidates(unique)
  {
    found := [];
    for k := 0 to |unique|
      invariant found == MentionsOfCandidates(unique[..k])
    {
      assert unique[..k + 1][..k] == unique[..k];
      found := found + [Mention(unique[k], None, 0.2, "unknown product")];
    }
    assert unique[..|unique|] == unique;
  }

  // -----------------------------------------------------------------------
  // Properties

  /** The test `cand_lc not in self.product_names` of the pair heuristic never rejects a candidate. */
  lemma PairCandidateUnknown(am: AliasMap, first: string, second: string)
    requires IsKnown(am, first) != IsKnown(am, second)
    ensures var candidate := if IsKnown(am, first) then second else first;
            Lower(candidate) !in am.canon
  {
  }

  /**
   * Match `m` yields the candidate `c`: exactly one of its two groups is,
   * lower-cased, an alias, and `c` is the other group, plausible, title-cased.
   */
  predicate PairYields(am: AliasMap, w: WordLists, body: string, m: Match, c: string)
    requires ConjunctionShape(body, m)
  {
    var (first, second) := PairGroups(body, m);
    && IsKnown(am, first) != IsKnown(am, second)
    && var other := if IsKnown(am, first) then second else first;
       Plausible(am, w, other) && c == Title(other)
  }

  /** The pair candidates are exactly what the matches yield. */
  lemma {:induction false} PairCandidatesIff(am: AliasMap, w: WordLists, body: string, ms: seq<Match>, c: string)
    requires forall m :: m in ms ==> ConjunctionShape(body, m)
    ensures c in PairCandidatesOf(am, w, body, ms) <==> exists m :: m in ms && PairYields(am, w, body, m, c)
    decreases |ms|
  {
    if ms != [] {
      var init := ms[..|ms| - 1];
      var last := ms[|ms| - 1];
      PairCandidatesIff(am, w, body, init, c);
      assert forall m :: m in ms <==> m in init || m == last;
      var (first, second) := PairGroups(body, last);
      PairCandidateYields(am, w, body, last, c);
      assert c in PairCandidatesOf(am, w, body, ms) <==>
             c in PairCandidatesOf(am, w, body, init) || PairCandidate(am, w, first, second) == Some(c);
    }
  }

  /** The candidate of one match is what it yields. */
  lemma PairCandidateYields(am: AliasMap, w: WordLists, body: string, m: Match, c: string)
    requires ConjunctionShape(body, m)
    ensures var (first, second) := PairGroups(body, m);
            PairCandidate(am, w, first, second) == Some(c) <==> PairYields(am, w, body, m, c)
  {
  }

  /** Every match of the conjunction pattern in the body has the pattern's form. */
  lemma PairMatchForm(body: string, m: Match)
    requires m in PairMatches(body)
    ensures exists a :: ConjunctionFormAt(body, m.span.start, m.groups[0].end, a, m.groups[1].start, m.span.end)
  {
    FindIterMatchAt(Conjunction, body, m);
    ConjunctionMatchShape(body, m.span.start);
  }

  /** The verb candidates are exactly what the look-ahead finds after a verb. */
  lemma {:induction false} VerbCandidatesIff(am: AliasMap, w: WordLists, tokens: seq<string>, n: nat, c: string)
    requires n <= |tokens|
    ensures c in VerbCandidatesUpTo(am, w, tokens, n) <==>
            exists i :: 0 <= i < n && Lower(tokens[i]) in w.verbs && LookAheadFrom(am, w, tokens, i, 1) == Some(c)
  {
    if n > 0 {
      VerbCandidatesIff(am, w, tokens, n - 1, c);
      var found := Lower(tokens[n - 1]) in w.verbs && LookAheadFrom(am, w, tokens, n - 1, 1) == Some(c);
      assert c in VerbCandidatesUpTo(am, w, tokens, n) <==> c in VerbCandidatesUpTo(am, w, tokens, n - 1) || found;
    }
  }

  /**
   * A word is an unknown-product candidate exactly when a conjunction match
   * yields it or the look-ahead finds it after a purchase verb.
   */
  lemma CandidatesIff(am: AliasMap, w: WordLists, body: string, c: string)
    ensures c in Candidates(am, w, body) <==>
            || (exists m :: m in PairMatches(body) && PairYields(am, w, body, m, c))
            || (var tokens := Tokens(body);
                exists i :: 0 <= i < |tokens| && Lower(tokens[i]) in w.verbs && LookAheadFrom(am, w, tokens, i, 1) == Some(c))
  {
    PairCandidatesIff(am, w, body, PairMatches(body), c);
    var tokens := Tokens(body);
    VerbCandidatesIff(am, w, tokens, |tokens|, c);
  }

  /** Token `idx` exists and, stripped of punctuation, is a plausible candidate. */
  predicate Fits(am: AliasMap, w: WordLists, tokens: seq<string>, idx: nat) {
    idx < |tokens| && Plausible(am, w, StripPunct(tokens[idx]))
  }

  /**
   * When token `idx`, at most four after the verb, is the first plausible one
   * from `offset` on, the look-ahead finds it, title-cased.
   */
  lemma {:induction false} LookAheadFinds(am: AliasMap, w: WordLists, tokens: seq<string>, i: nat, offset: nat, idx: nat)
    requires 1 <= offset <= 5 && i + offset <= idx <= i + 4 && Fits(am, w, tokens, idx)
    requires forall j: nat :: i + offset <= j < idx ==> !Fits(am, w, tokens, j)
    ensures LookAheadFrom(am, w, tokens, i, offset) == Some(Title(StripPunct(tokens[idx])))
    decreases 5 - offset
  {
    if idx > i + offset {
      assert !Fits(am, w, tokens, i + offset);
      LookAheadFinds(am, w, tokens, i, offset + 1, idx);
    }
  }

  /** When none of the tokens from `offset` on, up to four after the verb, is plausible, the look-ahead finds nothing. */
  lemma {:induction false} LookAheadMisses(am: AliasMap, w: WordLists, tokens: seq<string>, i: nat, offset: nat)
    requires 1 <= offset <= 5
    requires forall j: nat :: i + offset <= j <= i + 4 ==> !Fits(am, w, tokens, j)
    ensures LookAheadFrom(am, w, tokens, i, offset) == None
    decreases 5 - offset
  {
    if offset < 5 && i + offset < |tokens| {
      assert !Fits(am, w, tokens, i + offset);
      LookAheadMisses(am, w, tokens, i, offset + 1);
    }
  }

  /** Plausibility only looks at the lower-cased word, which title-casing does not change. */
  lemma TitlePlausible(am: AliasMap, w: WordLists, x: string)
    requires Plausible(am, w, x)
    ensures Plausible(am, w, Title(x))
  {
    LowerOfTitle(x);
  }

  /** A pair candidate is plausible. */
  lemma PairCandidatePlausible(am: AliasMap, w: WordLists, first: string, second: string)
    ensures PairCandidate(am, w, first, second).Some? ==> Plausible(am, w, PairCandidate(am, w, first, second).value)
  {
    if PairCandidate(am, w, first, second).Some? {
      TitlePlausible(am, w, if IsKnown(am, first) then second else first);
    }
  }

  /** Every pair candidate is plausible: no alias, no stopword, and ends in "s". */
  lemma {:induction false} PairCandidatesPlausible(am: AliasMap, w: WordLists, body: string, ms: seq<Match>)
    requires forall m :: m in ms ==> ConjunctionShape(body, m)
    ensures forall c :: c in PairCandidatesOf(am, w, body, ms) ==> Plausible(am, w, c)
    decreases |ms|
  {
    if ms != [] {
      PairCandidatesPlausible(am, w, body, ms[..|ms| - 1]);
      var (first, second) := PairGroups(body, ms[|ms| - 1]);
      PairCandidatePlausible(am, w, first, second);
    }
  }

  /** What the look-ahead finds is plausible. */
  lemma {:induction false} LookAheadPlausible(am: AliasMap, w: WordLists, tokens: seq<string>, i: nat, offset: nat)
    requires 1 <= offset <= 5
    ensures LookAheadFrom(am, w, tokens, i, offset).Some? ==> Plausible(am, w, LookAheadFrom(am, w, tokens, i, offset).value)
    decreases 5 - offset
  {
    if offset < 5 && i + offset < |tokens| {
      if Fits(am, w, tokens, i + offset) {
        TitlePlausible(am, w, StripPunct(tokens[i + offset]));
      } else {
        LookAheadPlausible(am, w, tokens, i, offset + 1);
      }
    }
  }

  /** Every verb candidate is plausible. */
  lemma {:induction false} VerbCandidatesPlausible(am: AliasMap, w: WordLists, tokens: seq<string>, n: nat)
    requires n <= |tokens|
    ensures forall c :: c in VerbCandidatesUpTo(am, w, tokens, n) ==> Plausible(am, w, c)
  {
    if n > 0 {
      VerbCandidatesPlausible(am, w, tokens, n - 1);
      LookAheadPlausible(am, w, tokens, n - 1, 1);
      forall c | c in VerbCandidatesUpTo(am, w, tokens, n) ensures Plausible(am, w, c) {
        if c !in VerbCandidatesUpTo(am, w, tokens, n - 1) {
          assert c == LookAheadFrom(am, w, tokens, n - 1, 1).value;
        }
      }
    }
  }

  /** Every reported candidate is plausible. */
  lemma CandidatesPlausible(am: AliasMap, w: WordLists, body: string, c: string)
    requires c in Candidates(am, w, body)
    ensures Plausible(am, w, c)
  {
    PairCandidatesPlausible(am, w, body, PairMatches(body));
    var tokens := Tokens(body);
    VerbCandidatesPlausible(am, w, tokens, |tokens|);
  }

  /**
   * No unknown product has the name of a listed product: the name of a
   * listed product is, lower-cased, an alias, which no candidate is.
   */
  lemma UnknownNotListed(names: seq<string>, w: WordLists, body: string, m: Mention)
    requires m in UnknownMentions(AliasesOf(names), w, body)
    ensures m.name !in names && m.quantity == None && m.confidence == 0.2 && m.note == "unknown product"
  {
    var am := AliasesOf(names);
    var d := Dedup(Candidates(am, w, body));
    CandidateMention(d, m);
    DedupMembers(Candidates(am, w, body));
    CandidatesPlausible(am, w, body, m.name);
    if m.name in names {
      var i :| 0 <= i < |names| && names[i] == m.name;
      assert IsAliasOf(Lower(m.name), names[i]);
      AliasKeys(names, Lower(m.name));
      assert false;
    }
  }

  /** Each mention of `MentionsOfCandidates(cands)` is one of the candidates, without quantity, at confidence 0.2. */
  lemma {:induction false} CandidateMention(cands: seq<string>, m: Mention)
    requires m in MentionsOfCandidates(cands)
    ensures m.name in cands && m == Mention(m.name, None, 0.2, "unknown product")
    decreases |cands|
  {
    var init := cands[..|cands| - 1];
    if m in MentionsOfCandidates(init) {
      CandidateMention(init, m);
      assert m.name in cands;
    }
  }
}
