/**
 * The matcher for products of the price list. For every entry of the alias
 * map it reports each quantity-qualified occurrence (`12 widgets`,
 * `5 steel rods`) with its quantity at confidence 0.9, and each other
 * occurrence of the alias as a whole word at confidence 0.6; an occurrence
 * inside a quantity-qualified one is not reported twice.
 */
module KnownProducts {
  import opened Wrappers
  import opened Text
  import opened Patterns
  import opened Records
  import opened Vocabulary

  // -----------------------------------------------------------------------
  // int() of a digit string

  predicate AllDigits(s: string) {
    forall k :: 0 <= k < |s| ==> IsDigit(s[k])
  }

  lemma DigitsSlice(s: string, a: nat, b: nat)
    requires a <= b <= |s| && forall k :: a <= k < b ==> IsDigit(s[k])
    ensures AllDigits(s[a..b])
  {
    forall k | 0 <= k < b - a ensures IsDigit(s[a..b][k]) {
      assert s[a..b][k] == s[a + k];
    }
  }

  /** `int(s)` for a string of decimal digits. */
  function DecimalValue(s: string): nat
    requires AllDigits(s)
    decreases |s|
  {
    if s == [] then 0 else 10 * DecimalValue(s[..|s| - 1]) + (s[|s| - 1] as int - '0' as int)
  }

  /** Leading zeros do not change the value: `int("007") == 7`. */
  lemma {:induction false} LeadingZero(s: string)
    requires AllDigits(s)
    ensures AllDigits("0" + s) && DecimalValue("0" + s) == DecimalValue(s)
    decreases |s|
  {
    var z := "0" + s;
    if s != [] {
      LeadingZero(s[..|s| - 1]);
      assert z[..|z| - 1] == "0" + s[..|s| - 1];
    } else {
      assert z[..0] == [];
    }
  }

  /** A single digit is its own value. */
  lemma DigitValue(c: char)
    requires IsDigit(c)
    ensures DecimalValue([c]) == c as int - '0' as int
  {
    assert [c][..0] == [];
  }

  // -----------------------------------------------------------------------
  // The mentions of one alias

  /** A match whose one group spans a run of digits of `s`. */
  predicate HasDigitGroup(s: string, m: Match) {
    |m.groups| == 1 && m.groups[0].start <= m.groups[0].end <= |s| && AllDigits(s[m.groups[0].start..m.groups[0].end])
  }

  /** `int(match.group(1))`: the quantity a quantity match captured. */
  function CapturedQuantity(s: string, m: Match): nat
    requires HasDigitGroup(s, m)
  {
    DecimalValue(s[m.groups[0].start..m.groups[0].end])
  }

  /** The quantity matches of `key` in `s`, in the order `finditer` yields them; each captures digits. */
  function QuantityMatches(s: string, key: string): (r: seq<Match>)
    ensures forall m :: m in r ==> HasDigitGroup(s, m)
  {
    var r := FindIter(Quantity(key), s);
    assert forall m :: m in r ==> HasDigitGroup(s, m) by {
      forall m | m in r ensures HasDigitGroup(s, m) {
        assert QuantityShape(s, m);
        DigitsSlice(s, m.groups[0].start, m.groups[0].end);
      }
    }
    r
  }

  /** The mention each of the quantity matches `qs` produces: the quantity it captured, at confidence 0.9. */
  function MentionsOfQuantities(s: string, qs: seq<Match>, name: string): (r: seq<Mention>)
    requires forall m :: m in qs ==> HasDigitGroup(s, m)
    ensures |r| == |qs|
    decreases |qs|
  {
    if qs == [] then []
    else MentionsOfQuantities(s, qs[..|qs| - 1], name) + [Mention(name, Some(CapturedQuantity(s, qs[|qs| - 1])), 0.9, "")]
  }

  function QuantityMentions(s: string, key: string, name: string): seq<Mention> {
    MentionsOfQuantities(s, QuantityMatches(s, key), name)
  }

  /** A quantity match spans the whole of `sp`. */
  predicate Contained(sp: Span, qs: seq<Match>) {
    exists k :: 0 <= k < |qs| && qs[k].span.start <= sp.start && sp.end <= qs[k].span.end
  }

  /** The matches of `bs` that no quantity match spans, in their order. */
  function Uncontained(bs: seq<Match>, qs: seq<Match>): seq<Match>
    decreases |bs|
  {
    if bs == [] then []
    else
      var init := Uncontained(bs[..|bs| - 1], qs);
      if Contained(bs[|bs| - 1].span, qs) then init else init + [bs[|bs| - 1]]
  }

  /** One mention without quantity, at confidence 0.6, per match of `bs`. */
  function MentionsWithoutQuantity(bs: seq<Match>, name: string): (r: seq<Mention>)
    ensures |r| == |bs|
    decreases |bs|
  {
    if bs == [] then [] else MentionsWithoutQuantity(bs[..|bs| - 1], name) + [Mention(name, None, 0.6, "")]
  }

  /** Each whole-word occurrence of `key` that no quantity match spans becomes a mention without quantity. */
  function BareMentions(s: string, key: string, name: string): seq<Mention> {
    MentionsWithoutQuantity(Uncontained(FindIter(Bare(key), s), QuantityMatches(s, key)), name)
  }

  /** The entry is the canonical name in lower case, or that plus "s"; other entries are skipped. */
  predicate Kept(key: string, name: string) {
    Lower(name) == key || Lower(name) + "s" == key
  }

  /** The mentions one entry of the alias map contributes. */
  function KeyMentions(am: AliasMap, s: string, key: string): seq<Mention>
    requires key in am.canon
  {
    var name := am.canon[key];
    if Kept(key, name) then QuantityMentions(s, key, name) + BareMentions(s, key, name) else []
  }

  /** The mentions of the entries `keys`, in order. */
  function MentionsOfKeys(am: AliasMap, s: string, keys: seq<string>): seq<Mention>
    requires forall k :: k in keys ==> k in am.canon
    decreases |keys|
  {
    if keys == [] then []
    else MentionsOfKeys(am, s, keys[..|keys| - 1]) + KeyMentions(am, s, keys[|keys| - 1])
  }

  /** All mentions of listed products in the lower-cased body `s`, the entries taken in insertion order. */
  function KnownMentions(am: AliasMap, s: string): seq<Mention>
    requires am.Valid()
  {
    MentionsOfKeys(am, s, am.keys)
  }

  // -----------------------------------------------------------------------
  // The loops

  /** Whether some quantity match spans `sp`: the inner loop, which stops at the first one. */
  method SpannedByQuantity(sp: Span, qs: seq<Match>) returns (overlaps: bool)
    ensures overlaps == Contained(sp, qs)
  {
    overlaps := false;
    var k := 0;
    while k < |qs|
      invariant 0 <= k <= |qs|
      invariant forall l :: 0 <= l < k ==> !(qs[l].span.start <= sp.start && sp.end <= qs[l].span.end)
    {
      if qs[k].span.start <= sp.start && sp.end <= qs[k].span.end {
        overlaps := true;
        break;
      }
      k := k + 1;
    }
  }

  /** `for match in qty_pattern.finditer(body_lower)`: one mention per quantity match. */
  method CollectQuantityMentions(s: string, key: string, name: string) returns (found: seq<Mention>)
    ensures found == QuantityMentions(s, key, name)
  {
    found := [];
    var qs := QuantityMatches(s, key);
    for j := 0 to |qs|
      invariant found == MentionsOfQuantities(s, qs[..j], name)
    {
      assert qs[..j + 1][..j] == qs[..j] && qs[j] in qs;
      found := found + [Mention(name, Some(CapturedQuantity(s, qs[j])), 0.9, "")];
    }
    assert qs[..|qs|] == qs;
  }

  /** `for match in plain_pattern.finditer(body_lower)`: one mention per bare match no quantity match spans. */
  method CollectBareMentions(s: string, key: string, name: string) returns (found: seq<Mention>)
    ensures found == BareMentions(s, key, name)
  {
    found := [];
    var bs := FindIter(Bare(key), s);
    for j := 0 to |bs|
      invariant found == MentionsWithoutQuantity(Uncontained(bs[..j], QuantityMatches(s, key)), name)
    {
      // The source runs `qty_pattern.finditer(body_lower)` again for every bare match; it yields the same matches each time.
      var qs := QuantityMatches(s, key);
      BareMentionsStep(bs, qs, j, name);
      var overlaps := SpannedByQuantity(bs[j].span, qs);
      if !overlaps {
        found := found + [Mention(name, None, 0.6, "")];
      }
    }
    assert bs[..|bs|] == bs;
  }

  /** One more bare match adds a mention exactly when no quantity match spans it. */
  lemma BareMentionsStep(bs: seq<Match>, qs: seq<Match>, j: nat, name: string)
    requires j < |bs|
    ensures MentionsWithoutQuantity(Uncontained(bs[..j + 1], qs), name)
            == MentionsWithoutQuantity(Uncontained(bs[..j], qs), name)
               + (if Contained(bs[j].span, qs) then [] else [Mention(name, None, 0.6, "")])
  {
    assert bs[..j + 1][..j] == bs[..j];
    var init := Uncontained(bs[..j], qs);
    if !Contained(bs[j].span, qs) {
      assert Uncontained(bs[..j + 1], qs) == init + [bs[j]];
      assert (init + [bs[j]])[..|init|] == init;
    }
  }

  /** The matcher loop of `parse` over the alias map. */
  method FindKnownMentions(am: AliasMap, s: string) returns (found: seq<Mention>)
    requires am.Valid()
    ensures found == KnownMentions(am, s)
  {
    found := [];
    for i := 0 to |am.keys|
      invariant found == MentionsOfKeys(am, s, am.keys[..i])
    {
      MentionsOfKeysStep(am, s, am.keys, i);
      var mentions := CollectKeyMentions(am, s, am.keys[i]);
      found := found + mentions;
    }
    assert am.keys[..|am.keys|] == am.keys;
  }

  /** One more entry of the loop adds its mentions at the end. */
  lemma MentionsOfKeysStep(am: AliasMap, s: string, keys: seq<string>, i: nat)
    requires i < |keys| && forall k :: k in keys ==> k in am.canon
    ensures keys[i] in am.canon
    ensures MentionsOfKeys(am, s, keys[..i + 1]) == MentionsOfKeys(am, s, keys[..i]) + KeyMentions(am, s, keys[i])
  {
    assert keys[..i + 1][..i] == keys[..i];
  }

  /** The body of the matcher loop for one entry: skipped unless it passes the test, otherwise both scans. */
  method CollectKeyMentions(am: AliasMap, s: string, key: string) returns (found: seq<Mention>)
    requires key in am.canon
    ensures found == KeyMentions(am, s, key)
  {
    var name := am.canon[key];
    if !Kept(key, name) {
      return [];
    }
    var quantified := CollectQuantityMentions(s, key, name);
    var bare := CollectBareMentions(s, key, name);
    found := quantified + bare;
  }

  // -----------------------------------------------------------------------
  // Properties

  /** A whole-word occurrence is reported without quantity exactly when no quantity match spans it. */
  lemma {:induction false} UncontainedIff(bs: seq<Match>, qs: seq<Match>, b: Match)
    ensures b in Uncontained(bs, qs) <==> b in bs && !Contained(b.span, qs)
    decreases |bs|
  {
    if bs != [] {
      var init := bs[..|bs| - 1];
      UncontainedIff(init, qs, b);
      assert bs == init + [bs[|bs| - 1]];
    }
  }

  /**
   * When the key starts with a word character, the key at the end of a
   * quantity match is a bare match that the quantity match spans, so it is
   * not reported again without quantity.
   */
  lemma QuantityKeyDropped(s: string, key: string, m: Match)
    requires m in QuantityMatches(s, key) && |key| > 0 && IsWordChar(key[0])
    ensures |key| <= m.span.end
    ensures BareMatchAt(s, m.span.end - |key|, key) == Some(Match(Span(m.span.end - |key|, m.span.end), []))
    ensures Contained(Span(m.span.end - |key|, m.span.end), QuantityMatches(s, key))
    ensures Match(Span(m.span.end - |key|, m.span.end), []) !in Uncontained(FindIter(Bare(key), s), QuantityMatches(s, key))
  {
    var qs := QuantityMatches(s, key);
    assert m in FindIter(Quantity(key), s);
    FindIterMatchAt(Quantity(key), s, m);
    QuantityKeyIsBareMatch(s, key, m);
    var k :| 0 <= k < |qs| && qs[k] == m;
    SpannedKeyDropped(FindIter(Bare(key), s), qs, k, Span(m.span.end - |key|, m.span.end));
  }

  /** A span inside a quantity match is contained, so no bare match with that span is kept. */
  lemma SpannedKeyDropped(bs: seq<Match>, qs: seq<Match>, k: nat, sp: Span)
    requires k < |qs| && qs[k].span.start <= sp.start && sp.end <= qs[k].span.end
    ensures Contained(sp, qs) && Match(sp, []) !in Uncontained(bs, qs)
  {
    UncontainedIff(bs, qs, Match(sp, []));
  }

  /**
   * Every mention names a listed product, has an empty note, and either
   * carries a quantity at confidence 0.9 or none at confidence 0.6.
   */
  lemma {:induction false} KnownMentionShape(names: seq<string>, s: string, keys: seq<string>)
    requires forall k :: k in keys ==> k in AliasesOf(names).canon
    ensures forall m :: m in MentionsOfKeys(AliasesOf(names), s, keys) ==> m.name in names && WellShaped(m)
    decreases |keys|
  {
    if keys != [] {
      var init := keys[..|keys| - 1];
      var key := keys[|keys| - 1];
      KnownMentionShape(names, s, init);
      KeyMentionShape(names, s, key);
      assert MentionsOfKeys(AliasesOf(names), s, keys)
          == MentionsOfKeys(AliasesOf(names), s, init) + KeyMentions(AliasesOf(names), s, key);
    }
  }

  /** A reported mention has an empty note, and a quantity at confidence 0.9 or none at confidence 0.6. */
  predicate WellShaped(m: Mention) {
    m.note == "" && ((m.quantity.Some? && m.confidence == 0.9) || (m.quantity.None? && m.confidence == 0.6))
  }

  /** The mentions of one entry of the alias map name a listed product. */
  lemma KeyMentionShape(names: seq<string>, s: string, key: string)
    requires key in AliasesOf(names).canon
    ensures forall m :: m in KeyMentions(AliasesOf(names), s, key) ==> m.name in names && WellShaped(m)
  {
    var name := AliasesOf(names).canon[key];
    AliasShape(names, key);
    QuantifiedShape(s, QuantityMatches(s, key), name);
    UnquantifiedShape(Uncontained(FindIter(Bare(key), s), QuantityMatches(s, key)), name);
  }

  /** Entry `k` of the quantity-qualified mentions carries the quantity match `k` captured. */
  lemma {:induction false} QuantifiedShape(s: string, qs: seq<Match>, name: string)
    requires forall m :: m in qs ==> HasDigitGroup(s, m)
    ensures forall k :: 0 <= k < |qs| ==>
              MentionsOfQuantities(s, qs, name)[k] == Mention(name, Some(CapturedQuantity(s, qs[k])), 0.9, "")
    decreases |qs|
  {
    if qs != [] {
      var init := qs[..|qs| - 1];
      QuantifiedShape(s, init, name);
      forall k | 0 <= k < |qs|
        ensures MentionsOfQuantities(s, qs, name)[k] == Mention(name, Some(CapturedQuantity(s, qs[k])), 0.9, "")
      {
        if k < |init| {
          assert qs[k] == init[k];
        }
      }
    }
  }

  /** Every mention without quantity has confidence 0.6. */
  lemma {:induction false} UnquantifiedShape(bs: seq<Match>, name: string)
    ensures forall m :: m in MentionsWithoutQuantity(bs, name) ==> m == Mention(name, None, 0.6, "")
    decreases |bs|
  {
    if bs != [] {
      UnquantifiedShape(bs[..|bs| - 1], name);
    }
  }

  /** Every entry of the alias map of a price list passes the skip test. */
  lemma EveryEntryKept(names: seq<string>, key: string)
    requires key in AliasesOf(names).canon
    ensures Kept(key, AliasesOf(names).canon[key])
  {
    AliasShape(names, key);
  }
}
