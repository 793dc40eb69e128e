/**
 * Tiered discounts. The rules are sorted by decreasing minimum quantity
 * (a stable sort, so rules with the same minimum keep their order), and the
 * first rule whose minimum the quantity reaches gives the rate. Without one
 * there is no discount, which the source returns as 0.0.
 */
module Discounts {
  import opened Wrappers

  /** A discount rule; its rate is passed through unchanged, so its type is a parameter. */
  datatype Rule<D> = Rule(minQuantity: int, discount: D)

  /** The quantity reaches the rule's minimum. */
  predicate Eligible<D>(q: int, r: Rule<D>) {
    q >= r.minQuantity
  }

  /** Sorted by decreasing minimum. */
  predicate Descending<D>(s: seq<Rule<D>>) {
    forall i, j :: 0 <= i < j < |s| ==> s[i].minQuantity >= s[j].minQuantity
  }

  /** One step of the insertion sort: `r` goes after every rule whose minimum is at least its own. */
  function Insert<D>(r: Rule<D>, sorted: seq<Rule<D>>): (s: seq<Rule<D>>)
    ensures multiset(s) == multiset(sorted) + multiset{r}
    decreases |sorted|
  {
    if sorted == [] then [r]
    else if sorted[0].minQuantity >= r.minQuantity then
      assert sorted == [sorted[0]] + sorted[1..];
      [sorted[0]] + Insert(r, sorted[1..])
    else [r] + sorted
  }

  /**
   * `sorted(discount_rules, key=lambda r: r['min_quantity'], reverse=True)`:
   * each rule is inserted after the ones before it that have an equal
   * minimum, which makes the sort stable.
   */
  function SortDescending<D>(rules: seq<Rule<D>>): seq<Rule<D>>
    decreases |rules|
  {
    if rules == [] then [] else Insert(rules[|rules| - 1], SortDescending(rules[..|rules| - 1]))
  }

  /** The first rule of `s` the quantity reaches. */
  function FirstEligible<D>(s: seq<Rule<D>>, q: int): (r: Option<Rule<D>>)
    ensures r.Some? ==> r.value in s && Eligible(q, r.value)
    ensures r.None? ==> forall x :: x in s ==> !Eligible(q, x)
    decreases |s|
  {
    if s == [] then None
    else if Eligible(q, s[0]) then Some(s[0])
    else
      assert forall x :: x in s ==> x == s[0] || x in s[1..];
      FirstEligible(s[1..], q)
  }

  /** The better of the best rule so far and a rule listed after it: a later one wins only with a strictly larger minimum. */
  function Prefer<D>(best: Option<Rule<D>>, r: Rule<D>, q: int): Option<Rule<D>> {
    if Eligible(q, r) && (best.None? || r.minQuantity > best.value.minQuantity) then Some(r) else best
  }

  /** The rule that applies, read off the rules in their given order. */
  function BestRule<D>(rules: seq<Rule<D>>, q: int): Option<Rule<D>>
    decreases |rules|
  {
    if rules == [] then None else Prefer(BestRule(rules[..|rules| - 1], q), rules[|rules| - 1], q)
  }

  /** The rate of the rule that applies, if any. */
  function RateOf<D>(r: Option<Rule<D>>): Option<D> {
    match r
    case Some(rule) => Some(rule.discount)
    case None => None
  }

  /** `apply_discount`: the loop over the sorted rules, returning at the first that applies. */
  method ApplyDiscount<D>(quantity: int, rules: seq<Rule<D>>) returns (rate: Option<D>)
    ensures rate == RateOf(BestRule(rules, quantity))
  {
    var sorted := SortDescending(rules);
    SortFindsBest(rules, quantity);
    for i := 0 to |sorted|
      invariant FirstEligible(sorted, quantity) == FirstEligible(sorted[i..], quantity)
    {
      assert sorted[i..][1..] == sorted[i + 1..];
      if quantity >= sorted[i].minQuantity {
        return Some(sorted[i].discount);
      }
    }
    assert sorted[|sorted|..] == [];
    return None;
  }

  // -----------------------------------------------------------------------
  // Properties

  /** The sort is a permutation. */
  lemma {:induction false} SortPermutation<D>(rules: seq<Rule<D>>)
    ensures multiset(SortDescending(rules)) == multiset(rules)
    decreases |rules|
  {
    if rules != [] {
      var init := rules[..|rules| - 1];
      SortPermutation(init);
      assert rules == init + [rules[|rules| - 1]];
    }
  }

  /** The sort orders by decreasing minimum. */
  lemma {:induction false} SortSorted<D>(rules: seq<Rule<D>>)
    ensures Descending(SortDescending(rules))
    decreases |rules|
  {
    if rules != [] {
      SortSorted(rules[..|rules| - 1]);
      InsertSorted(rules[|rules| - 1], SortDescending(rules[..|rules| - 1]));
    }
  }

  lemma {:induction false} InsertSorted<D>(r: Rule<D>, sorted: seq<Rule<D>>)
    requires Descending(sorted)
    ensures Descending(Insert(r, sorted))
    decreases |sorted|
  {
    if sorted != [] {
      var s0 := sorted[0];
      if s0.minQuantity >= r.minQuantity {
        var rest := sorted[1..];
        InsertSorted(r, rest);
        var t := Insert(r, rest);
        forall x | x in t ensures s0.minQuantity >= x.minQuantity {
          LeadBounds(sorted, x, r);
        }
        ConsSorted(s0, t);
      } else {
        forall x | x in sorted ensures r.minQuantity >= x.minQuantity {
          LeadBounds(sorted, x, r);
        }
        ConsSorted(r, sorted);
      }
    }
  }

  /** The first rule of a descending list has the largest minimum, also over a rule inserted after it. */
  lemma LeadBounds<D>(sorted: seq<Rule<D>>, x: Rule<D>, r: Rule<D>)
    requires Descending(sorted) && sorted != []
    requires x in sorted || (sorted[0].minQuantity >= r.minQuantity && x in Insert(r, sorted[1..]))
    ensures x == r || x.minQuantity <= sorted[0].minQuantity
  {
    if x in Insert(r, sorted[1..]) && x != r {
      assert x in multiset(Insert(r, sorted[1..]));
      assert x in sorted[1..];
    }
  }

  /** A rule whose minimum is at least every other's can lead a descending list. */
  lemma ConsSorted<D>(x: Rule<D>, t: seq<Rule<D>>)
    requires Descending(t) && forall y :: y in t ==> x.minQuantity >= y.minQuantity
    ensures Descending([x] + t)
  {
    var s := [x] + t;
    forall i, j | 0 <= i < j < |s| ensures s[i].minQuantity >= s[j].minQuantity {
      assert s[j] == t[j - 1];
      if i > 0 {
        assert s[i] == t[i - 1];
      } else {
        assert t[j - 1] in t;
      }
    }
  }

  /** Inserting a rule changes the first one that applies as `Prefer` says. */
  lemma {:induction false} InsertFirstEligible<D>(r: Rule<D>, sorted: seq<Rule<D>>, q: int)
    requires Descending(sorted)
    ensures FirstEligible(Insert(r, sorted), q) == Prefer(FirstEligible(sorted, q), r, q)
    decreases |sorted|
  {
    if sorted != [] {
      var s0 := sorted[0];
      var rest := sorted[1..];
      if s0.minQuantity >= r.minQuantity {
        assert ([s0] + Insert(r, rest))[1..] == Insert(r, rest);
        if !Eligible(q, s0) {
          InsertFirstEligible(r, rest, q);
        }
      } else {
        assert ([r] + sorted)[1..] == sorted;
        var f := FirstEligible(sorted, q);
        if f.Some? {
          var j :| 0 <= j < |sorted| && sorted[j] == f.value;
          assert sorted[0].minQuantity >= sorted[j].minQuantity;
        }
      }
    }
  }

  /** The first rule of the sorted list that applies is the best rule of the given list. */
  lemma {:induction false} SortFindsBest<D>(rules: seq<Rule<D>>, q: int)
    ensures FirstEligible(SortDescending(rules), q) == BestRule(rules, q)
    decreases |rules|
  {
    if rules != [] {
      var init := rules[..|rules| - 1];
      SortFindsBest(init, q);
      SortSorted(init);
      InsertFirstEligible(rules[|rules| - 1], SortDescending(init), q);
    }
  }

  /**
   * The best rule is a rule the quantity reaches with the largest minimum
   * among those, and the first listed with that minimum; there is none
   * exactly when the quantity reaches no rule.
   */
  lemma {:induction false} BestRuleIsBest<D>(rules: seq<Rule<D>>, q: int)
    ensures BestRule(rules, q).None? <==> forall k :: 0 <= k < |rules| ==> !Eligible(q, rules[k])
    ensures BestRule(rules, q).Some? ==>
              var b := BestRule(rules, q).value;
              && Eligible(q, b)
              && (forall k :: 0 <= k < |rules| && Eligible(q, rules[k]) ==> rules[k].minQuantity <= b.minQuantity)
              && exists i :: 0 <= i < |rules| && rules[i] == b
                             && forall j :: 0 <= j < i ==> rules[j].minQuantity != b.minQuantity
    decreases |rules|
  {
    if rules != [] {
      var n := |rules| - 1;
      var init := rules[..n];
      BestRuleIsBest(init, q);
      assert forall k :: 0 <= k < n ==> rules[k] == init[k];
      var best := BestRule(init, q);
      if BestRule(rules, q) != best {
        BestIsLast(rules, q);
      } else if best.Some? {
        var i :| 0 <= i < |init| && init[i] == best.value
                 && forall j :: 0 <= j < i ==> init[j].minQuantity != best.value.minQuantity;
        assert rules[i] == init[i];
      }
    }
  }

  /** When the last rule wins, it beats every earlier rule the quantity reaches, and none has its minimum. */
  lemma BestIsLast<D>(rules: seq<Rule<D>>, q: int)
    requires rules != []
    requires var init := rules[..|rules| - 1];
             (BestRule(init, q).None? <==> forall k :: 0 <= k < |init| ==> !Eligible(q, init[k]))
             && (BestRule(init, q).Some? ==>
                   forall k :: 0 <= k < |init| && Eligible(q, init[k]) ==> init[k].minQuantity <= BestRule(init, q).value.minQuantity)
    requires BestRule(rules, q) != BestRule(rules[..|rules| - 1], q)
    ensures var n := |rules| - 1;
            && BestRule(rules, q) == Some(rules[n])
            && Eligible(q, rules[n])
            && forall j :: 0 <= j < n && Eligible(q, rules[j]) ==> rules[j].minQuantity < rules[n].minQuantity
  {
    var n := |rules| - 1;
    forall j | 0 <= j < n && Eligible(q, rules[j]) ensures rules[j].minQuantity < rules[n].minQuantity {
      assert rules[..n][j] == rules[j];
    }
  }
}
