/**
 * The currency of an inquiry, read from keywords in the lower-cased body:
 * dollars take precedence over rupees, and without either the configured
 * currency is assumed.
 */
module Currency {
  import opened Wrappers
  import opened Text
  import opened Records

  /** The body names US dollars: `usd` or the dollar sign. */
  predicate MentionsUsd(bodyLower: string) {
    Contains(bodyLower, "usd") || Contains(bodyLower, "$")
  }

  /** The body names Indian rupees: `inr`, the rupee sign or the word `rupees`. */
  predicate MentionsInr(bodyLower: string) {
    Contains(bodyLower, "inr") || Contains(bodyLower, "\U{20B9}") || Contains(bodyLower, "rupees")
  }

  /** The `currency` field of the event. */
  function CurrencyOf(bodyLower: string, config: Config): (f: Field<string>)
    ensures MentionsUsd(bodyLower) ==> f == Field(Some("USD"), 0.8, "")
    ensures !MentionsUsd(bodyLower) && MentionsInr(bodyLower) ==> f == Field(Some("INR"), 0.8, "")
    ensures !MentionsUsd(bodyLower) && !MentionsInr(bodyLower) ==>
              f == Field(config.currency, 0.5, "default currency assumed")
  {
    var found := if MentionsUsd(bodyLower) then Some("USD") else if MentionsInr(bodyLower) then Some("INR") else None;
    if found.Some? then Field(found, 0.8, "") else Field(config.currency, 0.5, "default currency assumed")
  }

  /** `w` occurs in `body` when ASCII case is ignored. */
  ghost predicate OccursIgnoringCase(body: string, w: string) {
    exists j: nat :: LowerAt(body, j, w)
  }

  /** `w` occurs at `j` in `body` when ASCII case is ignored. */
  predicate LowerAt(body: string, j: nat, w: string) {
    j + |w| <= |body| && Lower(body[j..j + |w|]) == w
  }

  /**
   * A keyword occurs in the lower-cased body exactly when it occurs in the
   * body in any mix of ASCII case.
   */
  lemma ContainsLowerIff(body: string, w: string)
    requires Lower(w) == w
    ensures Contains(Lower(body), w) <==> OccursIgnoringCase(body, w)
  {
    ContainsIff(Lower(body), w);
    if Contains(Lower(body), w) {
      var j: nat :| OccursAt(Lower(body), w, j);
      LowerSlice(body, j, j + |w|);
      assert LowerAt(body, j, w);
    }
    if OccursIgnoringCase(body, w) {
      var j: nat :| LowerAt(body, j, w);
      LowerSlice(body, j, j + |w|);
      assert OccursAt(Lower(body), w, j);
    }
  }

  /**
   * On the lower-cased body, dollars are detected exactly when `usd` (in any
   * case) or `$` occurs; rupees exactly when neither does and `inr`, the rupee
   * sign or `rupees` occurs; and the configured currency is assumed, at
   * confidence 0.5, exactly when no keyword occurs.
   */
  lemma DetectedIff(body: string, config: Config)
    ensures var f := CurrencyOf(Lower(body), config);
            var usd := OccursIgnoringCase(body, "usd") || OccursIgnoringCase(body, "$");
            var inr := OccursIgnoringCase(body, "inr") || OccursIgnoringCase(body, "\U{20B9}")
                       || OccursIgnoringCase(body, "rupees");
            && (f == Field(Some("USD"), 0.8, "") <==> usd)
            && (f == Field(Some("INR"), 0.8, "") <==> !usd && inr)
            && (f.confidence == 0.5 <==> !usd && !inr)
  {
    ContainsLowerIff(body, "usd");
    ContainsLowerIff(body, "inr");
    ContainsLowerIff(body, "rupees");
    ContainsLowerIff(body, "$");
    ContainsLowerIff(body, "\U{20B9}");
  }
}
