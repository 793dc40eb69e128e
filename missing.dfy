/**
 * `missing_fields`: what the parser could not extract, in a fixed order.
 * First the sender, then the subject, each when it has no value or an empty
 * one; then either `items` when there are none, or, item by item, a missing
 * quantity followed by a product the price list does not know.
 */
module MissingFields {
  import opened Wrappers
  import opened Records
  import opened Vocabulary

  const QuantityFor := "quantity for "
  const PriceFor := "price for "

  /** Python's `not value` for a text field: no value, or the empty string. */
  predicate Falsy(f: Field<string>) {
    f.value.None? || f.value.value == ""
  }

  /** The product name of an item as an f-string renders it (a missing one would read `None`). */
  function ItemName(it: Item): string {
    it.productName.value.GetOr("None")
  }

  /** The product is a key of the price list. */
  predicate Priced(catalog: Catalog, it: Item) {
    it.productName.value.Some? && it.productName.value.value in catalog.info
  }

  /** The entries one item contributes. */
  function ItemGaps(catalog: Catalog, it: Item): seq<string> {
    (if it.quantity.value.None? then [QuantityFor + ItemName(it)] else [])
    + (if !Priced(catalog, it) then [PriceFor + ItemName(it)] else [])
  }

  /** The entries of the items, in item order. */
  function GapsOf(catalog: Catalog, items: seq<Item>): seq<string>
    decreases |items|
  {
    if items == [] then [] else GapsOf(catalog, items[..|items| - 1]) + ItemGaps(catalog, items[|items| - 1])
  }

  /** The `missing_fields` of an event. */
  function Missing(catalog: Catalog, from: Field<string>, subject: Field<string>, items: seq<Item>): seq<string> {
    (if Falsy(from) then ["from"] else [])
    + (if Falsy(subject) then ["subject"] else [])
    + (if items == [] then ["items"] else GapsOf(catalog, items))
  }

  /** The appends to `event['missing_fields']`. */
  method DeriveMissing(catalog: Catalog, from: Field<string>, subject: Field<string>, items: seq<Item>)
    returns (missing: seq<string>)
    ensures missing == Missing(catalog, from, subject, items)
  {
    missing := [];
    if Falsy(from) {
      missing := missing + ["from"];
    }
    if Falsy(subject) {
      missing := missing + ["subject"];
    }
    if items == [] {
      missing := missing + ["items"];
    } else {
      missing := AppendGaps(catalog, items, missing);
    }
  }

  /** The loop over the items. */
  method AppendGaps(catalog: Catalog, items: seq<Item>, head: seq<string>) returns (missing: seq<string>)
    ensures missing == head + GapsOf(catalog, items)
  {
    missing := head;
    for k := 0 to |items|
      invariant missing == head + GapsOf(catalog, items[..k])
    {
      GapsStep(catalog, items, k);
      var it := items[k];
      var before := missing;
      if it.quantity.value.None? {
        missing := missing + [QuantityFor + ItemName(it)];
      }
      if !Priced(catalog, it) {
        missing := missing + [PriceFor + ItemName(it)];
      }
      assert missing == before + ItemGaps(catalog, it);
    }
    assert items[..|items|] == items;
  }

  lemma GapsStep(catalog: Catalog, items: seq<Item>, k: nat)
    requires k < |items|
    ensures GapsOf(catalog, items[..k + 1]) == GapsOf(catalog, items[..k]) + ItemGaps(catalog, items[k])
  {
    assert items[..k + 1][..k] == items[..k];
  }

  // -----------------------------------------------------------------------
  // Properties

  /** The entries of the items follow the items: those of a concatenation are concatenated. */
  lemma {:induction false} GapsOfAppend(catalog: Catalog, xs: seq<Item>, ys: seq<Item>)
    ensures GapsOf(catalog, xs + ys) == GapsOf(catalog, xs) + GapsOf(catalog, ys)
    decreases |ys|
  {
    if ys == [] {
      assert xs + ys == xs;
    } else {
      var init := ys[..|ys| - 1];
      var last := ys[|ys| - 1];
      GapsOfAppend(catalog, xs, init);
      assert (xs + ys)[..|xs + ys| - 1] == xs + init;
      assert (xs + ys)[|xs + ys| - 1] == last;
      assert GapsOf(catalog, xs + ys) == GapsOf(catalog, xs + init) + ItemGaps(catalog, last);
      assert GapsOf(catalog, ys) == GapsOf(catalog, init) + ItemGaps(catalog, last);
    }
  }

  /** An entry of an item is a missing quantity or a missing price of that item. */
  predicate GapOf(catalog: Catalog, g: string, it: Item) {
    (g == QuantityFor + ItemName(it) && it.quantity.value.None?)
    || (g == PriceFor + ItemName(it) && !Priced(catalog, it))
  }

  /** The entries of the items are exactly the missing quantities and prices of the items. */
  lemma {:induction false} GapsMembers(catalog: Catalog, items: seq<Item>, g: string)
    ensures g in GapsOf(catalog, items) <==> exists it :: it in items && GapOf(catalog, g, it)
    decreases |items|
  {
    if items != [] {
      var init := items[..|items| - 1];
      var last := items[|items| - 1];
      GapsMembers(catalog, init, g);
      assert items == init + [last];
      assert g in ItemGaps(catalog, last) <==> GapOf(catalog, g, last);
      if g in GapsOf(catalog, items) && !(g in GapsOf(catalog, init)) {
        assert GapOf(catalog, g, last);
      }
    }
  }

  /** No entry of an item reads `from`, `subject` or `items`. */
  lemma GapsAreLong(catalog: Catalog, items: seq<Item>)
    ensures forall g :: g in GapsOf(catalog, items) ==> |g| >= |PriceFor|
  {
    forall g | g in GapsOf(catalog, items) ensures |g| >= |PriceFor| {
      GapsMembers(catalog, items, g);
    }
  }

  /** The entries of two different kinds never coincide. */
  lemma PrefixesDiffer(a: string, b: string)
    ensures QuantityFor + a != PriceFor + b
  {
    assert (QuantityFor + a)[0] == 'q';
    assert (PriceFor + b)[0] == 'p';
  }

  /** An entry gives back the name it was made from. */
  lemma PrefixInjective(p: string, a: string, b: string)
    requires p + a == p + b
    ensures a == b
  {
    assert a == (p + a)[|p|..];
    assert b == (p + b)[|p|..];
  }

  /** `from` is listed exactly when the sender is missing, and then first. */
  lemma FromListed(catalog: Catalog, from: Field<string>, subject: Field<string>, items: seq<Item>)
    ensures var r := Missing(catalog, from, subject, items);
            ("from" in r <==> Falsy(from)) && (Falsy(from) ==> r[0] == "from")
  {
    GapsAreLong(catalog, items);
  }

  /** `subject` is listed exactly when the subject is missing, and then right after `from` or first. */
  lemma SubjectListed(catalog: Catalog, from: Field<string>, subject: Field<string>, items: seq<Item>)
    ensures var r := Missing(catalog, from, subject, items);
            ("subject" in r <==> Falsy(subject))
            && (Falsy(subject) ==> r[if Falsy(from) then 1 else 0] == "subject")
  {
    GapsAreLong(catalog, items);
  }

  /** `items` is listed exactly when there are no items, and then last. */
  lemma ItemsListed(catalog: Catalog, from: Field<string>, subject: Field<string>, items: seq<Item>)
    ensures var r := Missing(catalog, from, subject, items);
            ("items" in r <==> items == []) && (items == [] ==> r[|r| - 1] == "items")
  {
    GapsAreLong(catalog, items);
  }

  /** `quantity for n` is listed exactly when an item named `n` has no quantity. */
  lemma QuantityListed(catalog: Catalog, from: Field<string>, subject: Field<string>, items: seq<Item>, n: string)
    ensures QuantityFor + n in Missing(catalog, from, subject, items)
            <==> exists it :: it in items && it.quantity.value.None? && ItemName(it) == n
  {
    var g := QuantityFor + n;
    if items != [] {
      GapsMembers(catalog, items, g);
      if g in GapsOf(catalog, items) {
        var it :| it in items && GapOf(catalog, g, it);
        PrefixesDiffer(n, ItemName(it));
        PrefixInjective(QuantityFor, n, ItemName(it));
      }
      if exists it :: it in items && it.quantity.value.None? && ItemName(it) == n {
        var it :| it in items && it.quantity.value.None? && ItemName(it) == n;
        assert GapOf(catalog, g, it);
      }
    }
  }

  /** `price for n` is listed exactly when an item named `n` is not in the price list. */
  lemma PriceListed(catalog: Catalog, from: Field<string>, subject: Field<string>, items: seq<Item>, n: string)
    ensures PriceFor + n in Missing(catalog, from, subject, items)
            <==> exists it :: it in items && !Priced(catalog, it) && ItemName(it) == n
  {
    var g := PriceFor + n;
    if items != [] {
      GapsMembers(catalog, items, g);
      if g in GapsOf(catalog, items) {
        var it :| it in items && GapOf(catalog, g, it);
        PrefixesDiffer(ItemName(it), n);
        PrefixInjective(PriceFor, n, ItemName(it));
      }
      if exists it :: it in items && !Priced(catalog, it) && ItemName(it) == n {
        var it :| it in items && !Priced(catalog, it) && ItemName(it) == n;
        assert GapOf(catalog, g, it);
      }
    }
  }
}
