/**
 * The consolidation of the mentions into items: one item per product name,
 * in the order the names are first mentioned. The first mention of a name
 * creates the item; a later one raises the product confidence to its own
 * when that is higher, and supplies the quantity when the item has none yet.
 */
module Consolidation {
  import opened Wrappers
  import opened Records
  import opened Vocabulary
  import opened Sequences

  /** The unit of a product: the one the price list gives, else the configured default. */
  function UnitOf(catalog: Catalog, config: Config, name: string): Option<string> {
    if name in catalog.info && catalog.info[name].unitOfMeasure.Some? then catalog.info[name].unitOfMeasure
    else config.defaultUnit
  }

  /** The quantity field of a new item: the mention's quantity at its confidence, or none at 0.0. */
  function QuantityField(m: Mention): Field<nat> {
    if m.quantity.Some? then Field(m.quantity, m.confidence, "") else Field(None, 0.0, "quantity missing")
  }

  /** The item the first mention of a name creates. */
  function NewItem(catalog: Catalog, config: Config, m: Mention): Item {
    Item(Field(Some(m.name), m.confidence, m.note), QuantityField(m), Field(UnitOf(catalog, config, m.name), 0.8, ""))
  }

  /** Python's `max(a, b)`. */
  function Max(a: real, b: real): (r: real)
    ensures r >= a && r >= b && (r == a || r == b)
  {
    if b > a then b else a
  }

  /** The item after a later mention of its name. */
  function Absorb(it: Item, m: Mention): Item {
    var quantity := if it.quantity.value.None? && m.quantity.Some? then Field(m.quantity, m.confidence, "") else it.quantity;
    Item(it.productName.(confidence := Max(it.productName.confidence, m.confidence)), quantity, it.unit)
  }

  /** `consolidated`: a dictionary from product name to item, its keys in insertion order. */
  datatype Consolidated = Consolidated(names: seq<string>, entries: map<string, Item>) {

    ghost predicate Valid() {
      Distinct(names) && forall n :: n in entries <==> n in names
    }
  }

  /** One iteration of the consolidation loop. */
  function Record(catalog: Catalog, config: Config, c: Consolidated, m: Mention): Consolidated {
    if m.name in c.entries then Consolidated(c.names, c.entries[m.name := Absorb(c.entries[m.name], m)])
    else Consolidated(c.names + [m.name], c.entries[m.name := NewItem(catalog, config, m)])
  }

  /** The dictionary once the loop has seen `ms`. */
  function ConsolidateAll(catalog: Catalog, config: Config, ms: seq<Mention>): Consolidated
    decreases |ms|
  {
    if ms == [] then Consolidated([], map[])
    else Record(catalog, config, ConsolidateAll(catalog, config, ms[..|ms| - 1]), ms[|ms| - 1])
  }

  /** `consolidated.values()`: the items in the order of their names. */
  function ItemsOf(names: seq<string>, entries: map<string, Item>): (r: seq<Item>)
    requires forall n :: n in names ==> n in entries
    ensures |r| == |names| && forall k :: 0 <= k < |names| ==> r[k] == entries[names[k]]
    decreases |names|
  {
    if names == [] then []
    else ItemsOf(names[..|names| - 1], entries) + [entries[names[|names| - 1]]]
  }

  /** The items the mentions `ms` consolidate into. */
  function Items(catalog: Catalog, config: Config, ms: seq<Mention>): seq<Item> {
    ConsolidateAllValid(catalog, config, ms);
    var c := ConsolidateAll(catalog, config, ms);
    ItemsOf(c.names, c.entries)
  }

  // -----------------------------------------------------------------------
  // What each item should be, stated without the loop

  /** The names of the mentions, in order. */
  function NamesOf(ms: seq<Mention>): (r: seq<string>)
    ensures |r| == |ms| && forall k :: 0 <= k < |ms| ==> r[k] == ms[k].name
    decreases |ms|
  {
    if ms == [] then [] else NamesOf(ms[..|ms| - 1]) + [ms[|ms| - 1].name]
  }

  /** The mentions of `name`, in order. */
  function Named(ms: seq<Mention>, name: string): seq<Mention>
    decreases |ms|
  {
    if ms == [] then []
    else
      var earlier := Named(ms[..|ms| - 1], name);
      if ms[|ms| - 1].name == name then earlier + [ms[|ms| - 1]] else earlier
  }

  /** The highest confidence among the mentions. */
  function MaxConfidence(ms: seq<Mention>): real
    requires ms != []
    decreases |ms|
  {
    if |ms| == 1 then ms[0].confidence else Max(MaxConfidence(ms[..|ms| - 1]), ms[|ms| - 1].confidence)
  }

  /** The first mention that carries a quantity. */
  function FirstQuantified(ms: seq<Mention>): (r: Option<Mention>)
    ensures r.Some? ==> r.value.quantity.Some?
    decreases |ms|
  {
    if ms == [] then None
    else
      var earlier := FirstQuantified(ms[..|ms| - 1]);
      if earlier.Some? then earlier else if ms[|ms| - 1].quantity.Some? then Some(ms[|ms| - 1]) else None
  }

  /**
   * The item of a mentioned name: the highest confidence of its mentions and
   * the note of the first, the quantity of the first mention that carries
   * one, and the unit of the product.
   */
  function ItemFor(catalog: Catalog, config: Config, ms: seq<Mention>, name: string): Item
    requires Named(ms, name) != []
  {
    var named := Named(ms, name);
    var quantity := match FirstQuantified(named)
      case Some(m) => Field(m.quantity, m.confidence, "")
      case None => Field(None, 0.0, "quantity missing");
    Item(Field(Some(name), MaxConfidence(named), named[0].note), quantity, Field(UnitOf(catalog, config, name), 0.8, ""))
  }

  // -----------------------------------------------------------------------
  // The loop

  /** The consolidation loop and the list of items built from the dictionary. */
  method Consolidate(catalog: Catalog, config: Config, ms: seq<Mention>) returns (items: seq<Item>)
    ensures items == Items(catalog, config, ms)
  {
    var names: seq<string> := [];
    var entries: map<string, Item> := map[];
    for i := 0 to |ms|
      invariant Consolidated(names, entries) == ConsolidateAll(catalog, config, ms[..i])
    {
      assert ms[..i + 1][..i] == ms[..i];
      var m := ms[i];
      if m.name !in entries {
        names := names + [m.name];
        entries := entries[m.name := NewItem(catalog, config, m)];
      } else {
        var entry := entries[m.name];
        if entry.quantity.value.None? && m.quantity.Some? {
          entry := entry.(quantity := Field(m.quantity, m.confidence, ""));
        }
        entry := entry.(productName := entry.productName.(confidence := Max(entry.productName.confidence, m.confidence)));
        entries := entries[m.name := entry];
      }
    }
    assert ms[..|ms|] == ms;
    ConsolidateAllValid(catalog, config, ms);
    items := [];
    for k := 0 to |names|
      invariant items == ItemsOf(names[..k], entries)
    {
      assert names[..k + 1][..k] == names[..k];
      items := items + [entries[names[k]]];
    }
    assert names[..|names|] == names;
  }

  // -----------------------------------------------------------------------
  // Properties

  /** The dictionary is one: each name once, and an entry for exactly the listed names. */
  lemma {:induction false} ConsolidateAllValid(catalog: Catalog, config: Config, ms: seq<Mention>)
    ensures ConsolidateAll(catalog, config, ms).Valid()
    decreases |ms|
  {
    if ms != [] {
      ConsolidateAllValid(catalog, config, ms[..|ms| - 1]);
      RecordValid(catalog, config, ConsolidateAll(catalog, config, ms[..|ms| - 1]), ms[|ms| - 1]);
    }
  }

  lemma RecordValid(catalog: Catalog, config: Config, c: Consolidated, m: Mention)
    requires c.Valid()
    ensures Record(catalog, config, c, m).Valid()
  {
  }

  /** A name has mentions exactly when it is the name of one of them. */
  lemma {:induction false} NamedIff(ms: seq<Mention>, name: string)
    ensures Named(ms, name) != [] <==> name in NamesOf(ms)
    ensures forall m :: m in Named(ms, name) <==> m in ms && m.name == name
    decreases |ms|
  {
    if ms != [] {
      var init := ms[..|ms| - 1];
      NamedIff(init, name);
      assert ms == init + [ms[|ms| - 1]];
      assert NamesOf(ms) == NamesOf(init) + [ms[|ms| - 1].name];
    }
  }

  /** The names the dictionary lists are the mentioned names, each once, in the order of first mention. */
  lemma {:induction false} ConsolidatedNames(catalog: Catalog, config: Config, ms: seq<Mention>)
    ensures ConsolidateAll(catalog, config, ms).names == Dedup(NamesOf(ms))
    decreases |ms|
  {
    if ms != [] {
      var init := ms[..|ms| - 1];
      ConsolidatedNames(catalog, config, init);
      ConsolidateAllValid(catalog, config, init);
      DedupMembers(NamesOf(init));
      assert NamesOf(ms)[..|ms| - 1] == NamesOf(init);
    }
  }

  /** Each entry of the dictionary is the item its name should have. */
  lemma {:induction false} ConsolidatedEntries(catalog: Catalog, config: Config, ms: seq<Mention>)
    ensures var c := ConsolidateAll(catalog, config, ms);
            forall n :: n in c.entries ==> Named(ms, n) != [] && c.entries[n] == ItemFor(catalog, config, ms, n)
    decreases |ms|
  {
    if ms != [] {
      var init := ms[..|ms| - 1];
      var m := ms[|ms| - 1];
      var c := ConsolidateAll(catalog, config, init);
      ConsolidatedEntries(catalog, config, init);
      forall n | n in Record(catalog, config, c, m).entries
        ensures Named(ms, n) != [] && Record(catalog, config, c, m).entries[n] == ItemFor(catalog, config, ms, n)
      {
        if n != m.name {
          RecordOther(catalog, config, ms, n);
        } else if n in c.entries {
          RecordExisting(catalog, config, ms);
        } else {
          ConsolidateAllValid(catalog, config, init);
          ConsolidatedNames(catalog, config, init);
          DedupMembers(NamesOf(init));
          NamedIff(init, n);
          RecordNew(catalog, config, ms);
        }
      }
    }
  }

  /** A mention leaves the items of the other names as they were. */
  lemma RecordOther(catalog: Catalog, config: Config, ms: seq<Mention>, n: string)
    requires ms != [] && n != ms[|ms| - 1].name && Named(ms[..|ms| - 1], n) != []
    ensures Named(ms, n) == Named(ms[..|ms| - 1], n)
    ensures ItemFor(catalog, config, ms, n) == ItemFor(catalog, config, ms[..|ms| - 1], n)
  {
  }

  /** A mention of a name already in the dictionary absorbs into its item. */
  lemma RecordExisting(catalog: Catalog, config: Config, ms: seq<Mention>)
    requires ms != [] && Named(ms[..|ms| - 1], ms[|ms| - 1].name) != []
    ensures var m := ms[|ms| - 1];
            Absorb(ItemFor(catalog, config, ms[..|ms| - 1], m.name), m) == ItemFor(catalog, config, ms, m.name)
  {
    var m := ms[|ms| - 1];
    var earlier := Named(ms[..|ms| - 1], m.name);
    var named := earlier + [m];
    assert Named(ms, m.name) == named;
    assert named[..|named| - 1] == earlier;
    assert named[0] == earlier[0];
  }

  /** The first mention of a name creates its item. */
  lemma RecordNew(catalog: Catalog, config: Config, ms: seq<Mention>)
    requires ms != [] && Named(ms[..|ms| - 1], ms[|ms| - 1].name) == []
    ensures var m := ms[|ms| - 1];
            Named(ms, m.name) == [m] && NewItem(catalog, config, m) == ItemFor(catalog, config, ms, m.name)
  {
    var m := ms[|ms| - 1];
    assert Named(ms, m.name) == [m];
    assert [m][..0] == [];
    assert FirstQuantified([]) == None;
    assert FirstQuantified([m]) == if m.quantity.Some? then Some(m) else None;
    assert MaxConfidence([m]) == m.confidence;
  }

  /**
   * The items: one per mentioned name, no two with the same name, in the
   * order the names are first mentioned, each the item its name should have.
   */
  lemma ItemsSpec(catalog: Catalog, config: Config, ms: seq<Mention>)
    ensures var items := Items(catalog, config, ms);
            var names := Dedup(NamesOf(ms));
            && |items| == |names|
            && (forall k :: 0 <= k < |items| ==>
                  Named(ms, names[k]) != [] && items[k] == ItemFor(catalog, config, ms, names[k]))
            && (forall i, j :: 0 <= i < j < |items| ==> items[i].productName.value != items[j].productName.value)
  {
    ConsolidateAllValid(catalog, config, ms);
    ConsolidatedNames(catalog, config, ms);
    ConsolidatedEntries(catalog, config, ms);
  }

  /** The highest confidence is that of some mention, and no mention has a higher one. */
  lemma {:induction false} MaxConfidenceIsMax(ms: seq<Mention>)
    requires ms != []
    ensures forall m :: m in ms ==> m.confidence <= MaxConfidence(ms)
    ensures exists m :: m in ms && m.confidence == MaxConfidence(ms)
    decreases |ms|
  {
    if |ms| > 1 {
      var init := ms[..|ms| - 1];
      MaxConfidenceIsMax(init);
      assert ms == init + [ms[|ms| - 1]];
    } else {
      assert ms[0] in ms;
    }
  }

  /** `FirstQuantified` finds the first mention with a quantity, and none only when no mention has one. */
  lemma {:induction false} FirstQuantifiedIsFirst(ms: seq<Mention>)
    ensures FirstQuantified(ms).None? <==> forall k :: 0 <= k < |ms| ==> ms[k].quantity.None?
    ensures FirstQuantified(ms).Some? ==>
              exists k :: 0 <= k < |ms| && ms[k] == FirstQuantified(ms).value
                          && forall j :: 0 <= j < k ==> ms[j].quantity.None?
    decreases |ms|
  {
    if ms != [] {
      var init := ms[..|ms| - 1];
      FirstQuantifiedIsFirst(init);
      if FirstQuantified(init).Some? {
        var k :| 0 <= k < |init| && init[k] == FirstQuantified(init).value
                 && forall j :: 0 <= j < k ==> init[j].quantity.None?;
        assert ms[k] == init[k];
      } else {
        assert forall k :: 0 <= k < |init| ==> ms[k] == init[k];
      }
    }
  }

  /**
   * When every mention that carries a quantity has a non-zero confidence,
   * an item's quantity has confidence 0.0 exactly when it has no value.
   */
  lemma QuantityConfidence(catalog: Catalog, config: Config, ms: seq<Mention>, it: Item)
    requires forall m :: m in ms && m.quantity.Some? ==> m.confidence != 0.0
    requires it in Items(catalog, config, ms)
    ensures it.quantity.confidence == 0.0 <==> it.quantity.value.None?
  {
    ItemsSpec(catalog, config, ms);
    var names := Dedup(NamesOf(ms));
    var k :| 0 <= k < |Items(catalog, config, ms)| && Items(catalog, config, ms)[k] == it;
    var named := Named(ms, names[k]);
    NamedIff(ms, names[k]);
    FirstQuantifiedIsFirst(named);
    if FirstQuantified(named).Some? {
      var i :| 0 <= i < |named| && named[i] == FirstQuantified(named).value;
      assert named[i] in named;
    }
  }
}
