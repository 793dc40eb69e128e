/**
 * `EmailParser`: built from a price list and a configuration, it keeps the
 * alias map of the price list and turns the text of an email into an event.
 * The header gives the sender and the subject, the body the currency and
 * the requested products, which are consolidated into items and checked
 * for what is missing.
 */
module Parser {
  import opened Wrappers
  import opened Text
  import opened Records
  import opened Vocabulary
  import opened Sequences
  import opened Headers
  import opened Currency
  import opened KnownProducts
  import opened UnknownProducts
  import opened Consolidation
  import opened MissingFields

  /** The structured event of one email. */
  datatype Event = Event(
    emailId: string,
    from: Field<string>,
    subject: Field<string>,
    items: seq<Item>,
    currency: Field<string>,
    missingFields: seq<string>)

  /** `hexdigest()[:16]`: the first sixteen characters of the digest. */
  function EmailId(digest: string): (id: string)
    ensures |id| == (if |digest| < 16 then |digest| else 16) && id == digest[..|id|]
  {
    if |digest| <= 16 then digest else digest[..16]
  }

  /** The mentions of listed products in the body. */
  function KnownIn(catalog: Catalog, body: string): seq<Mention> {
    AliasesValid(catalog.names);
    KnownMentions(AliasesOf(catalog.names), Lower(body))
  }

  /** The mentions of unknown products in the body. */
  function UnknownIn(catalog: Catalog, body: string): seq<Mention> {
    UnknownMentions(AliasesOf(catalog.names), Lists, body)
  }

  /** The mentions of products in the body: the listed products, then the unknown ones. */
  function MentionsIn(catalog: Catalog, body: string): seq<Mention> {
    KnownIn(catalog, body) + UnknownIn(catalog, body)
  }

  /** The event `parse` returns for the text, given the hex digest of the text. */
  function ParseEmail(catalog: Catalog, config: Config, text: string, digest: string): Event {
    var (header, body) := SplitHeader(text);
    var lines := SplitLines(header);
    var from := Scanned(lines, From);
    var subject := Scanned(lines, Subject);
    var items := Items(catalog, config, MentionsIn(catalog, body));
    Event(EmailId(digest), from, subject, items, CurrencyOf(Lower(body), config), Missing(catalog, from, subject, items))
  }

  class EmailParser {
    var priceList: Catalog
    var config: Config
    var productNames: AliasMap

    /** The alias map is the one the price list gives. */
    ghost predicate Valid()
      reads this
    {
      productNames == AliasesOf(priceList.names)
    }

    /** `__init__`. */
    constructor (priceList: Catalog, config: Config)
      ensures this.priceList == priceList && this.config == config
      ensures Valid()
    {
      this.priceList := priceList;
      this.config := config;
      var aliases := BuildAliasMap(priceList.names);
      productNames := aliases;
    }

    /**
     * `parse`. The hex SHA-256 digest of the UTF-8 text is a function the
     * caller supplies.
     */
    method Parse(text: string, sha256Hex: string -> string) returns (event: Event)
      requires Valid()
      ensures event == ParseEmail(priceList, config, text, sha256Hex(text))
    {
      var emailId := EmailId(sha256Hex(text));
      var (header, body) := SplitHeader(text);
      var from, subject := ReadHeaders(header);
      var bodyLower := Lower(body);
      var currency := CurrencyOf(bodyLower, config);
      AliasesValid(priceList.names);
      var known := FindKnownMentions(productNames, bodyLower);
      var unknown := FindUnknownMentions(productNames, Lists, body);
      var items := Consolidate(priceList, config, known + unknown);
      var missing := DeriveMissing(priceList, from, subject, items);
      event := Event(emailId, from, subject, items, currency, missing);
    }
  }

  // -----------------------------------------------------------------------
  // Properties of the event

  /** The mentions of listed products name listed products, with a quantity at 0.9 or none at 0.6. */
  lemma KnownShape(catalog: Catalog, body: string, m: Mention)
    requires m in KnownIn(catalog, body)
    ensures m.name in catalog.names && WellShaped(m)
  {
    AliasesValid(catalog.names);
    KnownMentionShape(catalog.names, Lower(body), AliasesOf(catalog.names).keys);
  }

  /**
   * Every mention of the body either names a listed product and carries a
   * quantity at 0.9 or none, or names an unknown product without quantity.
   */
  lemma MentionsShape(catalog: Catalog, body: string)
    ensures forall m :: m in MentionsIn(catalog, body) ==>
              && (m.quantity.Some? ==> m.confidence == 0.9)
              && (m.name in catalog.names <==> m in KnownIn(catalog, body))
  {
    forall m | m in MentionsIn(catalog, body)
      ensures m.quantity.Some? ==> m.confidence == 0.9
      ensures m.name in catalog.names <==> m in KnownIn(catalog, body)
    {
      if m in KnownIn(catalog, body) {
        KnownShape(catalog, body, m);
      } else {
        UnknownNotListed(catalog.names, Lists, body, m);
      }
    }
  }

  /** An item of an event has a quantity with confidence 0.0 exactly when the quantity is missing. */
  lemma QuantityConfidenceOfBody(catalog: Catalog, config: Config, body: string, it: Item)
    requires it in Items(catalog, config, MentionsIn(catalog, body))
    ensures it.quantity.confidence == 0.0 <==> it.quantity.value.None?
  {
    var ms := MentionsIn(catalog, body);
    MentionsShape(catalog, body);
    QuantityConfidence(catalog, config, ms, it);
  }

  /** The item of a mentioned product carries that product's name. */
  lemma ItemNamed(catalog: Catalog, config: Config, ms: seq<Mention>, it: Item)
    requires it in Items(catalog, config, ms)
    ensures it.productName.value.Some? && it.productName.value.value in NamesOf(ms)
  {
    ItemsSpec(catalog, config, ms);
    DedupMembers(NamesOf(ms));
    var k :| 0 <= k < |Items(catalog, config, ms)| && Items(catalog, config, ms)[k] == it;
    assert Dedup(NamesOf(ms))[k] in Dedup(NamesOf(ms));
  }

  /** Every mentioned product has an item. */
  lemma NamedItem(catalog: Catalog, config: Config, ms: seq<Mention>, n: string)
    requires n in NamesOf(ms)
    ensures exists it :: it in Items(catalog, config, ms) && it.productName.value == Some(n)
  {
    ItemsSpec(catalog, config, ms);
    DedupMembers(NamesOf(ms));
    var names := Dedup(NamesOf(ms));
    var k :| 0 <= k < |names| && names[k] == n;
    assert Items(catalog, config, ms)[k] in Items(catalog, config, ms);
  }

  /** `price for n` is listed exactly when `n` is mentioned and is not a product of the price list. */
  lemma PriceMissing(catalog: Catalog, config: Config, from: Field<string>, subject: Field<string>, ms: seq<Mention>, n: string)
    requires catalog.Valid()
    ensures PriceFor + n in Missing(catalog, from, subject, Items(catalog, config, ms))
            <==> n in NamesOf(ms) && n !in catalog.names
  {
    var items := Items(catalog, config, ms);
    PriceListed(catalog, from, subject, items, n);
    if PriceFor + n in Missing(catalog, from, subject, items) {
      var it :| it in items && !Priced(catalog, it) && ItemName(it) == n;
      ItemNamed(catalog, config, ms, it);
    }
    if n in NamesOf(ms) && n !in catalog.names {
      NamedItem(catalog, config, ms, n);
      var it :| it in items && it.productName.value == Some(n);
      assert !Priced(catalog, it) && ItemName(it) == n;
    }
  }

  /** A product of the price list that the body mentions never gets a `price for` entry. */
  lemma KnownProductPriced(catalog: Catalog, config: Config, from: Field<string>, subject: Field<string>, body: string, m: Mention)
    requires catalog.Valid() && m in KnownIn(catalog, body)
    ensures PriceFor + m.name !in Missing(catalog, from, subject, Items(catalog, config, MentionsIn(catalog, body)))
  {
    KnownShape(catalog, body, m);
    PriceMissing(catalog, config, from, subject, MentionsIn(catalog, body), m.name);
  }
}
