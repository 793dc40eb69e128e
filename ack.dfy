/**
 * The clarifying questions of an acknowledgment draft: the first two
 * missing fields, in order, each turned into the question it calls for.
 */
module Acknowledgment {
  import opened Wrappers
  import opened Text
  import opened Records
  import opened Vocabulary
  import opened MissingFields

  const AskQuantity := "Could you please confirm the quantity required for "
  const AskDetails := "Could you provide more details about "
  const ForPricing := " so we can confirm pricing?"
  const AskItems := "Could you specify which products and quantities you are interested in?"
  const AskSubject := "Could you provide a brief subject for this inquiry?"
  const AskContact := "Could you let us know your preferred contact email?"

  /** The question a missing field asks; a field of no known kind asks none. */
  function QuestionFor(field: string): Option<string> {
    if StartsWith(field, QuantityFor) then Some(AskQuantity + SecondPiece(field, QuantityFor) + "?")
    else if StartsWith(field, PriceFor) then Some(AskDetails + SecondPiece(field, PriceFor) + ForPricing)
    else if field == "items" then Some(AskItems)
    else if field == "subject" then Some(AskSubject)
    else if field == "from" then Some(AskContact)
    else None
  }

  /** The questions the fields ask, in order. */
  function QuestionsOf(fields: seq<string>): (r: seq<string>)
    ensures |r| <= |fields|
    decreases |fields|
  {
    if fields == [] then []
    else
      var earlier := QuestionsOf(fields[..|fields| - 1]);
      match QuestionFor(fields[|fields| - 1])
      case Some(q) => earlier + [q]
      case None => earlier
  }

  /** `missing_fields[:2]`. */
  function Leading(missing: seq<string>): (r: seq<string>)
    ensures |r| <= 2 && |r| <= |missing| && r == missing[..|r|] && (|r| < 2 ==> r == missing)
  {
    if |missing| <= 2 then missing else missing[..2]
  }

  /** The questions of a draft: at most two. */
  function Questions(missing: seq<string>): (r: seq<string>)
    ensures |r| <= 2
  {
    QuestionsOf(Leading(missing))
  }

  /** The loop over the leading missing fields. */
  method AskQuestions(missing: seq<string>) returns (questions: seq<string>)
    ensures questions == Questions(missing)
  {
    var fields := Leading(missing);
    questions := [];
    for k := 0 to |fields|
      invariant questions == QuestionsOf(fields[..k])
    {
      assert fields[..k + 1][..k] == fields[..k];
      var field := fields[k];
      if StartsWith(field, QuantityFor) {
        questions := questions + [AskQuantity + SecondPiece(field, QuantityFor) + "?"];
      } else if StartsWith(field, PriceFor) {
        questions := questions + [AskDetails + SecondPiece(field, PriceFor) + ForPricing];
      } else if field == "items" {
        questions := questions + [AskItems];
      } else if field == "subject" {
        questions := questions + [AskSubject];
      } else if field == "from" {
        questions := questions + [AskContact];
      }
    }
    assert fields[..|fields|] == fields;
  }

  // -----------------------------------------------------------------------
  // Properties

  /** When every field asks a question, question `k` is the one field `k` asks. */
  lemma {:induction false} QuestionsInOrder(fields: seq<string>)
    requires forall k :: 0 <= k < |fields| ==> QuestionFor(fields[k]).Some?
    ensures |QuestionsOf(fields)| == |fields|
    ensures forall k :: 0 <= k < |fields| ==> QuestionFor(fields[k]) == Some(QuestionsOf(fields)[k])
    decreases |fields|
  {
    if fields != [] {
      var init := fields[..|fields| - 1];
      var last := fields[|fields| - 1];
      assert forall k :: 0 <= k < |init| ==> init[k] == fields[k];
      QuestionsInOrder(init);
      QuestionsStep(fields);
      var qs := QuestionsOf(fields);
      assert qs == QuestionsOf(init) + [QuestionFor(last).value];
    }
  }

  lemma QuestionsStep(fields: seq<string>)
    requires fields != [] && QuestionFor(fields[|fields| - 1]).Some?
    ensures QuestionsOf(fields) == QuestionsOf(fields[..|fields| - 1]) + [QuestionFor(fields[|fields| - 1]).value]
  {
  }

  /** A missing quantity asks for the quantity of the product it names. */
  lemma AskForQuantity(n: string)
    requires !Contains(n, QuantityFor)
    ensures QuestionFor(QuantityFor + n) == Some(AskQuantity + n + "?")
  {
    var field := QuantityFor + n;
    assert field[..|QuantityFor|] == QuantityFor;
    assert field[|QuantityFor|..] == n;
  }

  /** A missing price asks for the details of the product it names. */
  lemma AskForPrice(n: string)
    requires !Contains(n, PriceFor)
    ensures QuestionFor(PriceFor + n) == Some(AskDetails + n + ForPricing)
  {
    var field := PriceFor + n;
    assert field[..|PriceFor|] == PriceFor;
    assert field[|PriceFor|..] == n;
    assert field[0] == 'p' != QuantityFor[0];
  }

  /** Every entry of `missing_fields` is of a kind that asks a question. */
  lemma EveryFieldAsks(catalog: Catalog, from: Field<string>, subject: Field<string>, items: seq<Item>, g: string)
    requires g in Missing(catalog, from, subject, items)
    ensures QuestionFor(g).Some?
  {
    if g in GapsOf(catalog, items) {
      GapsMembers(catalog, items, g);
      var it :| it in items && GapOf(catalog, g, it);
      if g == QuantityFor + ItemName(it) {
        assert g[..|QuantityFor|] == QuantityFor;
      } else {
        assert g[..|PriceFor|] == PriceFor;
      }
    }
  }

  /**
   * The draft of an event asks one question for each of the first two
   * missing fields, in their order.
   */
  lemma DraftQuestions(catalog: Catalog, from: Field<string>, subject: Field<string>, items: seq<Item>)
    ensures var missing := Missing(catalog, from, subject, items);
            var qs := Questions(missing);
            && |qs| == (if |missing| < 2 then |missing| else 2)
            && forall k :: 0 <= k < |qs| ==> QuestionFor(missing[k]) == Some(qs[k])
  {
    var missing := Missing(catalog, from, subject, items);
    var fields := Leading(missing);
    forall k | 0 <= k < |fields| ensures QuestionFor(fields[k]).Some? {
      assert fields[k] == missing[k];
      EveryFieldAsks(catalog, from, subject, items, missing[k]);
    }
    QuestionsInOrder(fields);
  }
}
