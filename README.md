# Email parser model

A Dafny model of `EmailParser`, the part of the inbox processor that turns
the raw text of a customer email into a structured event. The model also
covers two helpers that use that event: how an acknowledgment draft picks
its clarifying questions, and the tiered discount lookup.

The parser is built from a price list (product name to product
information) and a configuration. From the product names it builds an
alias map. Each name is registered lower-cased, and also with an `s`
appended unless it already ends in `s`. `parse` does the rest:

- It splits the text at the first blank line into header and body.
- It reads the `From:` and `Subject:` header lines. When a header appears
  on several lines, the last one wins.
- It detects the currency in the lower-cased body: USD first, then INR,
  else the configured default.
- It finds the listed products in the body. A key preceded by a number
  (optionally with one word in between) is a mention with a quantity, at
  confidence 0.9. A bare key not inside such a match is a mention without
  a quantity, at confidence 0.6.
- It guesses unknown products. One heuristic is an `X and Y` phrase where
  exactly one side is a known product. The other looks up to four tokens
  past a purchase verb. Either way the candidate must end in `s`, must not
  be a stopword and must not be a known product. Candidates are title-cased
  and deduplicated.
- It consolidates the mentions into one item per product name, in order of
  first mention.
- It lists the missing fields.

The modules follow that pipeline:

- `Wrappers`: `Option`.
- `Records`: field, mention, item and configuration records.
- `Sequences`: distinctness and order-preserving deduplication.
- `Text`: ASCII character classes, lower/title case, `str.strip`,
  `str.splitlines` and substring search.
- `Patterns`: the four regular expressions of `parse`, each written out as a
  matcher at a position, and `finditer` as a leftmost, non-overlapping scan.
- `Vocabulary`: the price list and the alias map.
- `Headers`: the header/body split and the header lines.
- `Currency`: currency detection.
- `KnownProducts`: the mentions of listed products.
- `UnknownProducts`: the guessed unknown products.
- `Consolidation`: the item per product.
- `MissingFields`: the missing-fields list.
- `Acknowledgment`: the clarifying questions.
- `Discounts`: `apply_discount`.
- `Parser`: the `EmailParser` class and the event.

Every loop of the source becomes a method. Each method is proved equal to a
specification function, and the lemmas state the behaviour in terms of
those functions. Python dictionaries that keep insertion order become a
sequence of keys plus a map. Confidences are `real`.

Where the written design of the system and its code disagree, the model
follows the code:

- The alias map keeps the later write when two products produce the same
  key. The design says the first registration wins.
- The last `From:` or `Subject:` line of the header wins. The design says
  the first one does.
- The default currency comes from the configuration key `currency`. The
  design names `default_currency`. When the key is absent, the currency
  field has no value but still has confidence 0.5.
- `from` and `subject` are missing when their value is absent or empty,
  which is Python's `not value`.
- An item's unit has confidence 0.8 even when no unit is known.

## Model

| member | source | states |
|---|---|---|
| Parser.EmailParser.constructor | process_emails.py:48-59 | keeps the price list and configuration, and the alias map is the one the product names give |
| Vocabulary.BuildAliasMap | process_emails.py:53-59 | the loop over the product names builds exactly the alias map of the names, in key insertion order |
| Vocabulary.AddProductEffect | process_emails.py:55-59 | registering a product adds exactly its lower-cased name and, unless that ends in `s`, its plural, both pointing at it; every other key is unchanged |
| Vocabulary.AliasesValid | process_emails.py:53-59 | the alias map's key order lists each key once, and its keys are exactly the keys of the map |
| Vocabulary.AliasKeys | process_emails.py:53-59 | a key is in the alias map if and only if it is an alias of some listed name |
| Vocabulary.AliasesLastWins | process_emails.py:53-59 | a key maps to the last listed name that it is an alias of |
| Vocabulary.AliasShape | process_emails.py:106-109 | every canonical name is a listed product and its key is that name lower-cased, or lower-cased with `s` appended |
| KnownProducts.EveryEntryKept | process_emails.py:106-109 | the test that skips alias-map entries never skips one |
| Parser.EmailId | process_emails.py:64 | the email id is the first sixteen characters of the digest, or the whole digest when it is shorter |
| Parser.EmailParser.Parse | process_emails.py:61-224 | the event is the one the specification function gives for the text and the digest of the text |
| Headers.SplitHeader | process_emails.py:76-79 | with a blank line, the text is cut at its first blank line: header + blank line + body is the text, the blank line starts right after the header, and none starts earlier; without one, the whole text is the header and the body is empty |
| Headers.ReadHeaders | process_emails.py:81-88 | the loop over the header lines yields the sender and subject fields of the last matching line |
| Headers.ColonInPrefix | process_emails.py:83-87 | a `from:`/`subject:` line has its first colon at the end of the prefix |
| Headers.ValueAfterPrefix | process_emails.py:84-88 | a header line's value is the rest of the line after the prefix, with whitespace stripped |
| Headers.LastLineWins | process_emails.py:82-88 | the field is the one of the last line that carries that header |
| Headers.NoLineUnset | process_emails.py:69-70 | without a matching line the field keeps its initial value: none, confidence 0.0, no note |
| Headers.ScannedShape | process_emails.py:85-88 | the field is unset, or its confidence is 0.95 exactly when the value is non-empty and 0.0 with the missing note exactly when it is empty |
| Text.SplitLines | process_emails.py:82 | no line contains a line break |
| Text.SplitLinesBreak | process_emails.py:82 | a line without breaks, ended by a single line break, is the first line, and the lines of the rest follow it |
| Text.SplitLinesCrLf | process_emails.py:82 | `\r\n` ends a line as one break, so no empty line appears between `\r` and `\n` |
| Text.SplitLinesLast | process_emails.py:82 | a non-empty text without breaks is one line, and the empty text has no lines, so a final break adds no empty line |
| Text.StripIsSlice | process_emails.py:84 | stripping returns a contiguous slice of the input |
| Text.WhitespaceIsSpace | process_emails.py:84 | the characters `strip` removes are exactly the whitespace class of the patterns |
| Text.SecondPiece | process_emails.py:257-260 | the piece after the separator is the rest of the text up to the next occurrence of the separator, or all of it when the separator does not occur again |
| Currency.CurrencyOf | process_emails.py:90-101 | USD at 0.8 when `usd` or `$` occurs; else INR at 0.8 when `inr`, `₹` or `rupees` occurs; else the configured currency at 0.5 with the default note |
| Currency.ContainsLowerIff | process_emails.py:92-95 | a lower-case keyword occurs in the lower-cased body if and only if it occurs in the body ignoring case |
| Currency.DetectedIff | process_emails.py:90-101 | USD if and only if a USD keyword occurs in any case; INR if and only if an INR keyword occurs and no USD keyword does; the default exactly when neither occurs |
| Patterns.QuantityPartsForm | process_emails.py:111 | the digits and key positions chosen at a position have the pattern's form: a word boundary, the digit group, whitespace with at most one word inside it, then the key in any case and a word boundary |
| Patterns.QuantityMatchShape | process_emails.py:111-113 | a quantity match has one group, the digit run at its start, and has the pattern's form, ending with the key |
| Patterns.QuantityMatchComplete | process_emails.py:111-112 | wherever the text has the quantity pattern's form at a position, the pattern matches there with the same digit group |
| Patterns.BareMatchIff | process_emails.py:118 | a bare key matches at a position if and only if the key occurs there ignoring case between two word boundaries |
| Patterns.ConjunctionMatchShape | process_emails.py:143 | an `X and Y` match is a word boundary, a first group that is a whole token run, whitespace, `and` in any case, whitespace, and a second group that is the longest part of the next token run ending at a word boundary |
| Patterns.ConjunctionMatchComplete | process_emails.py:143-144 | wherever the text has the `X and Y` form at a position, the pattern matches there with the same first group and a second group starting at the same place and reaching at least as far |
| Patterns.TokenMatchShape | process_emails.py:159 | a token match exists at a position if and only if a word character or hyphen is there, and it is the maximal run of them |
| Patterns.FindIterTokens | process_emails.py:159 | a token starts at a position if and only if a run of word characters and hyphens starts there |
| Patterns.MatchTable | process_emails.py:111-159 | the table has an entry per position, each match starting at its position and having the pattern's shape |
| Patterns.FindIter | process_emails.py:112-159 | every match of `finditer` lies in the text and has the shape of its pattern |
| Patterns.FindIterMatchAt | process_emails.py:112-159 | every match of `finditer` is the match of the pattern at its start position |
| Patterns.FindIterOrdered | process_emails.py:112-159 | the matches of `finditer` come in increasing order and do not overlap |
| Patterns.FindIterLeftmost | process_emails.py:112-159 | every position where the pattern matches is a match start or lies inside an earlier match |
| Patterns.QuantityKeyIsBareMatch | process_emails.py:118-130 | the key at the end of a quantity match starts after the match's start and is itself a bare match |
| KnownProducts.QuantityKeyDropped | process_emails.py:118-130 | the bare match of the key that ends a quantity match is spanned by that match, so it is never reported again without quantity |
| KnownProducts.LeadingZero | process_emails.py:114 | `int` ignores leading zeros |
| KnownProducts.QuantifiedShape | process_emails.py:112-116 | the quantity mention of match `k` carries the canonical name, the captured number, confidence 0.9 and no note |
| KnownProducts.UnquantifiedShape | process_emails.py:132 | every bare mention carries the canonical name, no quantity, confidence 0.6 and no note |
| KnownProducts.UncontainedIff | process_emails.py:119-130 | a bare match is kept if and only if no quantity match spans it |
| KnownProducts.SpannedByQuantity | process_emails.py:122-128 | the inner loop reports an overlap exactly when some quantity match spans the bare match |
| KnownProducts.CollectQuantityMentions | process_emails.py:111-116 | the loop over the quantity matches yields the quantity mentions |
| KnownProducts.CollectBareMentions | process_emails.py:118-132 | the loop over the bare matches yields the bare matches that no quantity match spans |
| KnownProducts.CollectKeyMentions | process_emails.py:106-132 | one alias-map entry yields its quantity mentions followed by its bare mentions |
| KnownProducts.FindKnownMentions | process_emails.py:104-132 | the loop over the alias map yields the known mentions, key by key in insertion order |
| KnownProducts.KnownMentionShape | process_emails.py:106-132 | every known mention names a listed product and has a quantity at 0.9 or no quantity at 0.6, with no note |
| UnknownProducts.PairCandidateUnknown | process_emails.py:148-153 | the `cand_lc not in self.product_names` test of the pair heuristic always passes |
| UnknownProducts.CollectPairCandidates | process_emails.py:143-154 | the loop over `X and Y` matches yields the pair candidates |
| UnknownProducts.PairCandidatesIff | process_emails.py:143-154 | a word is a pair candidate if and only if some match has exactly one known group, and the word is the other group, plausible and title-cased |
| UnknownProducts.PairMatchForm | process_emails.py:143-145 | every `X and Y` match the pair heuristic looks at has the pattern's form |
| UnknownProducts.PairCandidatePlausible | process_emails.py:148-154 | a pair candidate is unknown, not a stopword and ends in `s` |
| UnknownProducts.StripPunctOfToken | process_emails.py:159-168 | stripping punctuation leaves a token unchanged |
| UnknownProducts.LookAhead | process_emails.py:164-176 | the scan past a verb takes the first plausible token among the next four, if there is one |
| UnknownProducts.LookAheadFinds | process_emails.py:164-176 | when a plausible token `idx` comes first within four tokens, its title-cased form is returned |
| UnknownProducts.LookAheadMisses | process_emails.py:164-176 | when none of the next four tokens is plausible, nothing is returned |
| UnknownProducts.CheckCandidate | process_emails.py:170-174 | a candidate passes exactly when it is unknown, not a stopword and plural |
| UnknownProducts.CollectVerbCandidates | process_emails.py:157-176 | the loop over the tokens yields the verb candidates |
| UnknownProducts.VerbCandidatesIff | process_emails.py:159-176 | a word is a verb candidate if and only if some token is a purchase verb and the look-ahead from it finds that word |
| UnknownProducts.CandidatesIff | process_emails.py:143-176 | a word is an unknown-product candidate if and only if an `X and Y` match yields it or the look-ahead after a purchase verb finds it |
| UnknownProducts.CandidatesPlausible | process_emails.py:143-176 | every candidate from either heuristic is unknown, not a stopword and plural, also after title-casing |
| UnknownProducts.DedupCandidates | process_emails.py:179-182 | the loop with a seen set keeps the first occurrence of each candidate, in order |
| UnknownProducts.ReportCandidates | process_emails.py:180-183 | each deduplicated candidate becomes one mention |
| UnknownProducts.FindUnknownMentions | process_emails.py:134-183 | the unknown heuristics yield the unknown mentions |
| UnknownProducts.UnknownNotListed | process_emails.py:153-183 | an unknown mention never names a listed product, and has no quantity, confidence 0.2 and the note `unknown product` |
| Sequences.DedupMembers | process_emails.py:179-182 | deduplication keeps exactly the elements of the input, each once |
| Sequences.DedupOrder | process_emails.py:179-182 | deduplication keeps elements in order of first occurrence |
| Parser.MentionsShape | process_emails.py:104-183 | a mention with a quantity has confidence 0.9, and a mention names a listed product if and only if it comes from the known matcher |
| Consolidation.Consolidate | process_emails.py:185-207 | the loop over the mentions and then over the dictionary's values yields the consolidated items |
| Consolidation.ConsolidatedNames | process_emails.py:186-195 | the dictionary's keys are the mentioned names, each once, in order of first mention |
| Consolidation.ConsolidatedEntries | process_emails.py:187-203 | each entry is the reference item for its name |
| Consolidation.ItemsSpec | process_emails.py:185-207 | item `k` is the reference item of the `k`-th distinct mentioned name, and no two items share a product name |
| Consolidation.MaxConfidenceIsMax | process_emails.py:203 | the product-name confidence is the largest confidence among the product's mentions |
| Consolidation.FirstQuantifiedIsFirst | process_emails.py:193-201 | the item's quantity is that of the product's first mention with a quantity, and is missing only when no mention has one |
| Consolidation.QuantityConfidence | process_emails.py:193-201 | when quantity mentions have non-zero confidence, an item's quantity confidence is 0.0 exactly when its quantity is missing |
| Parser.QuantityConfidenceOfBody | process_emails.py:185-207 | every item of an email has quantity confidence 0.0 exactly when its quantity is missing |
| MissingFields.DeriveMissing | process_emails.py:209-222 | the appends yield the missing-fields list |
| MissingFields.AppendGaps | process_emails.py:217-222 | the loop over the items appends each item's missing quantity and then its missing price |
| MissingFields.GapsOfAppend | process_emails.py:217-222 | the entries for a concatenation of items are the two lists of entries concatenated |
| MissingFields.GapsMembers | process_emails.py:217-222 | an item entry is exactly a missing quantity or a missing price of some item |
| MissingFields.FromListed | process_emails.py:210-211 | `from` is listed if and only if the sender is absent or empty, and then first |
| MissingFields.SubjectListed | process_emails.py:212-213 | `subject` is listed if and only if the subject is absent or empty, and then right after `from` |
| MissingFields.ItemsListed | process_emails.py:214-215 | `items` is listed if and only if there are no items, and then last |
| MissingFields.QuantityListed | process_emails.py:218-219 | `quantity for n` is listed if and only if an item named `n` has no quantity |
| MissingFields.PriceListed | process_emails.py:221-222 | `price for n` is listed if and only if an item named `n` is not in the price list |
| Parser.PriceMissing | process_emails.py:185-222 | `price for n` is listed if and only if `n` is mentioned and is not in the price list |
| Parser.KnownProductPriced | process_emails.py:104-222 | a listed product the body mentions never gets a `price for` entry |
| Acknowledgment.AskQuestions | process_emails.py:254-267 | the loop over the first two missing fields yields their questions |
| Acknowledgment.Questions | process_emails.py:255 | at most two questions are asked |
| Acknowledgment.QuestionsInOrder | process_emails.py:255-267 | when every field asks a question, question `k` is the one field `k` asks |
| Acknowledgment.AskForQuantity | process_emails.py:256-258 | a missing quantity for `n` asks to confirm the quantity of `n` |
| Acknowledgment.AskForPrice | process_emails.py:259-261 | a missing price for `n` asks for details about `n` |
| Acknowledgment.EveryFieldAsks | process_emails.py:209-267 | every entry of the missing-fields list asks a question |
| Acknowledgment.DraftQuestions | process_emails.py:209-267 | a draft asks as many questions as there are missing fields, up to two, and question `k` is the one the `k`-th missing field asks |
| Discounts.ApplyDiscount | process_emails.py:292-301 | the rate is that of the best rule, or none (the source's 0.0) when no rule applies |
| Discounts.SortPermutation | process_emails.py:298 | sorting the rules is a permutation |
| Discounts.SortSorted | process_emails.py:298 | the sorted rules have decreasing minimum quantities |
| Discounts.InsertFirstEligible | process_emails.py:298-300 | inserting a rule into the sorted list changes the first applicable rule only when the new rule applies with a strictly larger minimum |
| Discounts.SortFindsBest | process_emails.py:298-300 | the first applicable rule of the sorted list is the best rule of the given list |
| Discounts.BestRuleIsBest | process_emails.py:298-301 | no rule applies exactly when the quantity reaches no minimum; otherwise the best rule applies, has the largest minimum among applicable rules, and is the first listed with that minimum |

## Left out

- File and JSON input and output, the inbox loop, logging and the clock are
  not part of this model. Neither are `generate_quote`, the body template of
  `draft_acknowledgment`, its greeting and its SLA text.
- Parser.EmailParser.Parse: SHA-256 is not modelled. The hex digest of the
  UTF-8 text is a function the caller passes in, and the email id is its
  first sixteen characters.
- Text.Lower: lower-casing, title-casing, `\w`, `\d`, `\s` and `\b` are
  modelled for ASCII only. Python applies Unicode rules, so the model does
  not capture non-ASCII letters, digits or spaces. The line breaks of
  `str.splitlines` are complete, including U+0085, U+2028 and U+2029.
- Vocabulary.ProductInfo: a price-list entry whose `unit_of_measure` is an
  explicit JSON null is not told apart from one without the key. The source
  returns None for the first and the default unit for the second; the model
  returns the default unit for both.
- Discounts.ApplyDiscount: the discount is an opaque value returned as
  `Option`, so `float(rule['discount'])` and its errors are not modelled. No
  applicable rule gives `None`, which stands for the source's 0.0.
- Records.Field: confidences are exact reals, not floating point.
- Patterns.FindIter: the quantity pattern is scanned once per alias key and
  its matches reused by the suppression test. The source re-runs `finditer`
  for every bare match; the result is the same.
- Records.Config: a configuration value given but not a string, and a price
  list whose keys are not strings, are not modelled.
