/**
  What each test of a rule's condition means, for arbitrary conditions: a condition without tests
  holds of everything, and adding one test keeps exactly the inputs that pass it.
 */
module ConditionLaws {
  import opened Option
  import opened Enrichment

  const NO_TEST := Condition(0, 0, "", "", "", "", "", [], false, "", false, false)

  lemma WithoutTests(c: Condition, x: Input, purpose: string)
    ensures Matches(NO_TEST, x, purpose)
    ensures c.always ==> Matches(c, x, purpose)
  {
  }

  /** At least the minimum, the bound included; a minimum that is not positive is no test. */
  lemma MinimumTest(c: Condition, x: Input, purpose: string, limit: int)
    requires !c.always
    ensures limit > 0 ==>
      (Matches(c.(amountMin := limit), x, purpose) <==> Matches(c.(amountMin := 0), x, purpose) && x.amount >= limit)
    ensures limit <= 0 ==> (Matches(c.(amountMin := limit), x, purpose) <==> Matches(c.(amountMin := 0), x, purpose))
    ensures x.amount == limit ==>
      (Matches(c.(amountMin := limit), x, purpose) <==> Matches(c.(amountMin := 0), x, purpose))
  {
  }

  /** At most the maximum, the bound included; a maximum that is not positive is no test. */
  lemma MaximumTest(c: Condition, x: Input, purpose: string, limit: int)
    requires !c.always
    ensures limit > 0 ==>
      (Matches(c.(amountMax := limit), x, purpose) <==> Matches(c.(amountMax := 0), x, purpose) && x.amount <= limit)
    ensures limit <= 0 ==> (Matches(c.(amountMax := limit), x, purpose) <==> Matches(c.(amountMax := 0), x, purpose))
    ensures x.amount == limit ==>
      (Matches(c.(amountMax := limit), x, purpose) <==> Matches(c.(amountMax := 0), x, purpose))
  {
  }

  lemma CurrencyTest(c: Condition, x: Input, purpose: string, code: string)
    requires !c.always && code != ""
    ensures Matches(c.(currency := code), x, purpose) <==>
      Matches(c.(currency := ""), x, purpose) && x.currency == code
  {
  }

  lemma OtherCurrencyTest(c: Condition, x: Input, purpose: string, code: string)
    requires !c.always && code != ""
    ensures Matches(c.(currencyNot := code), x, purpose) <==>
      Matches(c.(currencyNot := ""), x, purpose) && x.currency != code
  {
  }

  lemma ProcessingTest(c: Condition, x: Input, purpose: string, code: string)
    requires !c.always && code != ""
    ensures Matches(c.(processingCode := code), x, purpose) <==>
      Matches(c.(processingCode := ""), x, purpose) && x.processingCode == code
    ensures Matches(c.(processingCodePrefix := code), x, purpose) <==>
      Matches(c.(processingCodePrefix := ""), x, purpose)
      && |x.processingCode| >= |code| && x.processingCode[..|code|] == code
  {
  }

  lemma MerchantTest(c: Condition, x: Input, purpose: string, code: string, codes: seq<string>)
    requires !c.always && code != "" && codes != []
    ensures Matches(c.(merchantType := code), x, purpose) <==>
      Matches(c.(merchantType := ""), x, purpose) && x.merchantType == code
    ensures Matches(c.(merchantTypeIn := codes), x, purpose) <==>
      Matches(c.(merchantTypeIn := []), x, purpose) && exists i :: 0 <= i < |codes| && codes[i] == x.merchantType
  {
  }

  lemma CrossTest(c: Condition, x: Input, purpose: string)
    requires !c.always
    ensures Matches(c.(crossInstitutional := true), x, purpose) <==>
      Matches(c.(crossInstitutional := false), x, purpose) && x.crossInstitutional
  {
  }

  lemma AcquirerTest(c: Condition, x: Input, purpose: string, prefix: string)
    requires !c.always && prefix != ""
    ensures Matches(c.(acquirerPrefix := prefix), x, purpose) <==>
      Matches(c.(acquirerPrefix := ""), x, purpose)
      && |x.acquirer| >= |prefix| && x.acquirer[..|prefix|] == prefix
  {
  }

  /** The one test that looks at the partial result. */
  lemma PurposeTest(c: Condition, x: Input, purpose: string)
    requires !c.always
    ensures Matches(c.(purposeUnset := true), x, purpose) <==>
      Matches(c.(purposeUnset := false), x, purpose) && purpose == ""
  {
  }

  /** What a log entry records of the rule that made it. */
  lemma EntryRecords(r: Rule)
    ensures EntryOf(r).value == r.outcome.value && EntryOf(r).localInstrument == r.outcome.localInstrument
    ensures EntryOf(r).description == r.description
    ensures r.outcome.source == "" ==> EntryOf(r).source == r.id
    ensures r.outcome.source != "" ==> EntryOf(r).source == r.outcome.source
    ensures r.confidence != 0.0 ==> EntryOf(r).confidence == r.confidence
    ensures r.confidence == 0.0 ==> EntryOf(r).confidence == r.outcome.confidence
  {
  }
}
