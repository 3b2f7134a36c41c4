/** The 27 rules of rules.yaml, version 1.0, in file order, limits in cents. */
module ShippedRules {
  import opened Option
  import opened Enrichment
  import opened RuleMeaning

  const ANY := Condition(0, 0, "", "", "", "", "", [], false, "", false, false)

  function To(field: FieldName, value: string): Outcome {
    Outcome(field, value, "", "", 0.0)
  }

  function Rail(value: string, instrument: string): Outcome {
    Outcome(SettlementMethod, value, "", instrument, 0.0)
  }

  const REGULATORY: seq<Rule> := [
    Rule("CBK-REG-301", "Large cross-institutional trade payment ≥ KES 100,000",
         ANY.(amountMin := 100000_00, currency := "404", crossInstitutional := true), To(RegulatoryCode, "301"), 1.0),
    Rule("CBK-REG-201", "Salary / payroll payment 10,000–99,999 KES",
         ANY.(amountMin := 10000_00, amountMax := 99999_00, processingCodePrefix := "40"), To(RegulatoryCode, "201"), 1.0),
    Rule("CBK-REG-202", "Tax / government payment — merchant type 9311",
         ANY.(merchantType := "9311"), To(RegulatoryCode, "202"), 1.0),
    Rule("CBK-REG-203", "Utility payment — merchant types 4900, 4911, 4931",
         ANY.(merchantTypeIn := ["4900", "4911", "4931"]), To(RegulatoryCode, "203"), 1.0),
    Rule("CBK-REG-204", "Loan repayment — processing code 38xxxx",
         ANY.(processingCodePrefix := "38"), To(RegulatoryCode, "204"), 1.0),
    Rule("CBK-REG-205", "Cross-border remittance (non-KES currency)",
         ANY.(currencyNot := "404"), To(RegulatoryCode, "205"), 1.0),
    Rule("CBK-REG-100", "Standard domestic retail payment < KES 10,000",
         ANY.(amountMax := 9999_00, currency := "404"), To(RegulatoryCode, "100"), 1.0)
  ]

  const PURPOSE: seq<Rule> := [
    Rule("PURP-SALA", "Salary payment — processing code 400000 (credit, general)",
         ANY.(processingCode := "400000"), To(PurposeCode, "SALA"), 1.0),
    Rule("PURP-TAXS", "Tax payment to government entity",
         ANY.(merchantType := "9311"), To(PurposeCode, "TAXS"), 1.0),
    Rule("PURP-LOAN", "Loan repayment — processing code 380000",
         ANY.(processingCodePrefix := "38"), To(PurposeCode, "LOAN"), 1.0),
    Rule("PURP-UTIL", "Utility bill payment",
         ANY.(merchantTypeIn := ["4900", "4911", "4931"]), To(PurposeCode, "BEXP"), 1.0),
    Rule("PURP-SUPP", "Supplier / B2B payment ≥ KES 100,000",
         ANY.(amountMin := 100000_00, processingCodePrefix := "40"), To(PurposeCode, "SUPP"), 1.0),
    Rule("PURP-RIMV", "Cross-border remittance (non-KES)",
         ANY.(currencyNot := "404"), To(PurposeCode, "RIMV"), 1.0)
  ]

  const RAIL: seq<Rule> := [
    Rule("RAIL-KEPSS", "KEPSS (Kenya Electronic Payment and Settlement System) — large value ≥ KES 1,000,000",
         ANY.(amountMin := 1000000_00), Rail("CLRG", "KEPSS"), 1.0),
    Rule("RAIL-PESALINK", "PesaLink — interbank retail ≥ KES 10 and < KES 999,999",
         ANY.(amountMin := 10_00, amountMax := 999999_00, crossInstitutional := true), Rail("INDA", "PESALINK"), 1.0),
    Rule("RAIL-MPESA", "M-Pesa mobile money — acquiring institution prefix '63902'",
         ANY.(acquirerPrefix := "63902"), Rail("INDA", "MPESA"), 1.0),
    Rule("RAIL-DEFAULT", "Default domestic settlement", ANY.(always := true), Rail("INDA", "DOMESTIC"), 1.0)
  ]

  const CURRENCY: seq<Rule> := [
    Rule("CURR-KES", "Format KES amount from raw 12-digit integer to decimal",
         ANY.(currency := "404"), To(AmountCurrency, "KES"), 1.0),
    Rule("CURR-USD", "USD cross-border transaction", ANY.(currency := "840"), To(AmountCurrency, "USD"), 1.0),
    Rule("CURR-EUR", "EUR cross-border transaction", ANY.(currency := "978"), To(AmountCurrency, "EUR"), 1.0),
    Rule("CURR-GBP", "GBP cross-border transaction", ANY.(currency := "826"), To(AmountCurrency, "GBP"), 1.0)
  ]

  const CHARGE: seq<Rule> := [
    Rule("CHRG-SHA", "Shared charges (default for cross-institutional)",
         ANY.(crossInstitutional := true), To(ChargeBearer, "SHAR"), 1.0),
    Rule("CHRG-OUR", "Sender pays all charges (cross-border)",
         ANY.(currencyNot := "404"), To(ChargeBearer, "DEBT"), 1.0),
    Rule("CHRG-DEFAULT", "Default charge bearer for intra-bank", ANY.(always := true), To(ChargeBearer, "SHAR"), 1.0)
  ]

  const SERVICE: seq<Rule> := [
    Rule("SVC-URGP", "Urgent payment — large value or explicit urgency flag",
         ANY.(amountMin := 5000000_00), To(ServiceLevel, "URGP"), 1.0),
    Rule("SVC-NURG", "Normal payment", ANY.(always := true), To(ServiceLevel, "NURG"), 1.0)
  ]

  const DEFERRED: seq<Rule> := [
    Rule("AI-DEFER-PURPOSE", "Purpose code cannot be determined by rules — deferred to AI classifier v0.2",
         ANY.(purposeUnset := true), Outcome(PurposeCode, "OTHR", "DEFERRED_AI_CLASSIFIER_V0_2", "", 0.0), 0.0)
  ]

  const SHIPPED: seq<Rule> := REGULATORY + PURPOSE + RAIL + CURRENCY + CHARGE + SERVICE + DEFERRED

  // ------------------------------------------------- what each group may say

  /** The values the shipped rules can give a field. */
  predicate Says(n: FieldName, v: string) {
    match n
    case RegulatoryCode => v in ["301", "201", "202", "203", "204", "205", "100"]
    case PurposeCode => v in ["SALA", "TAXS", "LOAN", "BEXP", "SUPP", "RIMV", "OTHR"]
    case SettlementMethod => v in ["CLRG", "INDA"]
    case AmountCurrency => v in ["KES", "USD", "EUR", "GBP"]
    case ChargeBearer => v in ["SHAR", "DEBT"]
    case ServiceLevel => v in ["URGP", "NURG"]
    case OtherName(_) => false
  }

  /** The instruments the shipped rails name. */
  predicate IsInstrument(v: string) {
    v in ["KEPSS", "PESALINK", "MPESA", "DOMESTIC"]
  }

  /** A well-behaved shipped rule: one of the allowed values, never empty. */
  predicate Proper(r: Rule) {
    && Says(r.outcome.field, r.outcome.value) && r.outcome.value != ""
    && (r.outcome.field.SettlementMethod? ==> IsInstrument(r.outcome.localInstrument))
    && (Guarded(r.condition) ==> r.outcome.field.PurposeCode?)
  }

  lemma ProperRegulatory()
    ensures forall r :: r in REGULATORY ==> Proper(r)
  {
  }

  lemma ProperPurpose()
    ensures forall r :: r in PURPOSE + DEFERRED ==> Proper(r)
  {
  }

  lemma ProperRail()
    ensures forall r :: r in RAIL ==> Proper(r)
  {
  }

  lemma ProperCurrency()
    ensures forall r :: r in CURRENCY ==> Proper(r) && r.outcome.field.AmountCurrency?
  {
  }

  /** The four currency rules repeat four entries of the built-in table. */
  lemma CurrencyRulesAgreeWithTable()
    ensures forall r :: r in CURRENCY ==> r.condition.currency != "" && !r.condition.always
    ensures forall r :: r in CURRENCY ==> IsoToCurrencyCode(r.condition.currency) == r.outcome.value
  {
  }

  lemma ProperChargeAndService()
    ensures forall r :: r in CHARGE + SERVICE ==> Proper(r)
  {
  }

  lemma ProperShipped(r: Rule)
    requires r in SHIPPED
    ensures Proper(r)
    ensures r.outcome.field.AmountCurrency? ==> r in CURRENCY
  {
    hide Proper, Says;
    OfOneField(r);
    InSomeGroup(r);
    if r in REGULATORY {
      ProperRegulatory();
    } else if r in PURPOSE + DEFERRED {
      ProperPurpose();
    } else if r in RAIL {
      ProperRail();
    } else if r in CURRENCY {
      ProperCurrency();
    } else {
      ProperChargeAndService();
    }
  }

  lemma OfOneField(r: Rule)
    ensures r in REGULATORY ==> r.outcome.field.RegulatoryCode?
    ensures r in PURPOSE + DEFERRED ==> r.outcome.field.PurposeCode?
    ensures r in RAIL ==> r.outcome.field.SettlementMethod?
    ensures r in CHARGE + SERVICE ==> r.outcome.field.ChargeBearer? || r.outcome.field.ServiceLevel?
  {
  }

  lemma InSomeGroup(r: Rule)
    ensures r in SHIPPED <==>
      r in REGULATORY || r in PURPOSE + DEFERRED || r in RAIL || r in CURRENCY || r in CHARGE + SERVICE
  {
    hide REGULATORY, PURPOSE, DEFERRED, RAIL, CURRENCY, CHARGE, SERVICE;
  }

  lemma ShippedGuards()
    ensures GuardsOnlyOnPurpose(SHIPPED)
  {
    hide Proper, Guarded;
    forall i | 0 <= i < |SHIPPED| && Guarded(SHIPPED[i].condition) ensures SHIPPED[i].outcome.field.PurposeCode? {
      ProperShipped(SHIPPED[i]);
      ProperGuard(SHIPPED[i]);
    }
  }

  lemma ProperGuard(r: Rule)
    requires Proper(r)
    ensures r.outcome.value != "" && Says(r.outcome.field, r.outcome.value)
    ensures r.outcome.field.SettlementMethod? ==> IsInstrument(r.outcome.localInstrument)
    ensures Guarded(r.condition) ==> r.outcome.field.PurposeCode?
  {
  }

  // ----------------------------------------------- what the shipped list means

  /** The rules that apply to everything, and their places in the list. */
  lemma CatchAlls()
    ensures |SHIPPED| == 27
    ensures SHIPPED[16].outcome.field.SettlementMethod? && SHIPPED[16].condition.always && SHIPPED[16].outcome.value != ""
    ensures SHIPPED[23].outcome.field.ChargeBearer? && SHIPPED[23].condition.always && SHIPPED[23].outcome.value != ""
    ensures SHIPPED[25].outcome.field.ServiceLevel? && SHIPPED[25].condition.always && SHIPPED[25].outcome.value != ""
  {
    assert SHIPPED[16] == RAIL[3] && SHIPPED[23] == CHARGE[2] && SHIPPED[25] == SERVICE[1];
  }

  lemma DeferralIsLast()
    ensures |SHIPPED| == 27 && SHIPPED[26].outcome == Outcome(PurposeCode, "OTHR", "DEFERRED_AI_CLASSIFIER_V0_2", "", 0.0)
    ensures SHIPPED[26].condition == ANY.(purposeUnset := true)
  {
    assert SHIPPED[26] == DEFERRED[0];
  }

  /** The fields for which some shipped rule has something to say on every input. */
  predicate Covered(n: FieldName) {
    n.PurposeCode? || n.SettlementMethod? || n.ChargeBearer? || n.ServiceLevel?
  }

  lemma SomethingSpeaks(n: FieldName, input: Input)
    requires Covered(n)
    ensures exists i: nat :: i < |SHIPPED| && Speaks(SHIPPED, n, input, i)
  {
    hide SHIPPED;
    CatchAlls();
    match n {
      case SettlementMethod => assert Speaks(SHIPPED, n, input, 16);
      case ChargeBearer => assert Speaks(SHIPPED, n, input, 23);
      case ServiceLevel => assert Speaks(SHIPPED, n, input, 25);
      case PurposeCode =>
        DeferralIsLast();
        if PurposeSetBefore(SHIPPED, 26, input) {
          var j :| 0 <= j < 26 && SetsPurpose(SHIPPED[j], input);
          OnlyTheDeferralWaits(j);
          assert Speaks(SHIPPED, n, input, j);
        } else {
          assert Speaks(SHIPPED, n, input, 26);
        }
    }
  }

  lemma OnlyTheDeferralWaits(j: nat)
    requires j < 26 && j < |SHIPPED|
    ensures !Guarded(SHIPPED[j].condition)
  {
    assert forall r :: r in REGULATORY + PURPOSE + RAIL + CURRENCY + CHARGE + SERVICE ==> !Guarded(r.condition) by {
      NoGuardInGroups();
    }
    assert SHIPPED[j] == (REGULATORY + PURPOSE + RAIL + CURRENCY + CHARGE + SERVICE)[j];
  }

  lemma NoGuardInGroups()
    ensures forall r :: r in REGULATORY || r in PURPOSE || r in RAIL ==> !Guarded(r.condition)
    ensures forall r :: r in CURRENCY || r in CHARGE || r in SERVICE ==> !Guarded(r.condition)
  {
  }

  lemma {:induction false} FirstOf(rules: seq<Rule>, n: FieldName, input: Input, i: nat) returns (first: nat)
    requires i < |rules| && Speaks(rules, n, input, i)
    ensures first <= i && FirstToSpeak(rules, n, input, first, |rules|)
  {
    hide Speaks;
    if j: nat :| j < i && Speaks(rules, n, input, j) {
      first := FirstOf(rules, n, input, j);
    } else {
      first := i;
    }
  }

  /**
    With the shipped rules the purpose, the rail, the charge bearer and the service level
    always come from a rule, so the engine's fallbacks for the last two are never reached.
   */
  lemma ShippedFromRule(n: FieldName, input: Input) returns (i: nat)
    requires Covered(n)
    ensures i < |SHIPPED| && FirstToSpeak(SHIPPED, n, input, i, |SHIPPED|)
    ensures SlotOf(Enriched(SHIPPED, input), n) == SlotBy(SHIPPED[i], n)
    ensures Says(n, SHIPPED[i].outcome.value) && SHIPPED[i].outcome.value != ""
  {
    hide SHIPPED, Enriched, Says, Speaks, Proper, SlotOf;
    SomethingSpeaks(n, input);
    var k: nat :| k < |SHIPPED| && Speaks(SHIPPED, n, input, k);
    i := FirstOf(SHIPPED, n, input, k);
    EnrichedMeans(SHIPPED, input, n);
    var slot :| Means(slot, SHIPPED, n, input, |SHIPPED|)
                && SlotOf(Enriched(SHIPPED, input), n) == WithDefault(slot, n, input);
    MeaningIsUnique(slot, SlotBy(SHIPPED[i], n), SHIPPED, n, input, |SHIPPED|);
    SpeakerField(SHIPPED, n, input, i);
    ProperShipped(SHIPPED[i]);
    ProperGuard(SHIPPED[i]);
  }

  lemma SpeakerField(rules: seq<Rule>, n: FieldName, input: Input, i: nat)
    requires i < |rules| && Speaks(rules, n, input, i)
    ensures rules[i].outcome.field == n && Eligible(rules[i].condition, input)
  {
  }

  /** The result's currency is always the built-in table's reading of the message's currency. */
  lemma ShippedCurrency(input: Input)
    ensures Enriched(SHIPPED, input).currency == IsoToCurrencyCode(input.currency)
  {
    hide SHIPPED, Enriched, Proper, Says, IsoToCurrencyCode, CURRENCY, Eligible;
    var n := AmountCurrency;
    EnrichedMeans(SHIPPED, input, n);
    var slot :| Means(slot, SHIPPED, n, input, |SHIPPED|)
                && SlotOf(Enriched(SHIPPED, input), n) == WithDefault(slot, n, input);
    if i: nat :| FirstToSpeak(SHIPPED, n, input, i, |SHIPPED|) && slot == SlotBy(SHIPPED[i], n) {
      var r := SHIPPED[i];
      ProperShipped(r);
      CurrencyRulesAgreeWithTable();
      CurrencyTest(r.condition, input);
    } else if i: nat :| LastSilent(SHIPPED, n, input, i, |SHIPPED|) && slot == SlotBy(SHIPPED[i], n) {
      ProperShipped(SHIPPED[i]);
      ProperGuard(SHIPPED[i]);
    }
  }

  /** The reporting code is one of the rules' or the default, which is one of theirs too. */
  lemma ShippedRegulatory(input: Input)
    ensures Says(RegulatoryCode, Enriched(SHIPPED, input).regulatoryCode)
  {
    assert Says(RegulatoryCode, "100");
    hide SHIPPED, Enriched, Proper, Says, Speaks, IsoToCurrencyCode;
    var n := RegulatoryCode;
    EnrichedMeans(SHIPPED, input, n);
    var slot :| Means(slot, SHIPPED, n, input, |SHIPPED|)
                && SlotOf(Enriched(SHIPPED, input), n) == WithDefault(slot, n, input);
    if i: nat :| FirstToSpeak(SHIPPED, n, input, i, |SHIPPED|) && slot == SlotBy(SHIPPED[i], n) {
      SpeakerField(SHIPPED, n, input, i);
      ProperShipped(SHIPPED[i]);
      ProperGuard(SHIPPED[i]);
    } else if i: nat :| LastSilent(SHIPPED, n, input, i, |SHIPPED|) && slot == SlotBy(SHIPPED[i], n) {
      ProperShipped(SHIPPED[i]);
      ProperGuard(SHIPPED[i]);
    }
  }

  /** The instrument is always that of a shipped rail. */
  lemma ShippedInstrument(input: Input)
    ensures IsInstrument(Enriched(SHIPPED, input).localInstrument)
  {
    hide SHIPPED, Enriched, Says, Speaks, Proper, IsInstrument;
    var i := ShippedFromRule(SettlementMethod, input);
    assert Enriched(SHIPPED, input).localInstrument == SlotOf(Enriched(SHIPPED, input), SettlementMethod).local;
    SpeakerField(SHIPPED, SettlementMethod, input, i);
    ProperShipped(SHIPPED[i]);
    ProperGuard(SHIPPED[i]);
  }

  lemma CurrencyTest(c: Condition, input: Input)
    requires Eligible(c, input) && c.currency != "" && !c.always
    ensures input.currency == c.currency
  {
  }

  // -------------------------------------------------------- a necessary proviso

  lemma RunTwo(a: Rule, b: Rule, input: Input)
    ensures Run([a, b], input, NOTHING) == Step(Step(NOTHING, a, input), b, input)
  {
    RunSnoc([a], b, input, NOTHING);
    RunSnoc([], a, input, NOTHING);
    assert [a] + [b] == [a, b] && [] + [a] == [a];
  }

  /** A guard on any other field does matter: here erasing it changes the service level. */
  lemma GuardElsewhereMatters(input: Input)
    ensures var rules := [Rule("P", "", ANY.(always := true), To(PurposeCode, "SALA"), 1.0),
                          Rule("S", "", ANY.(purposeUnset := true), To(ServiceLevel, "URGP"), 1.0)];
      && Enriched(rules, input).serviceLevel == "NURG"
      && Enriched(EraseGuards(rules), input).serviceLevel == "URGP"
  {
    var p := Rule("P", "", ANY.(always := true), To(PurposeCode, "SALA"), 1.0);
    var s := Rule("S", "", ANY.(purposeUnset := true), To(ServiceLevel, "URGP"), 1.0);
    RunTwo(p, s, input);
    RunTwo(p, EraseGuard(s), input);
    assert EraseGuards([p, s]) == [p, EraseGuard(s)];
  }
}
