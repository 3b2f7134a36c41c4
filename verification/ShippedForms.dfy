/**
  What the 27 shipped rules compute, field by field, as a function of the input alone: the value
  and the rule the log credits it to.
 */
module ShippedForms {
  import opened Option
  import opened Enrichment
  import opened RuleMeaning
  import opened ShippedRules

  // ------------------------------------------------------------ one group each

  predicate AllFor(rules: seq<Rule>, m: FieldName) {
    forall r :: r in rules ==> r.outcome.field == m
  }

  lemma {:induction false} ColumnOfGroup(rules: seq<Rule>, m: FieldName, n: FieldName)
    requires AllFor(rules, m)
    ensures Column(rules, n) == if m == n then EraseGuards(rules) else []
  {
    hide EraseGuard;
    if rules == [] {
    } else {
      assert rules == [rules[0]] + rules[1..];
      ColumnOfGroup(rules[1..], m, n);
      assert EraseGuards(rules) == [EraseGuard(rules[0])] + EraseGuards(rules[1..]);
    }
  }

  lemma Groups()
    ensures AllFor(REGULATORY, RegulatoryCode) && AllFor(PURPOSE, PurposeCode) && AllFor(RAIL, SettlementMethod)
    ensures AllFor(CURRENCY, AmountCurrency) && AllFor(CHARGE, ChargeBearer) && AllFor(SERVICE, ServiceLevel)
    ensures AllFor(DEFERRED, PurposeCode)
  {
    hide *;
    RegulatoryGroup();
    PurposeGroup();
    RailGroup();
    ChargeGroup();
  }

  lemma RegulatoryGroup()
    ensures AllFor(REGULATORY, RegulatoryCode)
  {
  }

  lemma PurposeGroup()
    ensures AllFor(PURPOSE, PurposeCode) && AllFor(DEFERRED, PurposeCode)
  {
  }

  lemma RailGroup()
    ensures AllFor(RAIL, SettlementMethod) && AllFor(CURRENCY, AmountCurrency)
  {
  }

  lemma ChargeGroup()
    ensures AllFor(CHARGE, ChargeBearer) && AllFor(SERVICE, ServiceLevel)
  {
  }

  /** The rules that are about field n. */
  function GroupOf(n: FieldName): seq<Rule> {
    match n
    case RegulatoryCode => REGULATORY
    case PurposeCode => PURPOSE + DEFERRED
    case SettlementMethod => RAIL
    case AmountCurrency => CURRENCY
    case ChargeBearer => CHARGE
    case ServiceLevel => SERVICE
    case OtherName(_) => []
  }

  lemma ShippedColumn(n: FieldName)
    requires Known(n)
    ensures Column(SHIPPED, n) == EraseGuards(GroupOf(n))
  {
    Groups();
    hide REGULATORY, PURPOSE, RAIL, CURRENCY, CHARGE, SERVICE, DEFERRED, AllFor, Column, EraseGuards;
    ColumnConcat(REGULATORY + PURPOSE + RAIL + CURRENCY + CHARGE + SERVICE, DEFERRED, n);
    ColumnConcat(REGULATORY + PURPOSE + RAIL + CURRENCY + CHARGE, SERVICE, n);
    ColumnConcat(REGULATORY + PURPOSE + RAIL + CURRENCY, CHARGE, n);
    ColumnConcat(REGULATORY + PURPOSE + RAIL, CURRENCY, n);
    ColumnConcat(REGULATORY + PURPOSE, RAIL, n);
    ColumnConcat(REGULATORY, PURPOSE, n);
    ColumnOfGroup(REGULATORY, RegulatoryCode, n);
    ColumnOfGroup(PURPOSE, PurposeCode, n);
    ColumnOfGroup(RAIL, SettlementMethod, n);
    ColumnOfGroup(CURRENCY, AmountCurrency, n);
    ColumnOfGroup(CHARGE, ChargeBearer, n);
    ColumnOfGroup(SERVICE, ServiceLevel, n);
    ColumnOfGroup(DEFERRED, PurposeCode, n);
    ErasedConcat(PURPOSE, DEFERRED);
  }

  lemma ErasedConcat(a: seq<Rule>, b: seq<Rule>)
    ensures EraseGuards(a + b) == EraseGuards(a) + EraseGuards(b)
  {
  }

  // ------------------------------------------------------------ who speaks

  lemma {:induction false} OncePut(column: seq<Rule>, n: FieldName, input: Input, slot: Slot)
    requires slot.value != ""
    ensures RunColumn(column, n, input, slot) == slot
  {
    hide Eligible;
    if column == [] {
    } else {
      OncePut(column[1..], n, input, slot);
    }
  }

  /** With guards erased, a column says what its first eligible rule says. */
  lemma {:induction false} FirstEligible(rules: seq<Rule>, n: FieldName, input: Input, i: nat)
    requires i < |rules| && Eligible(rules[i].condition, input) && rules[i].outcome.value != ""
    requires forall j :: 0 <= j < i ==> !Eligible(rules[j].condition, input)
    ensures RunColumn(EraseGuards(rules), n, input, UNSET) == SlotBy(rules[i], n)
  {
    hide Eligible;
    var column := EraseGuards(rules);
    assert column[0] == EraseGuard(rules[0]) && column[1..] == EraseGuards(rules[1..]);
    EraseKeeps(rules[0], input, n, UNSET);
    if i == 0 {
      OncePut(column[1..], n, input, SlotBy(rules[0], n));
    } else {
      assert forall j :: 0 <= j < i - 1 ==> rules[1..][j] == rules[j + 1];
      FirstEligible(rules[1..], n, input, i - 1);
    }
  }

  lemma {:induction false} NoneEligible(rules: seq<Rule>, n: FieldName, input: Input)
    requires forall j :: 0 <= j < |rules| ==> !Eligible(rules[j].condition, input)
    ensures RunColumn(EraseGuards(rules), n, input, UNSET) == UNSET
  {
    hide Eligible;
    if rules == [] {
    } else {
      var column := EraseGuards(rules);
      assert column[0] == EraseGuard(rules[0]) && column[1..] == EraseGuards(rules[1..]);
      EraseKeeps(rules[0], input, n, UNSET);
      assert forall j :: 0 <= j < |rules| - 1 ==> rules[1..][j] == rules[j + 1];
      NoneEligible(rules[1..], n, input);
    }
  }

  lemma ShippedSlot(n: FieldName, input: Input)
    requires Known(n)
    ensures SlotOf(Enriched(SHIPPED, input), n)
         == WithDefault(RunColumn(EraseGuards(GroupOf(n)), n, input, UNSET), n, input)
  {
    assert SlotOf(NOTHING, n) == UNSET;
    hide SHIPPED, GroupOf, Fill, Run, SlotOf, RunColumn, Column, EraseGuards, WithDefault;
    ShippedGuards();
    ShippedColumn(n);
    RunByColumn(SHIPPED, input, NOTHING, n);
    FillSlot(Run(SHIPPED, input, NOTHING), input, n);
  }

  /** Rule i of a field's group speaks for it. */
  lemma Spokesman(n: FieldName, input: Input, i: nat)
    requires Known(n) && i < |GroupOf(n)|
    requires Eligible(GroupOf(n)[i].condition, input) && GroupOf(n)[i].outcome.value != ""
    requires forall j :: 0 <= j < i ==> !Eligible(GroupOf(n)[j].condition, input)
    ensures var r, res := GroupOf(n)[i], Enriched(SHIPPED, input);
      ValueOf(res, n) == r.outcome.value && n in res.log && res.log[n] == EntryOf(r)
    ensures n.SettlementMethod? ==> Enriched(SHIPPED, input).localInstrument == GroupOf(n)[i].outcome.localInstrument
  {
    hide SHIPPED, GroupOf, Enriched, RunColumn, EraseGuards, Eligible, EntryOf, ValueOf;
    ShippedSlot(n, input);
    FirstEligible(GroupOf(n), n, input, i);
  }

  /** Nobody in a field's group speaks for it, so its default does. */
  lemma NoSpokesman(n: FieldName, input: Input)
    requires Known(n) && Default(n, input).Some?
    requires forall j :: 0 <= j < |GroupOf(n)| ==> !Eligible(GroupOf(n)[j].condition, input)
    ensures var d, res := Default(n, input).value, Enriched(SHIPPED, input);
      ValueOf(res, n) == d.value && n in res.log && res.log[n] == d
  {
    hide SHIPPED, GroupOf, Enriched, RunColumn, EraseGuards, Eligible, ValueOf, Default;
    ShippedSlot(n, input);
    NoneEligible(GroupOf(n), n, input);
  }

  // ---------------------------------------------------------- the closed forms

  lemma RailTests(x: Input)
    ensures |RAIL| == 4
    ensures Eligible(RAIL[0].condition, x) <==> x.amount >= 1000000_00
    ensures Eligible(RAIL[1].condition, x) <==> 10_00 <= x.amount <= 999999_00 && x.crossInstitutional
    ensures Eligible(RAIL[2].condition, x) <==> "63902" <= x.acquirer
    ensures Eligible(RAIL[3].condition, x)
  {
  }

  /** The rail: method, instrument and the rule that chose them. */
  lemma RailForm(x: Input)
    ensures var res := Enriched(SHIPPED, x);
      && res.settlementMethod == (if x.amount >= 1000000_00 then "CLRG" else "INDA")
      && res.localInstrument ==
         (if x.amount >= 1000000_00 then "KEPSS"
          else if 10_00 <= x.amount <= 999999_00 && x.crossInstitutional then "PESALINK"
          else if "63902" <= x.acquirer then "MPESA"
          else "DOMESTIC")
      && SettlementMethod in res.log && res.log[SettlementMethod].source ==
         (if x.amount >= 1000000_00 then "RAIL-KEPSS"
          else if 10_00 <= x.amount <= 999999_00 && x.crossInstitutional then "RAIL-PESALINK"
          else if "63902" <= x.acquirer then "RAIL-MPESA"
          else "RAIL-DEFAULT")
  {
    RailTests(x);
    hide SHIPPED, Enriched, Eligible;
    Spokesman(SettlementMethod, x,
              if x.amount >= 1000000_00 then 0
              else if 10_00 <= x.amount <= 999999_00 && x.crossInstitutional then 1
              else if "63902" <= x.acquirer then 2
              else 3);
  }

  lemma RegulatoryTests(x: Input)
    ensures |REGULATORY| == 7
    ensures Eligible(REGULATORY[0].condition, x) <==>
      x.amount >= 100000_00 && x.currency == "404" && x.crossInstitutional
    ensures Eligible(REGULATORY[1].condition, x) <==> 10000_00 <= x.amount <= 99999_00 && "40" <= x.processingCode
    ensures Eligible(REGULATORY[2].condition, x) <==> x.merchantType == "9311"
    ensures Eligible(REGULATORY[3].condition, x) <==>
      x.merchantType == "4900" || x.merchantType == "4911" || x.merchantType == "4931"
    ensures Eligible(REGULATORY[4].condition, x) <==> "38" <= x.processingCode
    ensures Eligible(REGULATORY[5].condition, x) <==> x.currency != "404"
    ensures Eligible(REGULATORY[6].condition, x) <==> x.amount <= 9999_00 && x.currency == "404"
  {
  }

  /** The reporting code, and the rule or the default it comes from. */
  lemma RegulatoryForm(x: Input)
    ensures var res := Enriched(SHIPPED, x);
      var large := x.amount >= 100000_00 && x.currency == "404" && x.crossInstitutional;
      var salary := 10000_00 <= x.amount <= 99999_00 && "40" <= x.processingCode;
      var utility := x.merchantType == "4900" || x.merchantType == "4911" || x.merchantType == "4931";
      && res.regulatoryCode ==
         (if large then "301" else if salary then "201" else if x.merchantType == "9311" then "202"
          else if utility then "203" else if "38" <= x.processingCode then "204"
          else if x.currency != "404" then "205" else "100")
      && RegulatoryCode in res.log && res.log[RegulatoryCode].source ==
         (if large then "CBK-REG-301" else if salary then "CBK-REG-201"
          else if x.merchantType == "9311" then "CBK-REG-202" else if utility then "CBK-REG-203"
          else if "38" <= x.processingCode then "CBK-REG-204" else if x.currency != "404" then "CBK-REG-205"
          else if x.amount <= 9999_00 then "CBK-REG-100" else "DEFAULT")
  {
    RegulatoryTests(x);
    hide SHIPPED, Enriched, Eligible;
    if x.currency == "404" && x.amount > 9999_00 && !Eligible(REGULATORY[0].condition, x)
       && forall j :: 1 <= j < 5 ==> !Eligible(REGULATORY[j].condition, x) {
      NoSpokesman(RegulatoryCode, x);
    } else {
      Spokesman(RegulatoryCode, x,
                if Eligible(REGULATORY[0].condition, x) then 0
                else if Eligible(REGULATORY[1].condition, x) then 1
                else if Eligible(REGULATORY[2].condition, x) then 2
                else if Eligible(REGULATORY[3].condition, x) then 3
                else if Eligible(REGULATORY[4].condition, x) then 4
                else if Eligible(REGULATORY[5].condition, x) then 5
                else 6);
    }
  }

  lemma PurposeTests(x: Input)
    ensures |PURPOSE + DEFERRED| == 7
    ensures Eligible((PURPOSE + DEFERRED)[0].condition, x) <==> x.processingCode == "400000"
    ensures Eligible((PURPOSE + DEFERRED)[1].condition, x) <==> x.merchantType == "9311"
    ensures Eligible((PURPOSE + DEFERRED)[2].condition, x) <==> "38" <= x.processingCode
    ensures Eligible((PURPOSE + DEFERRED)[3].condition, x) <==>
      x.merchantType == "4900" || x.merchantType == "4911" || x.merchantType == "4931"
    ensures Eligible((PURPOSE + DEFERRED)[4].condition, x) <==> x.amount >= 100000_00 && "40" <= x.processingCode
    ensures Eligible((PURPOSE + DEFERRED)[5].condition, x) <==> x.currency != "404"
    ensures Eligible((PURPOSE + DEFERRED)[6].condition, x)
  {
  }

  /** The purpose code, and the rule or the deferral it comes from. */
  lemma PurposeForm(x: Input)
    ensures var res := Enriched(SHIPPED, x);
      var utility := x.merchantType == "4900" || x.merchantType == "4911" || x.merchantType == "4931";
      var supplier := x.amount >= 100000_00 && "40" <= x.processingCode;
      && res.purposeCode ==
         (if x.processingCode == "400000" then "SALA" else if x.merchantType == "9311" then "TAXS"
          else if "38" <= x.processingCode then "LOAN" else if utility then "BEXP" else if supplier then "SUPP"
          else if x.currency != "404" then "RIMV" else "OTHR")
      && PurposeCode in res.log && res.log[PurposeCode].source ==
         (if x.processingCode == "400000" then "PURP-SALA" else if x.merchantType == "9311" then "PURP-TAXS"
          else if "38" <= x.processingCode then "PURP-LOAN" else if utility then "PURP-UTIL"
          else if supplier then "PURP-SUPP" else if x.currency != "404" then "PURP-RIMV"
          else "DEFERRED_AI_CLASSIFIER_V0_2")
  {
    PurposeTests(x);
    hide SHIPPED, Enriched, Eligible;
    var group := PURPOSE + DEFERRED;
    Spokesman(PurposeCode, x,
              if Eligible(group[0].condition, x) then 0
              else if Eligible(group[1].condition, x) then 1
              else if Eligible(group[2].condition, x) then 2
              else if Eligible(group[3].condition, x) then 3
              else if Eligible(group[4].condition, x) then 4
              else if Eligible(group[5].condition, x) then 5
              else 6);
  }

  lemma ChargeTests(x: Input)
    ensures |CHARGE| == 3 && |SERVICE| == 2
    ensures Eligible(CHARGE[0].condition, x) <==> x.crossInstitutional
    ensures Eligible(CHARGE[1].condition, x) <==> x.currency != "404"
    ensures Eligible(CHARGE[2].condition, x)
    ensures Eligible(SERVICE[0].condition, x) <==> x.amount >= 5000000_00
    ensures Eligible(SERVICE[1].condition, x)
  {
  }

  /** The charge bearer and the service level, and the rules they come from. */
  lemma ChargeForm(x: Input)
    ensures var res := Enriched(SHIPPED, x);
      && res.chargeBearer == (if !x.crossInstitutional && x.currency != "404" then "DEBT" else "SHAR")
      && res.serviceLevel == (if x.amount >= 5000000_00 then "URGP" else "NURG")
      && ChargeBearer in res.log && res.log[ChargeBearer].source ==
         (if x.crossInstitutional then "CHRG-SHA" else if x.currency != "404" then "CHRG-OUR" else "CHRG-DEFAULT")
      && ServiceLevel in res.log && res.log[ServiceLevel].source ==
         (if x.amount >= 5000000_00 then "SVC-URGP" else "SVC-NURG")
  {
    ChargeTests(x);
    hide SHIPPED, Enriched, Eligible;
    Spokesman(ChargeBearer, x, if x.crossInstitutional then 0 else if x.currency != "404" then 1 else 2);
    Spokesman(ServiceLevel, x, if x.amount >= 5000000_00 then 0 else 1);
  }

  /** ISO 4217: the numeric codes the engine knows. */
  const CODES: map<string, string> := map[
    "404" := "KES", "840" := "USD", "978" := "EUR", "826" := "GBP", "756" := "CHF", "392" := "JPY",
    "036" := "AUD", "124" := "CAD", "710" := "ZAR", "800" := "UGX", "834" := "TZS", "646" := "RWF"]

  lemma CurrencyTests(x: Input)
    ensures |CURRENCY| == 4
    ensures Eligible(CURRENCY[0].condition, x) <==> x.currency == "404"
    ensures Eligible(CURRENCY[1].condition, x) <==> x.currency == "840"
    ensures Eligible(CURRENCY[2].condition, x) <==> x.currency == "978"
    ensures Eligible(CURRENCY[3].condition, x) <==> x.currency == "826"
  {
  }

  lemma TableIsCodes(code: string)
    ensures IsoToCurrencyCode(code) == if code in CODES then CODES[code] else code
  {
  }

  /** The currency: the code's letters, or the text as it came; four of them credited to rules. */
  lemma CurrencyForm(x: Input)
    ensures var res := Enriched(SHIPPED, x);
      && res.currency == (if x.currency in CODES then CODES[x.currency] else x.currency)
      && AmountCurrency in res.log && res.log[AmountCurrency].source ==
         (if x.currency == "404" then "CURR-KES" else if x.currency == "840" then "CURR-USD"
          else if x.currency == "978" then "CURR-EUR" else if x.currency == "826" then "CURR-GBP"
          else "DEFAULT_CURRENCY_MAP")
  {
    ShippedCurrency(x);
    TableIsCodes(x.currency);
    CurrencyTests(x);
    hide SHIPPED, Enriched, Eligible, CODES, IsoToCurrencyCode;
    if x.currency == "404" {
      Spokesman(AmountCurrency, x, 0);
    } else if x.currency == "840" {
      Spokesman(AmountCurrency, x, 1);
    } else if x.currency == "978" {
      Spokesman(AmountCurrency, x, 2);
    } else if x.currency == "826" {
      Spokesman(AmountCurrency, x, 3);
    } else {
      NoSpokesman(AmountCurrency, x);
    }
  }
}
