/**
  The rules engine: rules are tried in order, and each outcome field keeps the first
  non-empty value offered to it. Amounts and amount limits are integer cents.
 */
module Enrichment {
  import opened Option

  datatype Input = Input(
    amount: int, currency: string, processingCode: string, merchantType: string,
    acquirer: string, forwarder: string, crossInstitutional: bool)

  /** Zero, empty and false mean that a test is absent. */
  datatype Condition = Condition(
    amountMin: int, amountMax: int, currency: string, currencyNot: string,
    processingCode: string, processingCodePrefix: string, merchantType: string,
    merchantTypeIn: seq<string>, crossInstitutional: bool, acquirerPrefix: string,
    purposeUnset: bool, always: bool)

  /** The six labels the engine's switch knows, and any other text. */
  datatype FieldName =
    | RegulatoryCode | PurposeCode | SettlementMethod | AmountCurrency | ChargeBearer | ServiceLevel
    | OtherName(name: string)

  datatype Outcome = Outcome(field: FieldName, value: string, source: string, localInstrument: string, confidence: real)

  datatype Rule = Rule(id: string, description: string, condition: Condition, outcome: Outcome, confidence: real)

  datatype Entry = Entry(value: string, source: string, description: string, confidence: real, localInstrument: string)

  type Log = map<FieldName, Entry>

  datatype Result = Result(
    regulatoryCode: string, purposeCode: string, settlementMethod: string, localInstrument: string,
    currency: string, chargeBearer: string, serviceLevel: string, log: Log)

  const NOTHING := Result("", "", "", "", "", "", "", map[])

  // ------------------------------------------------------------- conditions

  /** Everything a condition tests except the one thing that depends on earlier rules. */
  predicate Eligible(c: Condition, input: Input) {
    c.always ||
    (&& (c.amountMin > 0 ==> input.amount >= c.amountMin)
     && (c.amountMax > 0 ==> input.amount <= c.amountMax)
     && (c.currency != "" ==> input.currency == c.currency)
     && (c.currencyNot != "" ==> input.currency != c.currencyNot)
     && (c.processingCode != "" ==> input.processingCode == c.processingCode)
     && (c.processingCodePrefix != "" ==> c.processingCodePrefix <= input.processingCode)
     && (c.merchantType != "" ==> input.merchantType == c.merchantType)
     && (c.merchantTypeIn != [] ==> input.merchantType in c.merchantTypeIn)
     && (c.crossInstitutional ==> input.crossInstitutional)
     && (c.acquirerPrefix != "" ==> c.acquirerPrefix <= input.acquirer))
  }

  /** A condition that waits for the purpose code to be still unset. */
  predicate Guarded(c: Condition) {
    c.purposeUnset && !c.always
  }

  /** ruleCondition.matches in the source's order, reading the partial result's purpose code. */
  method MatchesRule(c: Condition, input: Input, partial: Result) returns (b: bool)
    ensures b == Matches(c, input, partial.purposeCode)
  {
    if c.always {
      return true;
    }
    if c.amountMin > 0 && input.amount < c.amountMin {
      return false;
    }
    if c.amountMax > 0 && input.amount > c.amountMax {
      return false;
    }
    if c.currency != "" && input.currency != c.currency {
      return false;
    }
    if c.currencyNot != "" && input.currency == c.currencyNot {
      return false;
    }
    if c.processingCode != "" && input.processingCode != c.processingCode {
      return false;
    }
    if c.processingCodePrefix != "" && !(c.processingCodePrefix <= input.processingCode) {
      return false;
    }
    if c.merchantType != "" && input.merchantType != c.merchantType {
      return false;
    }
    if |c.merchantTypeIn| > 0 {
      var found := false;
      for i := 0 to |c.merchantTypeIn|
        invariant !found
        invariant input.merchantType !in c.merchantTypeIn[..i]
      {
        if input.merchantType == c.merchantTypeIn[i] {
          found := true;
          break;
        }
      }
      if !found {
        return false;
      }
    }
    if c.crossInstitutional && !input.crossInstitutional {
      return false;
    }
    if c.acquirerPrefix != "" && !(c.acquirerPrefix <= input.acquirer) {
      return false;
    }
    if c.purposeUnset && partial.purposeCode != "" {
      return false;
    }
    return true;
  }

  predicate Matches(c: Condition, input: Input, purposeCode: string) {
    Eligible(c, input) && (Guarded(c) ==> purposeCode == "")
  }

  // ------------------------------------------------------------ one iteration

  function EntryOf(r: Rule): Entry {
    Entry(
      r.outcome.value,
      if r.outcome.source != "" then r.outcome.source else r.id,
      r.description,
      if r.confidence == 0.0 && r.outcome.confidence != 0.0 then r.outcome.confidence else r.confidence,
      r.outcome.localInstrument)
  }

  /** The switch: a matching rule writes its field, and the log, only while the field is empty. */
  function Offer(res: Result, r: Rule): Result {
    var v, log := r.outcome.value, res.log[r.outcome.field := EntryOf(r)];
    match r.outcome.field
    case RegulatoryCode => if res.regulatoryCode == "" then res.(regulatoryCode := v, log := log) else res
    case PurposeCode => if res.purposeCode == "" then res.(purposeCode := v, log := log) else res
    case SettlementMethod =>
      if res.settlementMethod == "" then
        res.(settlementMethod := v, localInstrument := r.outcome.localInstrument, log := log)
      else res
    case AmountCurrency => if res.currency == "" then res.(currency := v, log := log) else res
    case ChargeBearer => if res.chargeBearer == "" then res.(chargeBearer := v, log := log) else res
    case ServiceLevel => if res.serviceLevel == "" then res.(serviceLevel := v, log := log) else res
    case OtherName(_) => res
  }

  function Step(res: Result, r: Rule, input: Input): Result {
    if Matches(r.condition, input, res.purposeCode) then Offer(res, r) else res
  }

  function Run(rules: seq<Rule>, input: Input, res: Result): Result {
    if rules == [] then res else Run(rules[1..], input, Step(res, rules[0], input))
  }

  /** isoToCurrencyCode: a known numeric code becomes letters, anything else stays as it is. */
  function IsoToCurrencyCode(numeric: string): string {
    if numeric == "404" then "KES"
    else if numeric == "840" then "USD"
    else if numeric == "978" then "EUR"
    else if numeric == "826" then "GBP"
    else if numeric == "756" then "CHF"
    else if numeric == "392" then "JPY"
    else if numeric == "036" then "AUD"
    else if numeric == "124" then "CAD"
    else if numeric == "710" then "ZAR"
    else if numeric == "800" then "UGX"
    else if numeric == "834" then "TZS"
    else if numeric == "646" then "RWF"
    else numeric
  }

  /** What an unset field is given after the loop: a value and the log entry that explains it. */
  function Default(n: FieldName, input: Input): Option<Entry> {
    match n
    case RegulatoryCode => Some(Entry("100", "DEFAULT", "No matching CBK rule", 1.0, ""))
    case AmountCurrency => Some(Entry(IsoToCurrencyCode(input.currency), "DEFAULT_CURRENCY_MAP", "", 1.0, ""))
    case ChargeBearer => Some(Entry("SHAR", "DEFAULT", "", 1.0, ""))
    case ServiceLevel => Some(Entry("NURG", "DEFAULT", "", 1.0, ""))
    case _ => None
  }

  function FillRegulatory(res: Result, input: Input): Result {
    if res.regulatoryCode != "" then res
    else res.(regulatoryCode := "100", log := res.log[RegulatoryCode := Default(RegulatoryCode, input).value])
  }

  function FillCurrency(res: Result, input: Input): Result {
    if res.currency != "" then res
    else
      res.(currency := IsoToCurrencyCode(input.currency),
           log := res.log[AmountCurrency := Default(AmountCurrency, input).value])
  }

  function FillBearer(res: Result, input: Input): Result {
    if res.chargeBearer != "" then res
    else res.(chargeBearer := "SHAR", log := res.log[ChargeBearer := Default(ChargeBearer, input).value])
  }

  function FillService(res: Result, input: Input): Result {
    if res.serviceLevel != "" then res
    else res.(serviceLevel := "NURG", log := res.log[ServiceLevel := Default(ServiceLevel, input).value])
  }

  function Fill(res: Result, input: Input): Result {
    FillService(FillBearer(FillCurrency(FillRegulatory(res, input), input), input), input)
  }

  function Enriched(rules: seq<Rule>, input: Input): Result {
    Fill(Run(rules, input, NOTHING), input)
  }

  /** Enrich in the source's form: the rule loop updating a partial result, then the defaults. */
  method Enrich(rules: seq<Rule>, input: Input) returns (result: Result)
    ensures result == Enriched(rules, input)
  {
    result := NOTHING;
    for i := 0 to |rules|
      invariant Run(rules[i..], input, result) == Run(rules, input, NOTHING)
    {
      var r := rules[i];
      assert rules[i..][1..] == rules[i + 1..];
      var matched := MatchesRule(r.condition, input, result);
      if !matched {
        continue;
      }
      var conf := r.confidence;
      if conf == 0.0 && r.outcome.confidence != 0.0 {
        conf := r.outcome.confidence;
      }
      var src := r.id;
      if r.outcome.source != "" {
        src := r.outcome.source;
      }
      var entry := Entry(r.outcome.value, src, r.description, conf, r.outcome.localInstrument);
      assert entry == EntryOf(r);
      result := Write(result, r.outcome, entry);
    }
    if result.regulatoryCode == "" {
      result := result.(regulatoryCode := "100",
      log := result.log[RegulatoryCode := Entry("100", "DEFAULT", "No matching CBK rule", 1.0, "")]);
    }
    if result.currency == "" {
      var code := IsoToCurrencyCode(input.currency);
      result := result.(currency := code,
      log := result.log[AmountCurrency := Entry(code, "DEFAULT_CURRENCY_MAP", "", 1.0, "")]);
    }
    if result.chargeBearer == "" {
      result := result.(chargeBearer := "SHAR", log := result.log[ChargeBearer := Entry("SHAR", "DEFAULT", "", 1.0, "")]);
    }
    if result.serviceLevel == "" {
      result := result.(serviceLevel := "NURG", log := result.log[ServiceLevel := Entry("NURG", "DEFAULT", "", 1.0, "")]);
    }
  }

  /** The body of the switch. */
  method Write(result0: Result, o: Outcome, entry: Entry) returns (result: Result)
    ensures forall r: Rule :: r.outcome == o && EntryOf(r) == entry ==> result == Offer(result0, r)
  {
    result := result0;
    match o.field {
      case RegulatoryCode =>
        if result.regulatoryCode == "" {
          result := result.(regulatoryCode := o.value, log := result.log[o.field := entry]);
        }
      case PurposeCode =>
        if result.purposeCode == "" {
          result := result.(purposeCode := o.value, log := result.log[o.field := entry]);
        }
      case SettlementMethod =>
        if result.settlementMethod == "" {
          result := result.(settlementMethod := o.value, localInstrument := o.localInstrument,
          log := result.log[o.field := entry]);
        }
      case AmountCurrency =>
        if result.currency == "" {
          result := result.(currency := o.value, log := result.log[o.field := entry]);
        }
      case ChargeBearer =>
        if result.chargeBearer == "" {
          result := result.(chargeBearer := o.value, log := result.log[o.field := entry]);
        }
      case ServiceLevel =>
        if result.serviceLevel == "" {
          result := result.(serviceLevel := o.value, log := result.log[o.field := entry]);
        }
      case OtherName(_) =>
    }
  }
}
