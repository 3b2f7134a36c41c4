/**
  What a rule list means, field by field, and which changes to a rule list leave every
  result and every log unchanged.
 */
module RuleMeaning {
  import opened Option
  import opened Enrichment

  /** One outcome field of a result, with its log entry and, for the rail, its instrument. */
  datatype Slot = Slot(value: string, local: string, entry: Option<Entry>)

  const UNSET := Slot("", "", None)

  predicate Known(n: FieldName) {
    !n.OtherName?
  }

  function ValueOf(res: Result, n: FieldName): string {
    match n
    case RegulatoryCode => res.regulatoryCode
    case PurposeCode => res.purposeCode
    case SettlementMethod => res.settlementMethod
    case AmountCurrency => res.currency
    case ChargeBearer => res.chargeBearer
    case ServiceLevel => res.serviceLevel
    case OtherName(_) => ""
  }

  function SlotOf(res: Result, n: FieldName): Slot {
    Slot(ValueOf(res, n),
         if n.SettlementMethod? then res.localInstrument else "",
         if n in res.log then Some(res.log[n]) else None)
  }

  /** The slot a rule leaves behind when it is the one that counts. */
  function SlotBy(r: Rule, n: FieldName): Slot {
    Slot(r.outcome.value, if n.SettlementMethod? then r.outcome.localInstrument else "", Some(EntryOf(r)))
  }

  function OfferSlot(slot: Slot, r: Rule, n: FieldName): Slot {
    if slot.value == "" then SlotBy(r, n) else slot
  }

  lemma StepSlot(res: Result, r: Rule, input: Input, n: FieldName)
    requires Known(n)
    ensures SlotOf(Step(res, r, input), n)
         == if r.outcome.field == n && Matches(r.condition, input, res.purposeCode)
            then OfferSlot(SlotOf(res, n), r, n) else SlotOf(res, n)
  {
    hide Matches, EntryOf;
  }

  // ------------------------------------------------------ declarative meaning

  /** An earlier purpose rule applies and has something to say. */
  predicate SetsPurpose(r: Rule, input: Input) {
    r.outcome.field.PurposeCode? && r.outcome.value != "" && Eligible(r.condition, input)
  }

  predicate PurposeSetBefore(rules: seq<Rule>, k: nat, input: Input)
    requires k <= |rules|
  {
    exists j :: 0 <= j < k && SetsPurpose(rules[j], input)
  }

  /** Rule i applies; no reference to any partial result. */
  predicate Fires(rules: seq<Rule>, i: nat, input: Input)
    requires i < |rules|
  {
    Eligible(rules[i].condition, input) && (Guarded(rules[i].condition) ==> !PurposeSetBefore(rules, i, input))
  }

  predicate Candidate(rules: seq<Rule>, n: FieldName, input: Input, i: nat)
    requires i < |rules|
  {
    rules[i].outcome.field == n && Fires(rules, i, input)
  }

  predicate Speaks(rules: seq<Rule>, n: FieldName, input: Input, i: nat)
    requires i < |rules|
  {
    Candidate(rules, n, input, i) && rules[i].outcome.value != ""
  }

  /** Rule i is the first for field n, among the first k, that applies with a non-empty value. */
  predicate FirstToSpeak(rules: seq<Rule>, n: FieldName, input: Input, i: nat, k: nat)
    requires k <= |rules|
  {
    i < k && Speaks(rules, n, input, i) && forall j :: 0 <= j < i ==> !Speaks(rules, n, input, j)
  }

  /** No rule speaks for field n, and rule i is the last that applies at all. */
  predicate LastSilent(rules: seq<Rule>, n: FieldName, input: Input, i: nat, k: nat)
    requires k <= |rules|
  {
    && i < k && Candidate(rules, n, input, i)
    && (forall j :: 0 <= j < k ==> !Speaks(rules, n, input, j))
    && (forall j :: i < j < k ==> !Candidate(rules, n, input, j))
  }

  predicate NoCandidate(rules: seq<Rule>, n: FieldName, input: Input, k: nat)
    requires k <= |rules|
  {
    forall j :: 0 <= j < k ==> !Candidate(rules, n, input, j)
  }

  /** What field n holds after the first k rules. */
  ghost predicate Means(slot: Slot, rules: seq<Rule>, n: FieldName, input: Input, k: nat)
    requires k <= |rules|
  {
    || (exists i: nat :: FirstToSpeak(rules, n, input, i, k) && slot == SlotBy(rules[i], n))
    || (exists i: nat :: LastSilent(rules, n, input, i, k) && slot == SlotBy(rules[i], n))
    || (NoCandidate(rules, n, input, k) && slot == UNSET)
  }

  lemma {:induction false} RunSnoc(rules: seq<Rule>, r: Rule, input: Input, res: Result)
    ensures Run(rules + [r], input, res) == Step(Run(rules, input, res), r, input)
  {
    hide Step;
    if rules == [] {
      assert ([r])[1..] == [];
    } else {
      assert (rules + [r])[1..] == rules[1..] + [r];
      RunSnoc(rules[1..], r, input, Step(res, rules[0], input));
    }
  }

  function After(rules: seq<Rule>, input: Input, k: nat): Result
    requires k <= |rules|
  {
    Run(rules[..k], input, NOTHING)
  }

  lemma AfterNext(rules: seq<Rule>, input: Input, k: nat)
    requires k < |rules|
    ensures After(rules, input, k + 1) == Step(After(rules, input, k), rules[k], input)
  {
    assert rules[..k + 1] == rules[..k] + [rules[k]];
    RunSnoc(rules[..k], rules[k], input, NOTHING);
  }

  /** The partial result's purpose code is set exactly when an earlier rule sets it, guards or not. */
  lemma {:induction false} PurposeTracked(rules: seq<Rule>, input: Input, k: nat)
    requires k <= |rules|
    ensures After(rules, input, k).purposeCode != "" <==> PurposeSetBefore(rules, k, input)
  {
    hide Eligible, EntryOf;
    if k == 0 {
    } else {
      PurposeTracked(rules, input, k - 1);
      AfterNext(rules, input, k - 1);
      StepSlot(After(rules, input, k - 1), rules[k - 1], input, PurposeCode);
      assert PurposeSetBefore(rules, k, input) <==>
        PurposeSetBefore(rules, k - 1, input) || SetsPurpose(rules[k - 1], input);
    }
  }

  lemma MeansNext(slot: Slot, rules: seq<Rule>, n: FieldName, input: Input, k: nat)
    requires k < |rules| && Means(slot, rules, n, input, k)
    ensures Means(if Candidate(rules, n, input, k) then OfferSlot(slot, rules[k], n) else slot, rules, n, input, k + 1)
  {
    hide Candidate, EntryOf;
    var c := Candidate(rules, n, input, k);
    if i: nat :| FirstToSpeak(rules, n, input, i, k) && slot == SlotBy(rules[i], n) {
      assert FirstToSpeak(rules, n, input, i, k + 1);
    } else if c && rules[k].outcome.value != "" {
      assert slot.value == "";
      assert FirstToSpeak(rules, n, input, k, k + 1);
    } else if c {
      assert LastSilent(rules, n, input, k, k + 1);
    } else if i: nat :| LastSilent(rules, n, input, i, k) && slot == SlotBy(rules[i], n) {
      assert LastSilent(rules, n, input, i, k + 1);
    }
  }

  lemma MeansNothing(rules: seq<Rule>, input: Input, n: FieldName)
    ensures Means(SlotOf(After(rules, input, 0), n), rules, n, input, 0)
  {
    assert rules[..0] == [];
    assert SlotOf(NOTHING, n) == UNSET;
  }

  lemma {:induction false} RunMeans(rules: seq<Rule>, input: Input, n: FieldName, k: nat)
    requires k <= |rules| && Known(n)
    ensures Means(SlotOf(After(rules, input, k), n), rules, n, input, k)
  {
    hide Eligible, EntryOf, Means, Step;
    if k == 0 {
      MeansNothing(rules, input, n);
    } else {
      var before := After(rules, input, k - 1);
      RunMeans(rules, input, n, k - 1);
      PurposeTracked(rules, input, k - 1);
      AfterNext(rules, input, k - 1);
      StepSlot(before, rules[k - 1], input, n);
      MeansNext(SlotOf(before, n), rules, n, input, k - 1);
    }
  }

  function WithDefault(slot: Slot, n: FieldName, input: Input): Slot {
    if slot.value == "" && Default(n, input).Some?
    then Slot(Default(n, input).value.value, slot.local, Default(n, input))
    else slot
  }

  lemma FillSlot(res: Result, input: Input, n: FieldName)
    requires Known(n)
    ensures SlotOf(Fill(res, input), n) == WithDefault(SlotOf(res, n), n, input)
  {
    hide IsoToCurrencyCode;
    var a := FillRegulatory(res, input);
    var b := FillCurrency(a, input);
    var c := FillBearer(b, input);
    assert SlotOf(a, n) == if n.RegulatoryCode? then WithDefault(SlotOf(res, n), n, input) else SlotOf(res, n);
    assert SlotOf(b, n) == if n.AmountCurrency? then WithDefault(SlotOf(a, n), n, input) else SlotOf(a, n);
    assert SlotOf(c, n) == if n.ChargeBearer? then WithDefault(SlotOf(b, n), n, input) else SlotOf(b, n);
  }

  lemma AfterAll(rules: seq<Rule>, input: Input)
    ensures After(rules, input, |rules|) == Run(rules, input, NOTHING)
  {
    assert rules[..|rules|] == rules;
  }

  /**
    The meaning of the engine, for every rule list and every input: each field, with its log
    entry, comes from the first rule for it that applies with a non-empty value; failing
    that from its default; failing that from the last rule that applied, if any. The right
    side mentions no partial result.
   */
  lemma EnrichedMeans(rules: seq<Rule>, input: Input, n: FieldName)
    requires Known(n)
    ensures exists slot ::
      Means(slot, rules, n, input, |rules|) && SlotOf(Enriched(rules, input), n) == WithDefault(slot, n, input)
  {
    hide Means, Fill;
    RunMeans(rules, input, n, |rules|);
    AfterAll(rules, input);
    FillSlot(Run(rules, input, NOTHING), input, n);
  }

  /** Without rules there are the defaults: four fields with their log entries, and two left empty. */
  lemma WithoutRules(input: Input)
    ensures var code := IsoToCurrencyCode(input.currency);
      Enriched([], input) == Result("100", "", "", "", code, "SHAR", "NURG", map[
        RegulatoryCode := Entry("100", "DEFAULT", "No matching CBK rule", 1.0, ""),
        AmountCurrency := Entry(code, "DEFAULT_CURRENCY_MAP", "", 1.0, ""),
        ChargeBearer := Entry("SHAR", "DEFAULT", "", 1.0, ""),
        ServiceLevel := Entry("NURG", "DEFAULT", "", 1.0, "")])
  {
    hide IsoToCurrencyCode;
  }

  /** The meaning leaves no choice: a field has one slot. */
  lemma MeaningIsUnique(a: Slot, b: Slot, rules: seq<Rule>, n: FieldName, input: Input, k: nat)
    requires k <= |rules| && Means(a, rules, n, input, k) && Means(b, rules, n, input, k)
    ensures a == b
  {
    hide Candidate, EntryOf;
    if i: nat :| FirstToSpeak(rules, n, input, i, k) && a == SlotBy(rules[i], n) {
      var j: nat :| FirstToSpeak(rules, n, input, j, k) && b == SlotBy(rules[j], n);
      assert i == j;
    } else if i: nat :| LastSilent(rules, n, input, i, k) && a == SlotBy(rules[i], n) {
      var j: nat :| LastSilent(rules, n, input, j, k) && b == SlotBy(rules[j], n);
      assert i == j;
    }
  }

  // ---------------------------------------------------------- transformations

  /** Only purpose rules wait for the purpose code. */
  predicate GuardsOnlyOnPurpose(rules: seq<Rule>) {
    forall i :: 0 <= i < |rules| && Guarded(rules[i].condition) ==> rules[i].outcome.field.PurposeCode?
  }

  function EraseGuard(r: Rule): Rule {
    r.(condition := r.condition.(purposeUnset := false))
  }

  function EraseGuards(rules: seq<Rule>): seq<Rule> {
    seq(|rules|, i requires 0 <= i < |rules| => EraseGuard(rules[i]))
  }

  /** The rules for one field, in order, guards erased. */
  function Column(rules: seq<Rule>, n: FieldName): seq<Rule> {
    if rules == [] then []
    else (if rules[0].outcome.field == n then [EraseGuard(rules[0])] else []) + Column(rules[1..], n)
  }

  /** One field's column folded on its own. */
  function RunColumn(column: seq<Rule>, n: FieldName, input: Input, slot: Slot): Slot {
    if column == [] then slot
    else
      RunColumn(column[1..], n, input,
                if Eligible(column[0].condition, input) then OfferSlot(slot, column[0], n) else slot)
  }

  lemma EraseKeeps(r: Rule, input: Input, n: FieldName, slot: Slot)
    ensures Eligible(EraseGuard(r).condition, input) == Eligible(r.condition, input)
    ensures OfferSlot(slot, EraseGuard(r), n) == OfferSlot(slot, r, n)
  {
  }

  /** A field's slot depends on its own column only. */
  lemma {:induction false} RunByColumn(rules: seq<Rule>, input: Input, res: Result, n: FieldName)
    requires Known(n) && GuardsOnlyOnPurpose(rules)
    ensures SlotOf(Run(rules, input, res), n) == RunColumn(Column(rules, n), n, input, SlotOf(res, n))
  {
    hide Eligible, Step, SlotOf, SlotBy, EraseGuard, Guarded, Matches;
    if rules == [] {
    } else {
      var r := rules[0];
      var next := Step(res, r, input);
      RunByColumn(rules[1..], input, next, n);
      StepByColumn(res, r, input, n);
      EraseKeeps(r, input, n, SlotOf(res, n));
      if r.outcome.field == n {
        assert Column(rules, n)[0] == EraseGuard(r) && Column(rules, n)[1..] == Column(rules[1..], n);
      } else {
        assert Column(rules, n) == Column(rules[1..], n);
      }
    }
  }

  lemma StepByColumn(res: Result, r: Rule, input: Input, n: FieldName)
    requires Known(n) && (Guarded(r.condition) ==> r.outcome.field.PurposeCode?)
    ensures SlotOf(Step(res, r, input), n)
         == if r.outcome.field == n && Eligible(r.condition, input)
            then OfferSlot(SlotOf(res, n), r, n) else SlotOf(res, n)
  {
    hide Eligible, EntryOf, Step;
    StepSlot(res, r, input, n);
  }

  /** The log only ever has entries for the six fields. */
  lemma {:induction false} LogNames(rules: seq<Rule>, input: Input, res: Result)
    requires forall n :: n in res.log ==> Known(n)
    ensures forall n :: n in Run(rules, input, res).log ==> Known(n)
  {
    hide Matches, EntryOf;
    if rules == [] {
    } else {
      LogNames(rules[1..], input, Step(res, rules[0], input));
    }
  }

  lemma FillLogNames(res: Result, input: Input)
    requires forall n :: n in res.log ==> Known(n)
    ensures forall n :: n in Fill(res, input).log ==> Known(n)
  {
  }

  /** What the log says of a field is what the result holds, and it is silent only on an empty field. */
  predicate Explained(slot: Slot, n: FieldName) {
    match slot.entry
    case None => slot.value == "" && slot.local == ""
    case Some(e) => e.value == slot.value && (n.SettlementMethod? ==> e.localInstrument == slot.local)
  }

  lemma {:induction false} RunExplained(rules: seq<Rule>, input: Input, res: Result, n: FieldName)
    requires Known(n) && Explained(SlotOf(res, n), n)
    ensures Explained(SlotOf(Run(rules, input, res), n), n)
  {
    hide SlotOf, Matches, Step;
    if rules == [] {
    } else {
      StepSlot(res, rules[0], input, n);
      RunExplained(rules[1..], input, Step(res, rules[0], input), n);
    }
  }

  /**
    The log is the result's record, for every rule list and input: its entries are for the six
    fields, each holds the value and the instrument the result ended up with, and every field
    that is not empty has one.
   */
  lemma LogExplainsResult(rules: seq<Rule>, input: Input)
    ensures var res := Enriched(rules, input);
      && (forall n :: n in res.log ==> Known(n) && res.log[n].value == ValueOf(res, n))
      && (forall n :: Known(n) && ValueOf(res, n) != "" ==> n in res.log)
      && (SettlementMethod in res.log ==> res.log[SettlementMethod].localInstrument == res.localInstrument)
      && (SettlementMethod !in res.log ==> res.localInstrument == "")
  {
    hide Fill, Run, Default, ValueOf;
    var res := Enriched(rules, input);
    LogNames(rules, input, NOTHING);
    FillLogNames(Run(rules, input, NOTHING), input);
    forall n | Known(n) ensures Explained(SlotOf(res, n), n) {
      EnrichedExplained(rules, input, n);
    }
    forall n | n in res.log ensures Known(n) && res.log[n].value == ValueOf(res, n) {
      assert Explained(SlotOf(res, n), n);
    }
    forall n | Known(n) && ValueOf(res, n) != "" ensures n in res.log {
      assert Explained(SlotOf(res, n), n);
    }
    assert Explained(SlotOf(res, SettlementMethod), SettlementMethod);
  }

  lemma EnrichedExplained(rules: seq<Rule>, input: Input, n: FieldName)
    requires Known(n)
    ensures Explained(SlotOf(Enriched(rules, input), n), n)
  {
    assert Explained(SlotOf(NOTHING, n), n);
    hide Fill, Run, SlotOf;
    RunExplained(rules, input, NOTHING, n);
    FillSlot(Run(rules, input, NOTHING), input, n);
  }

  /** Six slots and a log over the six fields determine a result. */
  lemma ResultFromSlots(a: Result, b: Result)
    requires forall n :: Known(n) ==> SlotOf(a, n) == SlotOf(b, n)
    requires forall n :: n in a.log || n in b.log ==> Known(n)
    ensures a == b
  {
    assert SlotOf(a, RegulatoryCode) == SlotOf(b, RegulatoryCode);
    assert SlotOf(a, PurposeCode) == SlotOf(b, PurposeCode);
    assert SlotOf(a, SettlementMethod) == SlotOf(b, SettlementMethod);
    assert SlotOf(a, AmountCurrency) == SlotOf(b, AmountCurrency);
    assert SlotOf(a, ChargeBearer) == SlotOf(b, ChargeBearer);
    assert SlotOf(a, ServiceLevel) == SlotOf(b, ServiceLevel);
    assert forall n :: n in a.log ==> SlotOf(a, n).entry == Some(a.log[n]) && SlotOf(b, n).entry == Some(a.log[n]);
    assert forall n :: n in b.log ==> SlotOf(b, n).entry == Some(b.log[n]) && SlotOf(a, n).entry == Some(b.log[n]);
    assert a.log == b.log;
  }

  /**
    Rule lists with guards only on purpose rules and the same six columns, guards aside, give
    the same result and the same log on every input.
   */
  lemma ColumnsDetermineResult(a: seq<Rule>, b: seq<Rule>, input: Input)
    requires GuardsOnlyOnPurpose(a) && GuardsOnlyOnPurpose(b)
    requires forall n :: Known(n) ==> Column(a, n) == Column(b, n)
    ensures Enriched(a, input) == Enriched(b, input)
  {
    hide Fill, RunColumn, SlotOf, Run, GuardsOnlyOnPurpose;
    var x, y := Run(a, input, NOTHING), Run(b, input, NOTHING);
    forall n | Known(n) ensures SlotOf(x, n) == SlotOf(y, n) {
      RunByColumn(a, input, NOTHING, n);
      RunByColumn(b, input, NOTHING, n);
    }
    LogNames(a, input, NOTHING);
    LogNames(b, input, NOTHING);
    ResultFromSlots(x, y);
  }

  lemma {:induction false} ColumnOfErased(rules: seq<Rule>, n: FieldName)
    ensures Column(EraseGuards(rules), n) == Column(rules, n)
  {
    if rules == [] {
    } else {
      assert EraseGuards(rules)[1..] == EraseGuards(rules[1..]);
      assert EraseGuards(rules)[0] == EraseGuard(rules[0]);
      assert EraseGuard(EraseGuard(rules[0])) == EraseGuard(rules[0]);
      ColumnOfErased(rules[1..], n);
    }
  }

  /** Erasing every `purpose_code_unset` guard changes nothing, provided only purpose rules carry one. */
  lemma ErasingGuards(rules: seq<Rule>, input: Input)
    requires GuardsOnlyOnPurpose(rules)
    ensures Enriched(EraseGuards(rules), input) == Enriched(rules, input)
  {
    forall n | Known(n) ensures Column(EraseGuards(rules), n) == Column(rules, n) {
      ColumnOfErased(rules, n);
    }
    ColumnsDetermineResult(EraseGuards(rules), rules, input);
  }

  lemma {:induction false} ColumnConcat(a: seq<Rule>, b: seq<Rule>, n: FieldName)
    ensures Column(a + b, n) == Column(a, n) + Column(b, n)
  {
    hide EraseGuard;
    if a == [] {
      assert a + b == b;
    } else {
      assert (a + b)[1..] == a[1..] + b;
      ColumnConcat(a[1..], b, n);
    }
  }

  /** Neighbouring rules for different fields may change places. */
  lemma SwappingNeighbours(before: seq<Rule>, x: Rule, y: Rule, after: seq<Rule>, input: Input)
    requires x.outcome.field != y.outcome.field
    requires GuardsOnlyOnPurpose(before + [x, y] + after)
    ensures Enriched(before + [y, x] + after, input) == Enriched(before + [x, y] + after, input)
  {
    var a, b := before + [x, y] + after, before + [y, x] + after;
    forall n ensures Column(a, n) == Column(b, n) {
      ColumnConcat(before + [x, y], after, n);
      ColumnConcat(before, [x, y], n);
      ColumnConcat([x], [y], n);
      ColumnConcat(before + [y, x], after, n);
      ColumnConcat(before, [y, x], n);
      ColumnConcat([y], [x], n);
      assert [x] + [y] == [x, y] && [y] + [x] == [y, x];
      assert Column([x], n) == [] || Column([y], n) == [];
    }
    assert forall i :: 0 <= i < |b| ==>
      b[i] == a[if i == |before| then i + 1 else if i == |before| + 1 then i - 1 else i];
    assert GuardsOnlyOnPurpose(b);
    ColumnsDetermineResult(b, a, input);
  }
}
