/**
  End to end: which messages the shipped rules, the assembler, the decoder and the native
  validation let through.
 */
module Acceptance {
  import opened Option
  import opened Text
  import opened Amount
  import opened Sanitize
  import opened Xml
  import opened Enrichment
  import opened RuleMeaning
  import opened ShippedRules
  import opened ShippedForms
  import opened Assembler

  /** Message.CurrencyCode */
  function CurrencyCode(fields: Fields): string {
    OrElse(Field(fields, 49), "404")
  }

  /** The rules' view of a message, as the gateway's handler builds it. */
  function InputOf(fields: Fields): Input {
    var acquirer, forwarder := Field(fields, 32), Field(fields, 33);
    Input(Cents(Field(fields, 4)), CurrencyCode(fields), Field(fields, 3), Field(fields, 18), acquirer, forwarder,
          acquirer != "" && forwarder != "" && acquirer != forwarder)
  }

  /** The bundle identifier: a fixed prefix, a time stamp and random hex digits. */
  function BundleId(stamp: string, nonce: string): string {
    "CX-" + stamp + "-" + nonce
  }

  /** Identifiers clash only if both the stamps and the random parts do. */
  lemma BundleIdsClash(stamp: string, nonce: string, stamp': string, nonce': string)
    requires |stamp| == |stamp'|
    ensures BundleId(stamp, nonce) == BundleId(stamp', nonce') <==> stamp == stamp' && nonce == nonce'
  {
    var a, b, n := BundleId(stamp, nonce), BundleId(stamp', nonce'), |stamp|;
    assert a[3..3 + n] == stamp && b[3..3 + n] == stamp';
    assert a[4 + n..] == nonce && b[4 + n..] == nonce';
  }

  function DataFor(fields: Fields, id: string, dateTime: string, date: string): TemplateData {
    Assembled(fields, Enriched(SHIPPED, InputOf(fields)), id, dateTime, date)
  }

  /** What a caller can check before sending a message: its amount and its currency ... */
  predicate Sendable(fields: Fields) {
    ThreeLetters(TrimSpace(IsoToCurrencyCode(CurrencyCode(fields)))) && Cents(Field(fields, 4)) >= 0
  }

  function DebtorText(fields: Fields): string {
    OrElse(TrimSpace(Field(fields, 102)), TrimSpace(Field(fields, 2)))
  }

  /** ... and the characters of the texts that are printed as they come. */
  predicate Printable(fields: Fields) {
    && Legal(TrimSpace(Field(fields, 37))) && Legal(TrimSpace(Field(fields, 11)))
    && Legal(TrimSpace(Field(fields, 32))) && Legal(TrimSpace(Field(fields, 33)))
    && Legal(TrimSpace(Field(fields, 103))) && Legal(DebtorText(fields))
  }

  /** Characters of the stamps the handler makes itself: date, time, random hex digits. */
  predicate Stamp(s: string) {
    forall i :: 0 <= i < |s| ==> IsAlphaNum(s[i]) || s[i] == '-' || s[i] == ':' || s[i] == '.'
  }

  // ------------------------------------------------------- what a reader sees

  /** Sanitised text is read back as the trimmed original, its line ends normalised. */
  lemma Seen(s: string)
    ensures ReadText(SanitizeXml(s)) == LineEnds(TrimSpace(s))
    ensures Readable(SanitizeXml(s)) <==> Legal(TrimSpace(s))
  {
    hide SanitizeXml, Unescape, TrimSpace, Legal, LineEnds;
    ReaderSeesTrimmed(s);
    LegalLineEnds(TrimSpace(s));
  }

  lemma SeenOrElse(s: string, otherwise: string)
    ensures ReadText(OrElse(SanitizeXml(s), otherwise)) ==
      if TrimSpace(s) == "" then ReadText(otherwise) else LineEnds(TrimSpace(s))
    ensures Readable(otherwise) ==> (Readable(OrElse(SanitizeXml(s), otherwise)) <==> Legal(TrimSpace(s)))
    ensures Readable(OrElse(SanitizeXml(s), otherwise)) ==> Legal(TrimSpace(s))
  {
    assert Legal("");
    hide SanitizeXml, Unescape, TrimSpace, Legal, LineEnds, ReadText, Readable;
    ReaderSeesTrimmed(s);
    Seen(s);
  }

  /** Graphic text without an ampersand means itself. */
  lemma PlainText(s: string)
    requires Graphic(s) && '&' !in s
    ensures ReadText(s) == s && Readable(s)
  {
    hide Unescape, Legal, LineEnds;
    UnescapePlain(s);
    GraphicIsLegal(s);
  }

  /** Sanitising does not change what graphic text means. */
  lemma GraphicWord(s: string)
    requires Graphic(s)
    ensures ReadText(SanitizeXml(s)) == s && Readable(SanitizeXml(s))
  {
    hide SanitizeXml, TrimSpace, Legal, LineEnds, ReadText, Readable;
    Seen(s);
    TrimSpaceIdentity(s);
    GraphicIsLegal(s);
  }

  lemma StampText(s: string)
    requires Stamp(s)
    ensures ReadText(s) == s && Readable(s)
  {
    hide ReadText, Readable;
    assert '&' !in s;
    PlainText(s);
  }

  lemma BundleIdText(stamp: string, nonce: string)
    requires Stamp(stamp) && Stamp(nonce)
    ensures BundleId(stamp, nonce) != ""
    ensures ReadText(SanitizeXml(BundleId(stamp, nonce))) == BundleId(stamp, nonce)
    ensures Readable(SanitizeXml(BundleId(stamp, nonce)))
  {
    hide SanitizeXml, ReadText, Readable;
    GraphicWord(BundleId(stamp, nonce));
  }

  lemma Words()
    ensures ReadText("UNKNOWN") == "UNKNOWN" && ReadText("DEFERRED") == "DEFERRED"
    ensures Readable("UNKNOWN") && Readable("DEFERRED")
  {
    hide ReadText, Readable;
    PlainText("UNKNOWN");
    PlainText("DEFERRED");
  }

  lemma RuleWords(n: FieldName, v: string)
    requires Says(n, v)
    ensures v != "" && Graphic(v)
    ensures n.SettlementMethod? ==> v == "CLRG" || v == "INDA"
    ensures n.ChargeBearer? ==> v == "SHAR" || v == "DEBT"
    ensures n.ServiceLevel? ==> v == "URGP" || v == "NURG"
    ensures n.PurposeCode? ==> FourAlphaNum(v)
  {
  }

  lemma InstrumentWords(v: string)
    requires IsInstrument(v)
    ensures Graphic(v)
  {
  }

  /** A field some shipped rule always fills reaches the reader as that rule's word. */
  lemma CoveredField(n: FieldName, input: Input)
    requires Covered(n)
    ensures var v := ValueOf(Enriched(SHIPPED, input), n);
      Says(n, v) && ReadText(SanitizeXml(v)) == v && Readable(SanitizeXml(v))
  {
    hide SHIPPED, Enriched, Says, SanitizeXml, ReadText, Readable;
    var i := ShippedFromRule(n, input);
    assert SlotOf(Enriched(SHIPPED, input), n).value == SHIPPED[i].outcome.value;
    RuleWords(n, SHIPPED[i].outcome.value);
    GraphicWord(SHIPPED[i].outcome.value);
  }

  /** So do the reporting code and the instrument. */
  lemma OtherWords(input: Input)
    ensures var v := Enriched(SHIPPED, input).regulatoryCode;
      ReadText(SanitizeXml(v)) == v && Readable(SanitizeXml(v))
    ensures var v := Enriched(SHIPPED, input).localInstrument;
      ReadText(SanitizeXml(v)) == v && Readable(SanitizeXml(v))
  {
    hide SHIPPED, Enriched, Says, SanitizeXml, ReadText, Readable, IsInstrument;
    ShippedRegulatory(input);
    ShippedInstrument(input);
    RuleWords(RegulatoryCode, Enriched(SHIPPED, input).regulatoryCode);
    InstrumentWords(Enriched(SHIPPED, input).localInstrument);
    GraphicWord(Enriched(SHIPPED, input).regulatoryCode);
    GraphicWord(Enriched(SHIPPED, input).localInstrument);
  }

  lemma AmountField(f4: string)
    ensures ReadText(SanitizeXml(FormatAmount(f4))) == Render(Cents(f4)) && Readable(SanitizeXml(FormatAmount(f4)))
    ensures TrimSpace(Render(Cents(f4))) == Render(Cents(f4)) != ""
    ensures '-' in Render(Cents(f4)) <==> Cents(f4) < 0
  {
    hide SanitizeXml, Render, ReadText, Readable, FormatAmount;
    var t := Render(Cents(f4));
    ReadingsAgree(f4);
    RenderIsGraphic(Cents(f4));
    GraphicWord(t);
    TrimSpaceIdentity(t);
    MinusIffNegative(Cents(f4));
  }

  /** The debtor account: field 102, or field 2 when that is blank, or a word. */
  lemma DebtorField(fields: Fields)
    ensures var t := OrElse(OrElse(SanitizeXml(Field(fields, 102)), SanitizeXml(Field(fields, 2))), "UNKNOWN");
      && ReadText(t) == (if DebtorText(fields) == "" then "UNKNOWN" else LineEnds(DebtorText(fields)))
      && (Readable(t) <==> Legal(DebtorText(fields)))
  {
    assert Legal("");
    hide SanitizeXml, Unescape, TrimSpace, Legal, LineEnds, ReadText, Readable, Field;
    Words();
    ReaderSeesTrimmed(Field(fields, 102));
    Seen(Field(fields, 102));
    SeenOrElse(Field(fields, 2), "UNKNOWN");
  }

  lemma CreditorField(s: string)
    ensures ReadText(OrElse(SanitizeXml(s), "DEFERRED")) != ""
  {
    hide SanitizeXml, TrimSpace, LineEnds, ReadText, Readable;
    Words();
    SeenOrElse(s, "DEFERRED");
    CarriageReturns(TrimSpace(s));
  }

  lemma CurrencyField(s: string)
    ensures ThreeLetters(ReadText(SanitizeXml(s))) <==> ThreeLetters(TrimSpace(s))
    ensures ThreeLetters(TrimSpace(s)) ==> Readable(SanitizeXml(s)) && ReadText(SanitizeXml(s)) == TrimSpace(s)
  {
    hide SanitizeXml, TrimSpace, LineEnds, ReadText, Readable, Legal;
    Seen(s);
    CarriageReturns(TrimSpace(s));
    if ThreeLetters(TrimSpace(s)) {
      GraphicIsLegal(TrimSpace(s));
    }
  }

  // ---------------------------------------------------------- what is accepted

  /** The stamped pieces and the coded pieces can always be read. */
  lemma OwnPieces(fields: Fields, stamp: string, nonce: string, dateTime: string, date: string)
    requires Stamp(stamp) && Stamp(nonce) && Stamp(dateTime) && Stamp(date)
    ensures var td := DataFor(fields, BundleId(stamp, nonce), dateTime, date);
      && Readable(td.msgId) && Readable(td.bundleId) && Readable(td.creationDateTime) && Readable(td.settlementDate)
      && Readable(td.amount) && Readable(td.settlementMethod) && Readable(td.localInstrument)
      && Readable(td.serviceLevel) && Readable(td.purposeCode) && Readable(td.chargeBearer)
      && Readable(td.regulatoryCode)
  {
    hide SHIPPED, Enriched, Says, SanitizeXml, ReadText, Readable, FormatAmount, InputOf, BundleId, Render, Cents;
    var input := InputOf(fields);
    BundleIdText(stamp, nonce);
    StampText(dateTime);
    StampText(date);
    CoveredField(PurposeCode, input);
    CoveredField(SettlementMethod, input);
    CoveredField(ChargeBearer, input);
    CoveredField(ServiceLevel, input);
    OtherWords(input);
    AmountField(Field(fields, 4));
  }

  /** The pieces that come from the message can be read exactly when the message is printable. */
  lemma MessagePieces(fields: Fields, enr: Result, id: string, dateTime: string, date: string)
    ensures var td := Assembled(fields, enr, id, dateTime, date);
      var readable := Readable(td.endToEndId) && Readable(td.transactionId) && Readable(td.acquirer)
                      && Readable(td.forwarder) && Readable(td.debtor) && Readable(td.creditor);
      (readable ==> Printable(fields)) && (Readable(td.msgId) ==> (readable <==> Printable(fields)))
  {
    hide SanitizeXml, TrimSpace, Legal, LineEnds, ReadText, Readable, FormatAmount, Field, DebtorText;
    Words();
    SeenOrElse(Field(fields, 37), SanitizeXml(id));
    SeenOrElse(Field(fields, 11), SanitizeXml(id));
    SeenOrElse(Field(fields, 32), "UNKNOWN");
    SeenOrElse(Field(fields, 33), "UNKNOWN");
    SeenOrElse(Field(fields, 103), "DEFERRED");
    DebtorField(fields);
  }

  lemma InputCurrency(fields: Fields)
    ensures InputOf(fields).currency == CurrencyCode(fields)
  {
  }

  /** Of a message's own making, the checks depend on the currency and the amount alone. */
  lemma ChecksOnMessage(fields: Fields, id: string, dateTime: string, date: string)
    ensures var td := DataFor(fields, id, dateTime, date);
      && (ThreeLetters(ReadText(td.currency)) <==> ThreeLetters(TrimSpace(IsoToCurrencyCode(CurrencyCode(fields)))))
      && (ThreeLetters(ReadText(td.currency)) ==> Readable(td.currency))
      && TrimSpace(ReadText(td.amount)) != ""
      && ('-' in TrimSpace(ReadText(td.amount)) <==> Cents(Field(fields, 4)) < 0)
      && ReadText(td.debtor) != "" && ReadText(td.creditor) != ""
  {
    hide SHIPPED, Enriched, SanitizeXml, TrimSpace, Legal, LineEnds, ReadText, Readable, FormatAmount, Field,
      InputOf, Render, Cents, IsoToCurrencyCode, CurrencyCode, ThreeLetters, DebtorText;
    ShippedCurrency(InputOf(fields));
    InputCurrency(fields);
    CurrencyField(Enriched(SHIPPED, InputOf(fields)).currency);
    AmountField(Field(fields, 4));
    DebtorField(fields);
    CarriageReturns(DebtorText(fields));
    CreditorField(Field(fields, 103));
  }

  /** The coded fields always pass. */
  lemma ChecksOnCodes(fields: Fields, id: string, dateTime: string, date: string)
    ensures var td := DataFor(fields, id, dateTime, date);
      && (ReadText(td.settlementMethod) == "CLRG" || ReadText(td.settlementMethod) == "INDA")
      && FourAlphaNum(ReadText(td.purposeCode))
      && (ReadText(td.chargeBearer) == "SHAR" || ReadText(td.chargeBearer) == "DEBT")
      && (ReadText(td.serviceLevel) == "URGP" || ReadText(td.serviceLevel) == "NURG")
  {
    hide SHIPPED, Enriched, Says, SanitizeXml, ReadText, Readable, FormatAmount, InputOf, FourAlphaNum;
    var input := InputOf(fields);
    var enr := Enriched(SHIPPED, input);
    CoveredField(PurposeCode, input);
    CoveredField(SettlementMethod, input);
    CoveredField(ChargeBearer, input);
    CoveredField(ServiceLevel, input);
    RuleWords(PurposeCode, enr.purposeCode);
    RuleWords(SettlementMethod, enr.settlementMethod);
    RuleWords(ChargeBearer, enr.chargeBearer);
    RuleWords(ServiceLevel, enr.serviceLevel);
  }

  /** Whatever the stamps, only a sendable and printable message is accepted. */
  lemma AcceptedIsSendable(fields: Fields, id: string, dateTime: string, date: string, isDateTime: string -> bool)
    requires Acceptable(Decode(DataFor(fields, id, dateTime, date)), isDateTime)
    ensures Sendable(fields) && Printable(fields)
  {
    hide DataFor, Readable, ReadText, Legal, TrimSpace, Cents, IsoToCurrencyCode, CurrencyCode, ThreeLetters, Printable,
      FourAlphaNum;
    ChecksOnMessage(fields, id, dateTime, date);
    MessagePiecesOf(fields, id, dateTime, date);
  }

  lemma MessagePiecesOf(fields: Fields, id: string, dateTime: string, date: string)
    ensures var td := DataFor(fields, id, dateTime, date);
      var readable := Readable(td.endToEndId) && Readable(td.transactionId) && Readable(td.acquirer)
                      && Readable(td.forwarder) && Readable(td.debtor) && Readable(td.creditor);
      (readable ==> Printable(fields)) && (Readable(td.msgId) ==> (readable <==> Printable(fields)))
  {
    MessagePieces(fields, Enriched(SHIPPED, InputOf(fields)), id, dateTime, date);
  }

  /**
    Acceptance, exactly: the document made from a message can be read and passes the native
    checks if and only if the message's currency reads as three letters A to Z, its amount is
    not negative, and the texts printed from it are legal XML. No other check can fail.
   */
  lemma AcceptedIffSendable(fields: Fields, stamp: string, nonce: string, dateTime: string, date: string,
                            isDateTime: string -> bool)
    requires Stamp(stamp) && Stamp(nonce) && Stamp(dateTime) && Stamp(date) && isDateTime(dateTime)
    ensures Acceptable(Decode(DataFor(fields, BundleId(stamp, nonce), dateTime, date)), isDateTime)
       <==> Sendable(fields) && Printable(fields)
  {
    hide DataFor, Readable, ReadText, Legal, TrimSpace, Cents, IsoToCurrencyCode, CurrencyCode, ThreeLetters, Printable,
      FourAlphaNum, BundleId, Stamp;
    var id := BundleId(stamp, nonce);
    OwnPieces(fields, stamp, nonce, dateTime, date);
    MessagePiecesOf(fields, id, dateTime, date);
    ChecksOnMessage(fields, id, dateTime, date);
    ChecksOnCodes(fields, id, dateTime, date);
    StampedFields(fields, stamp, nonce, dateTime, date);
  }

  lemma StampedFields(fields: Fields, stamp: string, nonce: string, dateTime: string, date: string)
    requires Stamp(stamp) && Stamp(nonce) && Stamp(dateTime)
    ensures var td := DataFor(fields, BundleId(stamp, nonce), dateTime, date);
      ReadText(td.msgId) != "" && ReadText(td.creationDateTime) == dateTime
  {
    hide SHIPPED, Enriched, SanitizeXml, ReadText, Readable, FormatAmount, BundleId, Stamp;
    BundleIdText(stamp, nonce);
    StampText(dateTime);
  }

  /** Every numeric code the table knows, and an absent currency, is sendable. */
  lemma TableCodesAreSendable(code: string)
    requires IsoToCurrencyCode(code) != code
    ensures ThreeLetters(TrimSpace(IsoToCurrencyCode(code)))
  {
    hide TrimSpace;
    TableEntry(code);
    TrimSpaceIdentity(IsoToCurrencyCode(code));
  }

  lemma TableEntry(code: string)
    requires IsoToCurrencyCode(code) != code
    ensures ThreeLetters(IsoToCurrencyCode(code))
  {
  }

  /** A message of graphic fields is always printable. */
  lemma GraphicIsPrintable(fields: Fields)
    requires forall f :: f in fields ==> Graphic(fields[f])
    ensures Printable(fields)
  {
    hide TrimSpace, Legal;
    forall f ensures Legal(TrimSpace(Field(fields, f))) {
      TrimSpaceIdentity(Field(fields, f));
      GraphicIsLegal(Field(fields, f));
    }
  }

  lemma ControlStart(r: string)
    requires r != "" && r[0] as int == 1
    ensures !IsSpaceRune(r) && !IsXmlChar(r)
  {
  }

  lemma ControlText(t: string)
    requires t != "" && forall i :: 0 <= i < |t| ==> t[i] as int == 1
    ensures TrimSpace(t) == t && !Legal(t)
  {
    hide IsSpaceRune, IsXmlChar;
    var front, back, legal := SpaceAtFront(t), SpaceAtBack(t), CharAtFront(t);
    if front > 0 {
      ControlStart(t[..front]);
    }
    if back > 0 {
      ControlStart(t[|t| - back..]);
    }
    if legal > 0 {
      ControlStart(t[..legal]);
    }
  }

  /** One unprintable field is enough: a reference number of control characters. */
  lemma ControlsAreNotPrintable(fields: Fields)
    requires Field(fields, 37) != "" && forall c :: c in Field(fields, 37) ==> c as int == 1
    ensures !Printable(fields)
  {
    hide TrimSpace, Legal, DebtorText;
    assert forall i :: 0 <= i < |Field(fields, 37)| ==> Field(fields, 37)[i] in Field(fields, 37);
    ControlText(Field(fields, 37));
  }

  /**
    A reader of the document sees, field by field, the trimmed text of the message with its
    line ends normalised, or the stated substitute for what was blank: the bundle id for the
    two references, the account number of field 2 for a missing debtor account.
   */
  lemma ReaderSees(fields: Fields, enr: Result, id: string, dateTime: string, date: string)
    ensures var decoded := Decode(Assembled(fields, enr, id, dateTime, date));
      decoded.Some? ==>
      && decoded.value.msgId == LineEnds(TrimSpace(id)) && decoded.value.remittance == decoded.value.msgId
      && decoded.value.creDtTm == ReadText(dateTime) && decoded.value.settlementDate == ReadText(date)
      && decoded.value.endToEndId == LineEnds(OrElse(TrimSpace(Field(fields, 37)), TrimSpace(id)))
      && decoded.value.transactionId == LineEnds(OrElse(TrimSpace(Field(fields, 11)), TrimSpace(id)))
      && decoded.value.amount == Render(Cents(Field(fields, 4)))
      && decoded.value.acquirer == LineEnds(OrElse(TrimSpace(Field(fields, 32)), "UNKNOWN"))
      && decoded.value.forwarder == LineEnds(OrElse(TrimSpace(Field(fields, 33)), "UNKNOWN"))
      && decoded.value.debtor == LineEnds(OrElse(DebtorText(fields), "UNKNOWN"))
      && decoded.value.creditor == LineEnds(OrElse(TrimSpace(Field(fields, 103)), "DEFERRED"))
  {
    CarriageReturns("UNKNOWN");
    CarriageReturns("DEFERRED");
    hide SanitizeXml, Unescape, TrimSpace, FormatAmount, Render, Cents, Field, LineEnds, ReadText, WellFormed, Legal,
      Readable, DebtorText;
    Words();
    Seen(id);
    SeenOrElse(Field(fields, 37), SanitizeXml(id));
    SeenOrElse(Field(fields, 11), SanitizeXml(id));
    AmountField(Field(fields, 4));
    SeenOrElse(Field(fields, 32), "UNKNOWN");
    SeenOrElse(Field(fields, 33), "UNKNOWN");
    SeenOrElse(Field(fields, 103), "DEFERRED");
    DebtorField(fields);
  }

  /** The dates are read as the handler wrote them. */
  lemma ReaderSeesDates(td: TemplateData)
    requires Stamp(td.creationDateTime) && Stamp(td.settlementDate)
    ensures Decode(td).Some? ==>
      Decode(td).value.creDtTm == td.creationDateTime && Decode(td).value.settlementDate == td.settlementDate
  {
    hide ReadText, Readable, Stamp;
    StampText(td.creationDateTime);
    StampText(td.settlementDate);
  }

  /** The coded fields a reader sees are those of the shipped rules' result, unchanged. */
  lemma ReaderSeesCodes(fields: Fields, id: string, dateTime: string, date: string)
    ensures var enr := Enriched(SHIPPED, InputOf(fields));
      var decoded := Decode(DataFor(fields, id, dateTime, date));
      decoded.Some? ==>
      && decoded.value.settlementMethod == enr.settlementMethod && decoded.value.chargeBearer == enr.chargeBearer
      && decoded.value.serviceLevel == enr.serviceLevel && decoded.value.purposeCode == enr.purposeCode
      && decoded.value.localInstrument == enr.localInstrument && decoded.value.regulatoryCode == enr.regulatoryCode
      && decoded.value.currency == LineEnds(TrimSpace(IsoToCurrencyCode(CurrencyCode(fields))))
  {
    hide SHIPPED, Enriched, Says, SanitizeXml, Unescape, TrimSpace, IsoToCurrencyCode, FormatAmount, InputOf,
      ReadText, WellFormed, Readable, LineEnds, Legal, CurrencyCode;
    var input := InputOf(fields);
    CoveredField(SettlementMethod, input);
    CoveredField(ChargeBearer, input);
    CoveredField(ServiceLevel, input);
    CoveredField(PurposeCode, input);
    OtherWords(input);
    ShippedCurrency(input);
    InputCurrency(fields);
    Seen(Enriched(SHIPPED, input).currency);
  }

  // ---------------------------------------------- from message fields to codes

  /** Both institutions are named and they differ. */
  predicate BetweenInstitutions(fields: Fields) {
    Field(fields, 32) != "" && Field(fields, 33) != "" && Field(fields, 32) != Field(fields, 33)
  }

  /** The rules see the message's own fields; a message without a currency is in shillings. */
  lemma InputReads(fields: Fields)
    ensures var x := InputOf(fields);
      && x.amount == Cents(Field(fields, 4))
      && x.currency == (if Field(fields, 49) == "" then "404" else Field(fields, 49))
      && x.processingCode == Field(fields, 3) && x.merchantType == Field(fields, 18)
      && x.acquirer == Field(fields, 32) && x.forwarder == Field(fields, 33)
      && (x.crossInstitutional <==> BetweenInstitutions(fields))
  {
  }

  /** The settlement a reader sees, from the message's amount and institutions. */
  lemma SettlementOfMessage(fields: Fields, id: string, dateTime: string, date: string)
    ensures var decoded := Decode(DataFor(fields, id, dateTime, date));
      var cents, between := Cents(Field(fields, 4)), BetweenInstitutions(fields);
      var foreign := Field(fields, 49) != "" && Field(fields, 49) != "404";
      decoded.Some? ==>
      && decoded.value.settlementMethod == (if cents >= 1000000_00 then "CLRG" else "INDA")
      && decoded.value.localInstrument ==
         (if cents >= 1000000_00 then "KEPSS" else if 10_00 <= cents <= 999999_00 && between then "PESALINK"
          else if "63902" <= Field(fields, 32) then "MPESA" else "DOMESTIC")
      && decoded.value.chargeBearer == (if !between && foreign then "DEBT" else "SHAR")
      && decoded.value.serviceLevel == (if cents >= 5000000_00 then "URGP" else "NURG")
  {
    hide Decode, DataFor, Enriched, SHIPPED, Cents, Field;
    InputReads(fields);
    ReaderSeesCodes(fields, id, dateTime, date);
    RailForm(InputOf(fields));
    ChargeForm(InputOf(fields));
  }

  /** The purpose and the reporting code a reader sees. */
  lemma CodesOfMessage(fields: Fields, id: string, dateTime: string, date: string)
    ensures var decoded := Decode(DataFor(fields, id, dateTime, date));
      var cents, code, merchant := Cents(Field(fields, 4)), Field(fields, 3), Field(fields, 18);
      var foreign := Field(fields, 49) != "" && Field(fields, 49) != "404";
      var utility := merchant == "4900" || merchant == "4911" || merchant == "4931";
      decoded.Some? ==>
      && decoded.value.purposeCode ==
         (if code == "400000" then "SALA" else if merchant == "9311" then "TAXS" else if "38" <= code then "LOAN"
          else if utility then "BEXP" else if cents >= 100000_00 && "40" <= code then "SUPP"
          else if foreign then "RIMV" else "OTHR")
      && decoded.value.regulatoryCode ==
         (if cents >= 100000_00 && !foreign && BetweenInstitutions(fields) then "301"
          else if 10000_00 <= cents <= 99999_00 && "40" <= code then "201" else if merchant == "9311" then "202"
          else if utility then "203" else if "38" <= code then "204" else if foreign then "205" else "100")
  {
    hide Decode, DataFor, Enriched, SHIPPED, Cents, Field;
    InputReads(fields);
    ReaderSeesCodes(fields, id, dateTime, date);
    PurposeForm(InputOf(fields));
    RegulatoryForm(InputOf(fields));
  }
}
