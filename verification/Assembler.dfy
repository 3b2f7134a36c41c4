/**
  From a parsed message and its enrichment to the template's fields, and the checks on what a
  reader of the document sees. The template text itself is not part of this model: its
  character data are the fields, and a document that can be read is its decoded fields.
 */
module Assembler {
  import opened Option
  import opened Text
  import opened Amount
  import opened Sanitize
  import opened Xml
  import opened Enrichment

  /** A parsed message's fields; the element type is wide enough for any text. */
  type Fields = map<int, string>

  /** Go's read of a map: the empty string when the key is absent. */
  function Field(fields: Fields, f: int): string {
    if f in fields then fields[f] else ""
  }

  datatype TemplateData = TemplateData(
    msgId: string, bundleId: string, creationDateTime: string, settlementDate: string,
    endToEndId: string, transactionId: string, amount: string, currency: string,
    settlementMethod: string, localInstrument: string, serviceLevel: string, purposeCode: string,
    chargeBearer: string, regulatoryCode: string, acquirer: string, forwarder: string,
    debtor: string, creditor: string)

  function OrElse(s: string, otherwise: string): string {
    if s == "" then otherwise else s
  }

  /** The fields the template is filled with, each stated outright. */
  function Assembled(fields: Fields, enr: Result, bundleId: string, dateTime: string, date: string): TemplateData {
    var id := SanitizeXml(bundleId);
    TemplateData(
      id, id, dateTime, date,
      OrElse(SanitizeXml(Field(fields, 37)), id),
      OrElse(SanitizeXml(Field(fields, 11)), id),
      SanitizeXml(FormatAmount(Field(fields, 4))),
      SanitizeXml(enr.currency),
      SanitizeXml(enr.settlementMethod),
      SanitizeXml(enr.localInstrument),
      SanitizeXml(enr.serviceLevel),
      SanitizeXml(enr.purposeCode),
      SanitizeXml(enr.chargeBearer),
      SanitizeXml(enr.regulatoryCode),
      OrElse(SanitizeXml(Field(fields, 32)), "UNKNOWN"),
      OrElse(SanitizeXml(Field(fields, 33)), "UNKNOWN"),
      OrElse(OrElse(SanitizeXml(Field(fields, 102)), SanitizeXml(Field(fields, 2))), "UNKNOWN"),
      OrElse(SanitizeXml(Field(fields, 103)), "DEFERRED"))
  }

  /** The source's way there: fill everything, then overwrite what came out empty. */
  method AssembleData(fields: Fields, enr: Result, bundleId: string, dateTime: string, date: string)
    returns (td: TemplateData)
    ensures td == Assembled(fields, enr, bundleId, dateTime, date)
  {
    hide SanitizeXml, FormatAmount;
    td := TemplateData(
      SanitizeXml(bundleId), SanitizeXml(bundleId), dateTime, date,
      SanitizeXml(Field(fields, 37)), SanitizeXml(Field(fields, 11)),
      SanitizeXml(FormatAmount(Field(fields, 4))), SanitizeXml(enr.currency),
      SanitizeXml(enr.settlementMethod), SanitizeXml(enr.localInstrument),
      SanitizeXml(enr.serviceLevel), SanitizeXml(enr.purposeCode),
      SanitizeXml(enr.chargeBearer), SanitizeXml(enr.regulatoryCode),
      SanitizeXml(Field(fields, 32)), SanitizeXml(Field(fields, 33)),
      SanitizeXml(Field(fields, 102)), SanitizeXml(Field(fields, 103)));
    if td.endToEndId == "" {
      td := td.(endToEndId := td.bundleId);
    }
    if td.transactionId == "" {
      td := td.(transactionId := td.bundleId);
    }
    if td.acquirer == "" {
      td := td.(acquirer := "UNKNOWN");
    }
    if td.forwarder == "" {
      td := td.(forwarder := "UNKNOWN");
    }
    if td.debtor == "" {
      td := td.(debtor := SanitizeXml(Field(fields, 2)));
    }
    if td.debtor == "" {
      td := td.(debtor := "UNKNOWN");
    }
    if td.creditor == "" {
      td := td.(creditor := "DEFERRED");
    }
  }

  // ------------------------------------------------------------------ reading

  /** What the decoder hands on for one piece of character data. */
  function ReadText(s: string): string {
    LineEnds(Unescape(s))
  }

  predicate Readable(s: string) {
    Legal(ReadText(s))
  }

  /** validateWellFormed: the template is well-formed, so the document is if what is put into it can be read. */
  predicate WellFormed(td: TemplateData) {
    && Readable(td.msgId) && Readable(td.bundleId) && Readable(td.creationDateTime) && Readable(td.settlementDate)
    && Readable(td.endToEndId) && Readable(td.transactionId) && Readable(td.amount) && Readable(td.currency)
    && Readable(td.settlementMethod) && Readable(td.localInstrument) && Readable(td.serviceLevel)
    && Readable(td.purposeCode) && Readable(td.chargeBearer) && Readable(td.regulatoryCode)
    && Readable(td.acquirer) && Readable(td.forwarder) && Readable(td.debtor) && Readable(td.creditor)
  }

  /** The elements filled from the template's data, as a reader finds them. */
  datatype Document = Document(
    msgId: string, creDtTm: string, settlementMethod: string, localInstrument: string, endToEndId: string,
    transactionId: string, serviceLevel: string, purposeCode: string, currency: string, amount: string,
    settlementDate: string, chargeBearer: string, acquirer: string, forwarder: string, debtor: string,
    creditor: string, regulatoryCode: string, remittance: string)

  function Contents(td: TemplateData): Document {
    Document(
      ReadText(td.msgId), ReadText(td.creationDateTime), ReadText(td.settlementMethod), ReadText(td.localInstrument),
      ReadText(td.endToEndId), ReadText(td.transactionId), ReadText(td.serviceLevel), ReadText(td.purposeCode),
      ReadText(td.currency), ReadText(td.amount), ReadText(td.settlementDate), ReadText(td.chargeBearer),
      ReadText(td.acquirer), ReadText(td.forwarder), ReadText(td.debtor), ReadText(td.creditor),
      ReadText(td.regulatoryCode), ReadText(td.bundleId))
  }

  /** xml.Unmarshal; None is its error. */
  function Decode(td: TemplateData): Option<Document> {
    if WellFormed(td) then Some(Contents(td)) else None
  }

  // --------------------------------------------------------------- validation

  datatype Complaint =
    | Unreadable | NoMsgId | BadDateTime | BadMethod | BadCurrencyLength | BadCurrencyChar | NoAmount | NegativeAmount
    | BadPurposeLength | BadPurposeChar | BadChargeBearer | BadServiceLevel | NoDebtor | NoCreditor

  predicate IsUpper(c: char) {
    'A' <= c <= 'Z'
  }

  predicate IsAlphaNum(c: char) {
    IsUpper(c) || 'a' <= c <= 'z' || '0' <= c <= '9'
  }

  predicate ThreeLetters(s: string) {
    |s| == 3 && forall i :: 0 <= i < |s| ==> IsUpper(s[i])
  }

  predicate FourAlphaNum(s: string) {
    |s| == 4 && forall i :: 0 <= i < |s| ==> IsAlphaNum(s[i])
  }

  /** What the checks ask of a document; `isDateTime` says what time.Parse accepts. */
  predicate ChecksPass(d: Document, isDateTime: string -> bool) {
    && d.msgId != "" && isDateTime(d.creDtTm)
    && (d.settlementMethod == "CLRG" || d.settlementMethod == "INDA")
    && ThreeLetters(d.currency)
    && TrimSpace(d.amount) != "" && '-' !in TrimSpace(d.amount)
    && (d.purposeCode == "" || FourAlphaNum(d.purposeCode))
    && (d.chargeBearer == "SHAR" || d.chargeBearer == "DEBT" || d.chargeBearer == "CRED" || d.chargeBearer == "SLEV")
    && (d.serviceLevel == "URGP" || d.serviceLevel == "NURG")
    && d.debtor != "" && d.creditor != ""
  }

  /** An acceptable document can be read and passes the checks. */
  predicate Acceptable(d: Option<Document>, isDateTime: string -> bool) {
    d.Some? && ChecksPass(d.value, isDateTime)
  }

  /** Each check on its own: which texts may stand in a document that is otherwise acceptable. */
  lemma EachCheck(d: Document, v: string, isDateTime: string -> bool)
    requires ChecksPass(d, isDateTime)
    ensures ChecksPass(d.(settlementMethod := v), isDateTime) <==> v in {"CLRG", "INDA"}
    ensures ChecksPass(d.(chargeBearer := v), isDateTime) <==> v in {"SHAR", "DEBT", "CRED", "SLEV"}
    ensures ChecksPass(d.(serviceLevel := v), isDateTime) <==> v in {"URGP", "NURG"}
    ensures ChecksPass(d.(creDtTm := v), isDateTime) <==> isDateTime(v)
    ensures ChecksPass(d.(msgId := v), isDateTime) <==> v != ""
    ensures ChecksPass(d.(debtor := v), isDateTime) <==> v != ""
    ensures ChecksPass(d.(creditor := v), isDateTime) <==> v != ""
    ensures ChecksPass(d.(currency := v), isDateTime) <==>
      |v| == 3 && forall i :: 0 <= i < 3 ==> v[i] in "ABCDEFGHIJKLMNOPQRSTUVWXYZ"
    ensures ChecksPass(d.(amount := v), isDateTime) <==> TrimSpace(v) != "" && '-' !in TrimSpace(v)
  {
    hide TrimSpace, FourAlphaNum;
    assert forall c :: IsUpper(c) <==> c in "ABCDEFGHIJKLMNOPQRSTUVWXYZ" by {
      forall c ensures IsUpper(c) <==> c in "ABCDEFGHIJKLMNOPQRSTUVWXYZ" {
        UpperLetters(c);
      }
    }
    hide IsUpper;
  }

  lemma UpperLetters(c: char)
    ensures IsUpper(c) <==> c in "ABCDEFGHIJKLMNOPQRSTUVWXYZ"
  {
    var s := "ABCDEFGHIJKLMNOPQRSTUVWXYZ";
    assert forall i :: 0 <= i < |s| ==> IsUpper(s[i]);
    if IsUpper(c) {
      assert s[c as int - 65] == c;
    }
  }

  /** A purpose code may be absent or four letters and digits. */
  lemma PurposeCheck(d: Document, v: string, isDateTime: string -> bool)
    requires ChecksPass(d, isDateTime)
    ensures ChecksPass(d.(purposeCode := v), isDateTime) <==>
      v == "" || (|v| == 4 && forall i :: 0 <= i < 4 ==>
        '0' <= v[i] <= '9' || 'A' <= v[i] <= 'Z' || 'a' <= v[i] <= 'z')
  {
    hide TrimSpace, ThreeLetters;
  }

  /** What each complaint reports. */
  predicate Fails(c: Complaint, decoded: Option<Document>, isDateTime: string -> bool) {
    if decoded.None? then c.Unreadable?
    else
      var d := decoded.value;
      match c
      case Unreadable => false
      case NoMsgId => d.msgId == ""
      case BadDateTime => !isDateTime(d.creDtTm)
      case BadMethod => d.settlementMethod != "CLRG" && d.settlementMethod != "INDA"
      case BadCurrencyLength => |d.currency| != 3
      case BadCurrencyChar => !ThreeLetters(d.currency)
      case NoAmount => TrimSpace(d.amount) == ""
      case NegativeAmount => '-' in TrimSpace(d.amount)
      case BadPurposeLength => d.purposeCode != "" && |d.purposeCode| != 4
      case BadPurposeChar => d.purposeCode != "" && !FourAlphaNum(d.purposeCode)
      case BadChargeBearer =>
        d.chargeBearer != "SHAR" && d.chargeBearer != "DEBT" && d.chargeBearer != "CRED" && d.chargeBearer != "SLEV"
      case BadServiceLevel => d.serviceLevel != "URGP" && d.serviceLevel != "NURG"
      case NoDebtor => d.debtor == ""
      case NoCreditor => d.creditor == ""
  }

  /** The place of each check in the validation. */
  function Place(c: Complaint): nat {
    match c
    case Unreadable => 0
    case NoMsgId => 1
    case BadDateTime => 2
    case BadMethod => 3
    case BadCurrencyLength => 4
    case BadCurrencyChar => 5
    case NoAmount => 6
    case NegativeAmount => 7
    case BadPurposeLength => 8
    case BadPurposeChar => 9
    case BadChargeBearer => 10
    case BadServiceLevel => 11
    case NoDebtor => 12
    case NoCreditor => 13
  }

  method CheckCurrency(ccy: string) returns (c: Option<Complaint>)
    ensures c.None? <==> ThreeLetters(ccy)
    ensures c.Some? ==> c == Some(if |ccy| != 3 then BadCurrencyLength else BadCurrencyChar)
  {
    if |ccy| != 3 {
      return Some(BadCurrencyLength);
    }
    for i := 0 to |ccy|
      invariant forall j :: 0 <= j < i ==> IsUpper(ccy[j])
    {
      if ccy[i] < 'A' || ccy[i] > 'Z' {
        return Some(BadCurrencyChar);
      }
    }
    return None;
  }

  method CheckPurpose(pc: string) returns (c: Option<Complaint>)
    ensures c.None? <==> pc == "" || FourAlphaNum(pc)
    ensures c.Some? ==> c == Some(if |pc| != 4 then BadPurposeLength else BadPurposeChar)
  {
    if pc != "" {
      if |pc| != 4 {
        return Some(BadPurposeLength);
      }
      for i := 0 to |pc|
        invariant forall j :: 0 <= j < i ==> IsAlphaNum(pc[j])
      {
        if !IsAlphaNum(pc[i]) {
          return Some(BadPurposeChar);
        }
      }
    }
    return None;
  }

  /** validateNativeISO: decode, then the checks in order, stopping at the first complaint. */
  method ValidateNative(decoded: Option<Document>, isDateTime: string -> bool) returns (c: Option<Complaint>)
    ensures c.None? <==> Acceptable(decoded, isDateTime)
    ensures c.Some? ==> Fails(c.value, decoded, isDateTime)
    ensures c.Some? ==> forall e :: Place(e) < Place(c.value) ==> !Fails(e, decoded, isDateTime)
  {
    hide TrimSpace;
    if decoded.None? {
      return Some(Unreadable);
    }
    var d := decoded.value;
    if d.msgId == "" {
      return Some(NoMsgId);
    }
    if !isDateTime(d.creDtTm) {
      return Some(BadDateTime);
    }
    if d.settlementMethod != "CLRG" && d.settlementMethod != "INDA" {
      return Some(BadMethod);
    }
    c := CheckCurrency(d.currency);
    if c.Some? {
      return;
    }
    var amtStr := TrimSpace(d.amount);
    if amtStr == "" {
      return Some(NoAmount);
    }
    if '-' in amtStr {
      return Some(NegativeAmount);
    }
    c := CheckPurpose(d.purposeCode);
    if c.Some? {
      return;
    }
    if d.chargeBearer != "SHAR" && d.chargeBearer != "DEBT" && d.chargeBearer != "CRED" && d.chargeBearer != "SLEV" {
      return Some(BadChargeBearer);
    }
    if d.serviceLevel != "URGP" && d.serviceLevel != "NURG" {
      return Some(BadServiceLevel);
    }
    if d.debtor == "" {
      return Some(NoDebtor);
    }
    if d.creditor == "" {
      return Some(NoCreditor);
    }
    return None;
  }
}
