/** What the handler does before it takes the lock, and the gateway run with it. */
module Pipeline {
  import opened Option
  import opened Bytes
  import opened Text
  import opened FieldTable
  import opened Iso8583
  import opened ParserLaws
  import opened AsciiCodec
  import opened Enrichment
  import opened ShippedRules
  import opened Assembler
  import opened Acceptance
  import opened Ledger
  import opened Witness
  import opened Agreement
  import opened Gateway

  /** What the model leaves open: cryptography, the template's text, the date parser. */
  datatype Outside = Outside(c: Suite, render: TemplateData -> Bytes, isDateTime: string -> bool)

  function DataOf(fields: Fields, req: Request): TemplateData {
    DataFor(fields, BundleId(req.stamp, req.nonce), req.dateTime, req.date)
  }

  function Prepare(o: Outside, req: Request): Preparation {
    match ParseSpec(req.raw)
    case Rejected(_) => Refused(400)
    case Panicked => Panicking
    case Parsed(m) =>
      var td := DataOf(m.fields, req);
      if !Acceptable(Decode(td), o.isDateTime) then Refused(422)
      else Ready(Prepared(BundleId(req.stamp, req.nonce), EncodeHex(o.c.H(req.raw)), EncodeHex(o.c.H(o.render(td)))))
  }

  /** The same work, done by the methods that do it. */
  method PrepareRequest(o: Outside, req: Request) returns (r: Preparation)
    ensures r == Prepare(o, req)
  {
    hide ParseSpec, Enriched, SHIPPED, Assembled, ChecksPass, WellFormed, Contents, InputOf, BundleId;
    var parsed := Parse(req.raw);
    match parsed {
      case Rejected(_) => return Refused(400);
      case Panicked => return Panicking;
      case Parsed(m) =>
        var result := Enrich(SHIPPED, InputOf(m.fields));
        var bundleId := BundleId(req.stamp, req.nonce);
        var td := AssembleData(m.fields, result, bundleId, req.dateTime, req.date);
        if !WellFormed(td) {
          return Refused(422);
        }
        var complaint := ValidateNative(Decode(td), o.isDateTime);
        if complaint.Some? {
          return Refused(422);
        }
        return Ready(Prepared(bundleId, EncodeHex(o.c.H(req.raw)), EncodeHex(o.c.H(o.render(td)))));
    }
  }

  /** The gateway with this pipeline in front of its lock and these witnesses behind it. */
  ghost function EnvOf(o: Outside, ws: seq<Node>): Env {
    Env(o.c, req => Prepare(o, req), (digest, sigs) => MayReturn(o.c, ws, digest, sigs))
  }

  lemma PipelineIsSound(o: Outside, ws: seq<Node>)
    ensures Sound(EnvOf(o, ws))
  {
    hide Prepare, MayReturn;
    forall digest: Digest ensures MayReturn(o.c, ws, digest, []) {
      SilenceIsPossible(o.c, ws, digest);
    }
    forall req | Prepare(o, req).Ready?
      ensures IsHexDigest(Prepare(o, req).p.originalHash) && IsHexDigest(Prepare(o, req).p.enrichedHash)
    {
      PreparedIsHex(o, req);
    }
  }

  lemma PreparedIsHex(o: Outside, req: Request)
    requires Prepare(o, req).Ready?
    ensures IsHexDigest(Prepare(o, req).p.originalHash) && IsHexDigest(Prepare(o, req).p.enrichedHash)
  {
    hide ParseSpec, DataOf, Acceptable, Decode;
    DigestText(o.c.H(req.raw));
    DigestText(o.c.H(o.render(DataOf(ParseSpec(req.raw).msg.fields, req))));
  }

  /** The stamps are such as the handler makes. */
  predicate Stamped(o: Outside, req: Request) {
    Stamp(req.stamp) && Stamp(req.nonce) && Stamp(req.dateTime) && Stamp(req.date) && o.isDateTime(req.dateTime)
  }

  predicate Admissible(raw: Bytes) {
    ParseSpec(raw).Parsed? && Sendable(ParseSpec(raw).msg.fields) && Printable(ParseSpec(raw).msg.fields)
  }

  /** A request reaches the lock exactly when its message parses, is sendable and is printable. */
  lemma ReadyIffAdmissible(o: Outside, req: Request)
    requires Stamped(o, req)
    ensures Prepare(o, req).Ready? <==> Admissible(req.raw)
  {
    hide ParseSpec, DataFor, Acceptable, Decode, BundleId, Sendable, Printable, Stamp;
    if ParseSpec(req.raw).Parsed? {
      AcceptedIffSendable(ParseSpec(req.raw).msg.fields, req.stamp, req.nonce, req.dateTime, req.date, o.isDateTime);
    }
  }

  /** Whatever the stamps, nothing else reaches it. */
  lemma ReadyIsAdmissible(o: Outside, req: Request)
    requires Prepare(o, req).Ready?
    ensures Admissible(req.raw)
  {
    hide ParseSpec, DataFor, Acceptable, Decode, BundleId, Sendable, Printable;
    var fields := ParseSpec(req.raw).msg.fields;
    AcceptedIsSendable(fields, BundleId(req.stamp, req.nonce), req.dateTime, req.date, o.isDateTime);
  }

  /** What the preparation answers: 400, 422, a panic, or readiness, and for which messages. */
  lemma PreparationCodes(o: Outside, req: Request)
    requires Stamped(o, req)
    ensures Prepare(o, req) == Refused(400) <==> ParseSpec(req.raw).Rejected?
    ensures Prepare(o, req) == Refused(422) <==> ParseSpec(req.raw).Parsed? && !Admissible(req.raw)
    ensures Prepare(o, req).Ready? <==> Admissible(req.raw)
    ensures Prepare(o, req) == Panicking <==>
      var h := ReadHeader(req.raw);
      h.Header? && !h.bcd && exists i: nat :: NegativePrefixAt(req.raw, h.present, h.pos, i)
    ensures Prepare(o, req) == Panicking <==> ParseSpec(req.raw).Panicked?
    ensures Prepare(o, req).Refused? ==> Prepare(o, req).code == 400 || Prepare(o, req).code == 422
  {
    hide ParseSpec, ReadHeader, NegativePrefixAt, DataFor, Acceptable, Decode, BundleId, Sendable, Printable, Stamp;
    PanicIffNegativePrefix(req.raw);
    ReadyIffAdmissible(o, req);
  }

  /** In BCD mode every field is text of hexadecimal digits, so only amount and currency matter. */
  lemma BcdIsPrintable(raw: Bytes)
    requires ParseSpec(raw).Parsed? && IsBcd(raw)
    ensures Admissible(raw) <==> Sendable(ParseSpec(raw).msg.fields)
  {
    hide ParseSpec, Sendable, Printable;
    BcdFieldsAreHex(raw);
    GraphicIsPrintable(ParseSpec(raw).msg.fields);
  }

  /** In ASCII mode a fixed field may hold any bytes, so a parsed and sendable message can still be refused. */
  lemma ControlsAreRefused(o: Outside, req: Request)
    requires req.raw == UnprintableMessage()
    ensures ParseSpec(req.raw).Parsed? && Sendable(ParseSpec(req.raw).msg.fields)
    ensures Prepare(o, req) == Refused(422)
  {
    hide ParseSpec, Encode, DataFor, Acceptable, Decode, BundleId, Sendable, Printable, Def;
    var m := Unprintable();
    UnprintableIsAscii();
    AsciiRoundTrip(m, []);
    assert Encode(m) + [] == Encode(m);
    UnprintableIsSendable();
    ControlsAreNotPrintable(m.fields);
    if Prepare(o, req).Ready? {
      ReadyIsAdmissible(o, req);
    }
  }

  /** A message whose only field is a reference number of twelve bytes 1. */
  function Unprintable(): Message {
    Message("0200", map[37 := seq(12, _ => 1 as char)])
  }

  lemma UnprintableIsAscii()
    ensures AsciiMessage(Unprintable()) && Covers(Unprintable().fields, InOrder(Unprintable().fields.Keys))
  {
    assert AllDigits("0200");
    MessageIsCovered(Unprintable());
  }

  function UnprintableMessage(): Bytes {
    UnprintableIsAscii();
    Encode(Unprintable())
  }

  lemma UnprintableIsSendable()
    ensures Sendable(Unprintable().fields)
  {
    hide TrimSpace;
    TableCodesAreSendable("404");
  }
}
