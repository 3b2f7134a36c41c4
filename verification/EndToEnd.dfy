/** The whole path: from a raw message, through any interleaving, to an auditor's verdict. */
module EndToEnd {
  import opened Option
  import opened Bytes
  import opened Iso8583
  import opened Assembler
  import opened Acceptance
  import opened Ledger
  import opened Witness
  import opened Verifier
  import opened Agreement
  import opened Gateway
  import opened Pipeline
  import opened Refinement
  import opened Faults

  /** The document made from a request that was prepared. */
  function XmlOf(o: Outside, req: Request): Bytes
    requires ParseSpec(req.raw).Parsed?
  {
    o.render(DataOf(ParseSpec(req.raw).msg.fields, req))
  }

  /** The bundle stands for this very request: its identifier, its message, and the document made from it. */
  predicate StandsFor(o: Outside, b: Bundle, req: Request) {
    && Admissible(req.raw) && b.bundleId == BundleId(req.stamp, req.nonce)
    && b.originalHash == EncodeHex(o.c.H(req.raw)) && b.enrichedHash == EncodeHex(o.c.H(XmlOf(o, req)))
  }

  lemma OwnStandsFor(o: Outside, ws: seq<Node>, req: Request, b: Bundle)
    requires Own(EnvOf(o, ws), req, b)
    ensures StandsFor(o, b, req)
  {
    hide ParseSpec, Acceptable, Decode, DataOf, BundleId, Sendable, Printable, MayReturn;
    ReadyIsAdmissible(o, req);
  }

  /**
    A 200 answer is about the message that was sent: its bundle carries the hashes of this
    handler's own message and of the document made from it.
   */
  lemma AnswerIsAboutTheRequest(o: Outside, ws: seq<Node>, rows: seq<Event>, moves: seq<Move>, h: nat)
    requires GoodLedger(EnvOf(o, ws), rows) && Run(EnvOf(o, ws), Opened(rows), moves).Some?
    requires h in Served(Abs(Run(EnvOf(o, ws), Opened(rows), moves).value))
    ensures var a := Abs(Run(EnvOf(o, ws), Opened(rows), moves).value);
      h in a.asked && StandsFor(o, a.answers[h].bundle, a.asked[h])
  {
    hide Run, Opened, Abs, Own, GoodBundle, StandsFor, MayReturn, Prepare, GoodLedger;
    PipelineIsSound(o, ws);
    var at := AnsweredExactlyOnce(EnvOf(o, ws), rows, moves, h);
    var a := Abs(Run(EnvOf(o, ws), Opened(rows), moves).value);
    OwnStandsFor(o, ws, a.asked[h], a.answers[h].bundle);
  }

  /**
    The status codes. A handler that no fault struck answers 400 for a message the parser rejects,
    nothing for one it panics on, 422 for one that parses but is not admissible, and otherwise 200,
    or 500 because its identifier is taken.
   */
  lemma StatusByMessage(o: Outside, ws: seq<Node>, rows: seq<Event>, moves: seq<Move>, h: nat)
    requires GoodLedger(EnvOf(o, ws), rows) && Run(EnvOf(o, ws), Opened(rows), moves).Some? && Spared(moves, h)
    requires var a := Abs(Run(EnvOf(o, ws), Opened(rows), moves).value);
      h in a.answers && h in a.asked && Stamped(o, a.asked[h])
    ensures var a := Abs(Run(EnvOf(o, ws), Opened(rows), moves).value);
      var raw, answer := a.asked[h].raw, a.answers[h];
      && (ParseSpec(raw).Rejected? <==> answer == Failure(400, Unprepared))
      && (ParseSpec(raw).Panicked? <==> answer == Aborted)
      && (ParseSpec(raw).Parsed? && !Admissible(raw) <==> answer == Failure(422, Unprepared))
      && (Admissible(raw) <==> answer.Ok? || answer == Failure(500, KnownId))
  {
    hide Run, Opened, Abs, GoodLedger, Spared, ParseSpec, Sendable, Printable, Stamped, Own, HasId, MayReturn, Prepare;
    PipelineIsSound(o, ws);
    SparedIsDeserved(EnvOf(o, ws), rows, moves, h);
    PreparationCodes(o, Abs(Run(EnvOf(o, ws), Opened(rows), moves).value).asked[h]);
  }

  /** The digest a bundle's witnesses were asked to sign. */
  function DigestOf(o: Outside, b: Bundle): Digest {
    CoordinationHash(o.c.H, b.originalHash, b.enrichedHash, b.prevChainHash)
  }

  /**
    In every reachable ledger, every row added since it was opened is the 200 answer of one
    handler and stands for the message that handler was sent; and an auditor who holds that
    message, its document and the witnesses' keys gets the verdict the gateway recorded. When
    that is a quorum, two different witnesses signed.
   */
  lemma AuditorAgrees(o: Outside, ws: seq<Node>, strict64: Bytes -> Option<Bytes>, rows: seq<Event>, moves: seq<Move>,
                      i: nat, dir: seq<Bytes>) returns (h: nat, who: seq<nat>)
    requires Lawful(o.c) && KeysPresent(o.c, dir, ws)
    requires GoodLedger(EnvOf(o, ws), rows) && Run(EnvOf(o, ws), Opened(rows), moves).Some?
    requires |rows| <= i < |Run(EnvOf(o, ws), Opened(rows), moves).value.rows|
    ensures var a := Abs(Run(EnvOf(o, ws), Opened(rows), moves).value);
      && a.ledger == Run(EnvOf(o, ws), Opened(rows), moves).value.rows && Backs(EnvOf(o, ws), a, i, h)
      && Audited(o, ws, strict64, a.answers[h].bundle, a.asked[h], dir, who)
  {
    hide Run, Opened, Abs, Own, GoodBundle, StandsFor, MayReturn, Prepare, GoodLedger, Lawful, KeysPresent, Audited;
    PipelineIsSound(o, ws);
    h := RowsAreAnswers(EnvOf(o, ws), rows, moves, i);
    var a := Abs(Run(EnvOf(o, ws), Opened(rows), moves).value);
    who := BundleAudited(o, ws, strict64, a.answers[h].bundle, a.asked[h], dir);
  }

  /** What an auditor finds: honest entries, the recorded verdict, and two signers behind a quorum. */
  ghost predicate Audited(o: Outside, ws: seq<Node>, strict64: Bytes -> Option<Bytes>, b: Bundle, req: Request,
                          dir: seq<Bytes>, who: seq<nat>) {
    && StandsFor(o, b, req) && HonestEntries(o.c, b.signatures, ws, DigestOf(o, b), who)
    && VerdictOf(o.c, strict64, b, dir, Some(req.raw), Some(XmlOf(o, req))) == (if b.quorumMet then Valid else Invalid)
    && (b.quorumMet ==> |who| >= 2 && ws[who[0]].pub != ws[who[1]].pub)
  }

  lemma BundleAudited(o: Outside, ws: seq<Node>, strict64: Bytes -> Option<Bytes>, b: Bundle, req: Request,
                      dir: seq<Bytes>) returns (who: seq<nat>)
    requires Lawful(o.c) && KeysPresent(o.c, dir, ws)
    requires Own(EnvOf(o, ws), req, b) && GoodBundle(EnvOf(o, ws), b, b.prevChainHash)
    ensures Audited(o, ws, strict64, b, req, dir, who)
  {
    hide Lawful, KeysPresent, VerdictOf, ParseSpec, MayReturn, XmlOf, BundleId, Sendable, Printable, HonestEntries, Own,
      BundleOf;
    OwnStandsFor(o, ws, req, b);
    who := ReturnedAreHonest(o.c, ws, DigestOf(o, b), b.signatures);
    BundleVerdict(o.c, strict64, b, dir, ws, who, req.raw, XmlOf(o, req));
  }

  lemma BundleVerdict(c: Suite, strict64: Bytes -> Option<Bytes>, b: Bundle, dir: seq<Bytes>, ws: seq<Node>,
                      who: seq<nat>, raw: Bytes, xml: Bytes)
    requires Lawful(c) && KeysPresent(c, dir, ws)
    requires b.originalHash == EncodeHex(c.H(raw)) && b.enrichedHash == EncodeHex(c.H(xml))
    requires Linked(c.H, EventOf(b), b.prevChainHash)
    requires b == BundleOf(c, b.bundleId, b.originalHash, b.enrichedHash, b.prevChainHash, b.signatures)
    requires HonestEntries(c, b.signatures, ws,
                           CoordinationHash(c.H, b.originalHash, b.enrichedHash, b.prevChainHash), who)
    ensures VerdictOf(c, strict64, b, dir, Some(raw), Some(xml)) == (if b.quorumMet then Valid else Invalid)
    ensures b.quorumMet ==> |who| >= 2 && who[0] < |ws| && who[1] < |ws| && ws[who[0]].pub != ws[who[1]].pub
  {
    hide Lawful, KeysPresent, VerdictOf, CoordinationHash;
    VerifierAgrees(c, strict64, b, dir, ws, who, Some(raw), Some(xml));
  }

  // ------------------------------------------------ one request on its own

  lemma RunCons(env: Env, s: State, m: Move, rest: seq<Move>)
    requires Step(env, s, m).Some?
    ensures Run(env, s, [m] + rest) == Run(env, Step(env, s, m).value, rest)
  {
    hide Step;
    assert ([m] + rest)[1..] == rest;
  }

  /** The moves of a handler that meets no fault, from the lock to its release. */
  function Faultless(h: nat, sigs: seq<SignatureEntry>): seq<Move> {
    [Move(h, Lock)] + ([Move(h, ReadHead)] + ([Move(h, ComputeHash)] + ([Move(h, CollectSigs(sigs))]
    + ([Move(h, Marshal)] + ([Move(h, InsertRow)] + ([Move(h, Respond)] + [Move(h, Unlock)]))))))
  }

  /** The state s with one handler, the ledger and the mutex moved on. */
  function At(s: State, rows: seq<Event>, mutex: Option<nat>, h: nat, pc: Pc): State {
    s.(rows := rows, mutex := mutex, handlers := s.handlers[h := pc])
  }

  /** With the lock free and a fresh identifier, a handler left alone appends its row and answers 200. */
  lemma FaultlessRun(env: Env, s: State, h: nat, p: Prepared, sigs: seq<SignatureEntry>)
    requires s.mutex.None? && h in s.asked && h in s.handlers && s.handlers[h] == Waiting(p)
    requires !HasId(s.rows, p.bundleId)
    requires env.collect(CoordinationHash(env.c.H, p.originalHash, p.enrichedHash, Head(s.rows)), sigs)
    ensures var b := BundleOf(env.c, p.bundleId, p.originalHash, p.enrichedHash, Head(s.rows), sigs);
      Run(env, s, Faultless(h, sigs)) == Some(At(s, s.rows + [EventOf(b)], None, h, Finished(Ok(b))))
  {
    hide HasId, Head, CoordinationHash, Run, Step, EventOf, At;
    var prev := Head(s.rows);
    var digest := CoordinationHash(env.c.H, p.originalHash, p.enrichedHash, prev);
    var b := BundleOf(env.c, p.bundleId, p.originalHash, p.enrichedHash, prev, sigs);
    var rows' := s.rows + [EventOf(b)];
    LockMove(env, s, h, p);
    InsideMove(env, s, s.rows, h, Locked(p), ReadHead, HaveHead(p, prev), s.rows);
    InsideMove(env, s, s.rows, h, HaveHead(p, prev), ComputeHash, Hashed(p, prev, digest), s.rows);
    InsideMove(env, s, s.rows, h, Hashed(p, prev, digest), CollectSigs(sigs), Signed(b), s.rows);
    InsideMove(env, s, s.rows, h, Signed(b), Marshal, Marshalled(b), s.rows);
    InsideMove(env, s, s.rows, h, Marshalled(b), InsertRow, Stored(b), rows');
    InsideMove(env, s, rows', h, Stored(b), Respond, Leaving(Ok(b)), rows');
    UnlockMove(env, s, rows', h, Ok(b));
  }

  /** The moves of a request that meets no fault, from its arrival on. */
  function WholeService(h: nat, req: Request, sigs: seq<SignatureEntry>): seq<Move> {
    [Move(h, Arrive(req))] + ([Move(h, Work)] + Faultless(h, sigs))
  }

  lemma ArrivalMoves(env: Env, s: State, h: nat, req: Request, p: Prepared)
    requires h !in s.asked && h !in s.handlers && env.prepare(req) == Ready(p)
    ensures var t := s.(asked := s.asked[h := req], handlers := s.handlers[h := Waiting(p)]);
      forall rest :: Run(env, s, [Move(h, Arrive(req))] + ([Move(h, Work)] + rest)) == Run(env, t, rest)
  {
    hide StepInside, Run;
    var t := s.(asked := s.asked[h := req], handlers := s.handlers[h := Arrived]);
    var u := s.(asked := s.asked[h := req], handlers := s.handlers[h := Waiting(p)]);
    assert s.handlers[h := Arrived][h := Waiting(p)] == s.handlers[h := Waiting(p)];
    OneMove(env, s, Move(h, Arrive(req)), t);
    OneMove(env, t, Move(h, Work), u);
  }

  /**
    Every admissible message can be served: with the lock free and its identifier fresh, a new
    handler that meets no fault runs from arrival to a 200 answer and its row is appended, linked
    to the head and carrying the hashes of that message and of the document made from it.
   */
  lemma AdmissibleIsServed(o: Outside, ws: seq<Node>, s: State, h: nat, req: Request, sigs: seq<SignatureEntry>)
    requires s.mutex.None? && h !in s.asked && h !in s.handlers
    requires Stamped(o, req) && Admissible(req.raw) && !HasId(s.rows, BundleId(req.stamp, req.nonce))
    requires var original, enriched := EncodeHex(o.c.H(req.raw)), EncodeHex(o.c.H(XmlOf(o, req)));
      MayReturn(o.c, ws, CoordinationHash(o.c.H, original, enriched, Head(s.rows)), sigs)
    ensures var original, enriched := EncodeHex(o.c.H(req.raw)), EncodeHex(o.c.H(XmlOf(o, req)));
      var b := BundleOf(o.c, BundleId(req.stamp, req.nonce), original, enriched, Head(s.rows), sigs);
      Run(EnvOf(o, ws), s, WholeService(h, req, sigs))
      == Some(State(s.rows + [EventOf(b)], None, s.asked[h := req], s.handlers[h := Finished(Ok(b))]))
  {
    hide ParseSpec, Acceptable, Decode, DataOf, BundleId, Sendable, Printable, MayReturn, Run, HasId, Head, Stamped,
      CoordinationHash, EventOf, BundleOf, Faultless;
    var env := EnvOf(o, ws);
    var p := Prepared(BundleId(req.stamp, req.nonce), EncodeHex(o.c.H(req.raw)), EncodeHex(o.c.H(XmlOf(o, req))));
    ReadyIffAdmissible(o, req);
    assert Prepare(o, req) == Ready(p);
    hide Prepare;
    var t := s.(asked := s.asked[h := req], handlers := s.handlers[h := Waiting(p)]);
    ArrivalMoves(env, s, h, req, p);
    FaultlessRun(env, t, h, p, sigs);
    var b := BundleOf(o.c, p.bundleId, p.originalHash, p.enrichedHash, Head(s.rows), sigs);
    assert t.handlers[h := Finished(Ok(b))] == s.handlers[h := Finished(Ok(b))];
  }

  lemma LockMove(env: Env, s: State, h: nat, p: Prepared)
    requires s.mutex.None? && h in s.asked && h in s.handlers && s.handlers[h] == Waiting(p)
    ensures forall rest :: Run(env, s, [Move(h, Lock)] + rest) == Run(env, At(s, s.rows, Some(h), h, Locked(p)), rest)
  {
    OneMove(env, s, Move(h, Lock), At(s, s.rows, Some(h), h, Locked(p)));
  }

  lemma InsideMove(env: Env, s: State, rows: seq<Event>, h: nat, pc: Pc, act: Act, pc': Pc, rows': seq<Event>)
    requires h in s.asked && InLock(pc) && !act.Arrive? && !act.Lock? && !act.Unlock?
    requires StepInside(env, rows, pc, act) == To(pc', rows')
    ensures forall rest ::
      Run(env, At(s, rows, Some(h), h, pc), [Move(h, act)] + rest) == Run(env, At(s, rows', Some(h), h, pc'), rest)
  {
    hide StepInside, StepOutside, Run;
    assert s.handlers[h := pc][h := pc'] == s.handlers[h := pc'];
    OneMove(env, At(s, rows, Some(h), h, pc), Move(h, act), At(s, rows', Some(h), h, pc'));
  }

  lemma UnlockMove(env: Env, s: State, rows: seq<Event>, h: nat, r: Response)
    requires h in s.asked
    ensures Run(env, At(s, rows, Some(h), h, Leaving(r)), [Move(h, Unlock)])
      == Some(At(s, rows, None, h, Finished(r)))
  {
    hide StepInside, StepOutside, Run;
    assert s.handlers[h := Leaving(r)][h := Finished(r)] == s.handlers[h := Finished(r)];
    RunLast(env, At(s, rows, Some(h), h, Leaving(r)), Move(h, Unlock));
  }

  lemma OneMove(env: Env, s: State, m: Move, t: State)
    requires Step(env, s, m) == Some(t)
    ensures forall rest :: Run(env, s, [m] + rest) == Run(env, t, rest)
  {
    hide Step;
    forall rest ensures Run(env, s, [m] + rest) == Run(env, t, rest) {
      RunCons(env, s, m, rest);
    }
  }

  lemma RunLast(env: Env, s: State, m: Move)
    requires Step(env, s, m).Some?
    ensures Run(env, s, [m]) == Step(env, s, m)
  {
    hide Step;
    RunCons(env, s, m, []);
    assert [m] + [] == [m];
  }
}
