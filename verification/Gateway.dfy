/**
  The gateway: any number of requests in flight, one mutex, one ledger. Each request is
  parsed, enriched, assembled and hashed outside the lock; inside it the head is read, the
  bundle is made and the row is inserted, synchronously, before the answer is written.
 */
module Gateway {
  import opened Option
  import opened Bytes
  import opened Ledger
  import opened Storage
  import opened Witness
  import opened Agreement

  // ------------------------------------------------------- outside the lock

  /** A request body, decoded, with the stamps the handler adds while it works. */
  datatype Request = Request(raw: Bytes, stamp: string, nonce: string, dateTime: string, date: string)

  datatype Prepared = Prepared(bundleId: string, originalHash: string, enrichedHash: string)

  /** The outcome of parsing, enriching, assembling, validating and hashing. */
  datatype Preparation = Ready(p: Prepared) | Refused(code: int) | Panicking

  /**
    Cryptography, the work done before the lock, and what collecting signatures over a digest
    may return; module Pipeline supplies the last two.
   */
  datatype Env = Env(c: Suite, prepare: Request -> Preparation, collect: (Digest, seq<SignatureEntry>) -> bool)

  /** The two payload hashes are the hexadecimal text of digests, and witnesses may be silent. */
  ghost predicate Sound(env: Env) {
    && (forall digest :: env.collect(digest, []))
    && forall req :: env.prepare(req).Ready? ==>
      IsHexDigest(env.prepare(req).p.originalHash) && IsHexDigest(env.prepare(req).p.enrichedHash)
  }

  // ------------------------------------------------------------ the handlers

  /** What may break without the message being to blame; the first four before the lock. */
  datatype Fault = NotPost | UnreadableBody | NotBase64 | NoRandomness | NoHead | NoJson | NoInsert

  predicate Early(f: Fault) {
    f.NotPost? || f.UnreadableBody? || f.NotBase64? || f.NoRandomness?
  }

  function CodeOf(f: Fault): int {
    match f
    case NotPost => 405
    case UnreadableBody => 400
    case NotBase64 => 400
    case _ => 500
  }

  /** Why a request failed: its preparation refused it, its identifier is taken, or something broke. */
  datatype Reason = Unprepared | KnownId | Broken(fault: Fault)

  /** Aborted: the handler panicked and the connection was dropped. */
  datatype Response = Ok(bundle: Bundle) | Failure(code: int, reason: Reason) | Aborted

  function Broke(f: Fault): Response {
    Failure(CodeOf(f), Broken(f))
  }

  /** Where one handler stands; everything from Locked to Leaving is inside the lock. */
  datatype Pc =
    | Arrived
    | Waiting(p: Prepared)
    | Locked(p: Prepared)
    | HaveHead(p: Prepared, prev: string)
    | Hashed(p: Prepared, prev: string, digest: Digest)
    | Signed(b: Bundle)
    | Marshalled(b: Bundle)
    | Stored(b: Bundle)
    | Leaving(r: Response)
    | Finished(r: Response)

  predicate InLock(pc: Pc) {
    !pc.Arrived? && !pc.Waiting? && !pc.Finished?
  }

  /** One step of a handler, with every error exit the source has. */
  datatype Act =
    | Arrive(req: Request) | GiveUp(fault: Fault) | Work
    | Lock
    | ReadHead | ReadFault | ComputeHash | CollectSigs(sigs: seq<SignatureEntry>)
    | Marshal | MarshalFault | InsertRow | InsertFault | Respond
    | Unlock

  datatype Move = Move(h: nat, act: Act)

  /** `asked` is what each handler was asked; it is written on arrival and never again. */
  datatype State = State(rows: seq<Event>, mutex: Option<nat>, asked: map<nat, Request>, handlers: map<nat, Pc>)

  datatype Advance = Stuck | To(pc: Pc, rows: seq<Event>)

  /** A step outside the lock: the request is dropped early, or prepared. */
  function StepOutside(env: Env, req: Request, rows: seq<Event>, pc: Pc, act: Act): Advance {
    match (pc, act)
    case (Arrived, GiveUp(fault)) => if Early(fault) then To(Finished(Broke(fault)), rows) else Stuck
    case (Arrived, Work) =>
      (match env.prepare(req)
       case Ready(p) => To(Waiting(p), rows)
       case Refused(code) => To(Finished(Failure(code, Unprepared)), rows)
       case Panicking => To(Finished(Aborted), rows))
    case _ => Stuck
  }

  function SealedBundle(p: Prepared, prev: string, digest: Digest, sigs: seq<SignatureEntry>): Bundle {
    Bundle(p.bundleId, p.originalHash, p.enrichedHash, prev, EncodeHex(digest), sigs, |sigs| >= 2)
  }

  /** A step inside the lock. */
  function StepInside(env: Env, rows: seq<Event>, pc: Pc, act: Act): Advance {
    match (pc, act)
    case (Locked(p), ReadHead) => To(HaveHead(p, Head(rows)), rows)
    case (Locked(_), ReadFault) => To(Leaving(Broke(NoHead)), rows)
    case (HaveHead(p, prev), ComputeHash) =>
      To(Hashed(p, prev, CoordinationHash(env.c.H, p.originalHash, p.enrichedHash, prev)), rows)
    case (Hashed(p, prev, digest), CollectSigs(sigs)) =>
      if !env.collect(digest, sigs) then Stuck
      else To(Signed(SealedBundle(p, prev, digest, sigs)), rows)
    case (Signed(b), Marshal) => To(Marshalled(b), rows)
    case (Signed(_), MarshalFault) => To(Leaving(Broke(NoJson)), rows)
    case (Marshalled(b), InsertRow) =>
      if HasId(rows, b.bundleId) then To(Leaving(Failure(500, KnownId)), rows) else To(Stored(b), rows + [EventOf(b)])
    case (Marshalled(_), InsertFault) => To(Leaving(Broke(NoInsert)), rows)
    case (Stored(b), Respond) => To(Leaving(Ok(b)), rows)
    case _ => Stuck
  }

  /** A move of the whole system; None when it is not enabled. */
  function Step(env: Env, s: State, m: Move): Option<State> {
    if m.act.Arrive? then
      if m.h in s.asked || m.h in s.handlers then None
      else Some(s.(asked := s.asked[m.h := m.act.req], handlers := s.handlers[m.h := Arrived]))
    else if m.h !in s.asked || m.h !in s.handlers then None
    else
      var pc := s.handlers[m.h];
      if m.act.Lock? then
        if pc.Waiting? && s.mutex.None? then Some(s.(mutex := Some(m.h), handlers := s.handlers[m.h := Locked(pc.p)]))
        else None
      else if m.act.Unlock? then
        if pc.Leaving? then Some(s.(mutex := None, handlers := s.handlers[m.h := Finished(pc.r)])) else None
      else
        match if InLock(pc) then StepInside(env, s.rows, pc, m.act)
              else StepOutside(env, s.asked[m.h], s.rows, pc, m.act)
        case Stuck => None
        case To(pc', rows') => Some(s.(rows := rows', handlers := s.handlers[m.h := pc']))
  }

  /** Any interleaving: a schedule of moves. */
  function Run(env: Env, s: State, moves: seq<Move>): Option<State>
    decreases |moves|
  {
    if moves == [] then Some(s)
    else
      match Step(env, s, moves[0])
      case None => None
      case Some(t) => Run(env, t, moves[1..])
  }

  // --------------------------------------------------------------- invariant

  /** The bundle was made the gateway's way, links to prev, and carries what was collected for it. */
  predicate GoodBundle(env: Env, b: Bundle, prev: string) {
    && b == BundleOf(env.c, b.bundleId, b.originalHash, b.enrichedHash, b.prevChainHash, b.signatures)
    && Linked(env.c.H, EventOf(b), prev)
    && env.collect(CoordinationHash(env.c.H, b.originalHash, b.enrichedHash, b.prevChainHash), b.signatures)
  }

  /** The bundle is the request's own: identifier and hashes are those it was prepared to. */
  predicate Own(env: Env, req: Request, b: Bundle) {
    env.prepare(req) == Ready(Prepared(b.bundleId, b.originalHash, b.enrichedHash))
  }

  /** What a gateway expects of the ledger it opens, and keeps. */
  predicate GoodLedger(env: Env, rows: seq<Event>) {
    ValidChain(env.c.H, rows) && UniqueIds(rows)
  }

  /** What a handler that was asked req and is still undecided knows. */
  predicate GoodPc(env: Env, rows: seq<Event>, req: Request, pc: Pc) {
    match pc
    case Waiting(p) => env.prepare(req) == Ready(p)
    case Locked(p) => env.prepare(req) == Ready(p)
    case HaveHead(p, prev) => env.prepare(req) == Ready(p) && prev == Head(rows)
    case Hashed(p, prev, digest) =>
      && env.prepare(req) == Ready(p) && prev == Head(rows)
      && digest == CoordinationHash(env.c.H, p.originalHash, p.enrichedHash, prev)
    case Signed(b) => Own(env, req, b) && GoodBundle(env, b, Head(rows))
    case Marshalled(b) => Own(env, req, b) && GoodBundle(env, b, Head(rows))
    case _ => true
  }

  /** The mutex is held by exactly the one handler that is between lock and exit. */
  predicate MutexOk(s: State) {
    && (s.mutex.Some? ==> s.mutex.value in s.handlers)
    && forall h :: h in s.handlers ==> (InLock(s.handlers[h]) <==> s.mutex == Some(h))
  }

  predicate HandlersOk(env: Env, s: State) {
    s.handlers.Keys == s.asked.Keys && forall h :: h in s.handlers ==> GoodPc(env, s.rows, s.asked[h], s.handlers[h])
  }

  predicate Inv(env: Env, s: State) {
    GoodLedger(env, s.rows) && MutexOk(s) && HandlersOk(env, s)
  }

  /** A gateway that has just opened a ledger. */
  function Opened(rows: seq<Event>): State {
    State(rows, None, map[], map[])
  }

  lemma OutsideGood(env: Env, req: Request, rows: seq<Event>, pc: Pc, act: Act)
    requires !InLock(pc) && StepOutside(env, req, rows, pc, act).To?
    ensures var a := StepOutside(env, req, rows, pc, act);
      a.rows == rows && !InLock(a.pc) && GoodPc(env, rows, req, a.pc)
  {
  }

  /** What a handler outside the lock knows does not depend on the ledger. */
  lemma OthersStayGood(env: Env, rows: seq<Event>, more: seq<Event>, req: Request, pc: Pc)
    requires !InLock(pc) && GoodPc(env, rows, req, pc)
    ensures GoodPc(env, more, req, pc)
  {
  }

  lemma SignedGood(env: Env, rows: seq<Event>, req: Request, p: Prepared, prev: string, digest: Digest,
                   sigs: seq<SignatureEntry>)
    requires Sound(env) && GoodLedger(env, rows) && GoodPc(env, rows, req, Hashed(p, prev, digest))
    requires env.collect(digest, sigs)
    ensures GoodPc(env, rows, req, Signed(SealedBundle(p, prev, digest, sigs)))
  {
    hide Head, IsHexDigest, CoordinationHash;
    HeadIsHex(env.c.H, rows);
  }

  lemma InsertGood(env: Env, rows: seq<Event>, b: Bundle)
    requires GoodLedger(env, rows) && GoodBundle(env, b, Head(rows)) && !HasId(rows, b.bundleId)
    ensures GoodLedger(env, rows + [EventOf(b)])
  {
    hide Head, ValidChain, UniqueIds, BundleOf, HasId;
    AppendKeepsChain(env.c.H, rows, EventOf(b));
    InsertKeepsIdsUnique(rows, EventOf(b));
  }

  lemma InsideGood(env: Env, req: Request, rows: seq<Event>, pc: Pc, act: Act)
    requires Sound(env) && GoodLedger(env, rows) && InLock(pc) && GoodPc(env, rows, req, pc)
    requires StepInside(env, rows, pc, act).To?
    ensures var a := StepInside(env, rows, pc, act);
      InLock(a.pc) && rows <= a.rows && GoodLedger(env, a.rows) && GoodPc(env, a.rows, req, a.pc)
  {
    hide Head, GoodBundle, GoodLedger, CoordinationHash, HasId, Sound, Own;
    match (pc, act) {
      case (Hashed(p, prev, digest), CollectSigs(sigs)) =>
        if env.collect(digest, sigs) {
          SignedGood(env, rows, req, p, prev, digest, sigs);
        }
      case (Marshalled(b), InsertRow) =>
        if !HasId(rows, b.bundleId) {
          InsertGood(env, rows, b);
        }
      case _ =>
    }
  }

  lemma StepMutex(env: Env, s: State, m: Move)
    requires Sound(env) && Inv(env, s) && Step(env, s, m).Some?
    ensures MutexOk(Step(env, s, m).value)
  {
    hide StepInside, StepOutside, GoodLedger, GoodPc, Sound;
    if m.h in s.handlers && !m.act.Arrive? && !m.act.Lock? && !m.act.Unlock? {
      var pc := s.handlers[m.h];
      if InLock(pc) {
        InsideGood(env, s.asked[m.h], s.rows, pc, m.act);
      } else {
        OutsideGood(env, s.asked[m.h], s.rows, pc, m.act);
      }
    }
  }

  lemma StepLedger(env: Env, s: State, m: Move)
    requires Sound(env) && Inv(env, s) && Step(env, s, m).Some?
    ensures s.rows <= Step(env, s, m).value.rows && GoodLedger(env, Step(env, s, m).value.rows)
    ensures Step(env, s, m).value.rows != s.rows ==> s.mutex == Some(m.h)
    ensures var t := Step(env, s, m).value;
      m.h in t.handlers && m.h in t.asked && GoodPc(env, t.rows, t.asked[m.h], t.handlers[m.h])
  {
    hide StepInside, StepOutside, GoodLedger, GoodBundle, Sound;
    if m.h in s.handlers && !m.act.Arrive? && !m.act.Lock? && !m.act.Unlock? {
      var pc := s.handlers[m.h];
      if InLock(pc) {
        InsideGood(env, s.asked[m.h], s.rows, pc, m.act);
      } else {
        OutsideGood(env, s.asked[m.h], s.rows, pc, m.act);
      }
    }
  }

  /** A step concerns one handler; what was asked before stays as it was. */
  lemma StepFrame(env: Env, s: State, m: Move)
    requires Step(env, s, m).Some?
    ensures var t := Step(env, s, m).value;
      && t.handlers.Keys == s.handlers.Keys + {m.h}
      && (forall h :: h in s.handlers && h != m.h ==> t.handlers[h] == s.handlers[h])
      && t.asked == (if m.act.Arrive? then s.asked[m.h := m.act.req] else s.asked)
      && (m.act.Arrive? ==> m.h !in s.asked && m.h !in s.handlers)
      && (!m.act.Arrive? ==> m.h in s.asked && m.h in s.handlers)
  {
    hide StepInside, StepOutside;
  }

  lemma StepHandlers(env: Env, s: State, m: Move)
    requires Sound(env) && Inv(env, s) && Step(env, s, m).Some?
    ensures HandlersOk(env, Step(env, s, m).value)
  {
    hide Step, GoodLedger, GoodPc, Sound;
    var t := Step(env, s, m).value;
    StepLedger(env, s, m);
    StepFrame(env, s, m);
    forall h | h in t.handlers ensures GoodPc(env, t.rows, t.asked[h], t.handlers[h]) {
      if h != m.h && t.rows != s.rows {
        OthersStayGood(env, s.rows, t.rows, s.asked[h], s.handlers[h]);
      }
    }
  }

  lemma InvStep(env: Env, s: State, m: Move)
    requires Sound(env) && Inv(env, s) && Step(env, s, m).Some?
    ensures Inv(env, Step(env, s, m).value)
  {
    hide Step, Sound, GoodLedger, MutexOk, HandlersOk;
    StepMutex(env, s, m);
    StepLedger(env, s, m);
    StepHandlers(env, s, m);
  }

  /**
    Safety over every interleaving: from a good ledger, whatever handlers arrive and in
    whatever order they move and fail, the invariant holds and the ledger has only grown.
   */
  lemma {:induction false} RunIsSafe(env: Env, s: State, moves: seq<Move>)
    requires Sound(env) && Inv(env, s) && Run(env, s, moves).Some?
    ensures Inv(env, Run(env, s, moves).value) && s.rows <= Run(env, s, moves).value.rows
    decreases |moves|
  {
    hide Step, Inv, Sound;
    if moves == [] {
    } else {
      InvStep(env, s, moves[0]);
      StepGrows(env, s, moves[0]);
      RunIsSafe(env, Step(env, s, moves[0]).value, moves[1..]);
    }
  }

  lemma StepGrows(env: Env, s: State, m: Move)
    requires Sound(env) && Inv(env, s) && Step(env, s, m).Some?
    ensures s.rows <= Step(env, s, m).value.rows
  {
    StepLedger(env, s, m);
  }
}
