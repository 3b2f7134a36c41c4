/**
  Every interleaving of the gateway's handlers is an interleaving of atomic requests: each is
  asked once and then, in one step, appends its own row or fails for a stated reason.
 */
module Refinement {
  import opened Option
  import opened Bytes
  import opened Ledger
  import opened Storage
  import opened Witness
  import opened Agreement
  import opened Gateway

  // ------------------------------------------------------ the sequential spec

  /** The ledger, what each handler was asked, and the answers decided so far. */
  datatype Spec = Spec(ledger: seq<Event>, asked: map<nat, Request>, answers: map<nat, Response>)

  /** A request arrives. */
  predicate Asks(a: Spec, b: Spec, h: nat, req: Request) {
    h !in a.asked && b == a.(asked := a.asked[h := req])
  }

  /** A request appends to the head its own bundle, under a fresh identifier, and is answered with it. */
  predicate Appends(env: Env, a: Spec, b: Spec, h: nat, bundle: Bundle) {
    && h in a.asked && h !in a.answers && Own(env, a.asked[h], bundle)
    && !HasId(a.ledger, bundle.bundleId) && GoodBundle(env, bundle, Head(a.ledger))
    && b == a.(ledger := a.ledger + [EventOf(bundle)], answers := a.answers[h := Ok(bundle)])
  }

  /** A failure with a reason that holds of this request. */
  predicate Warranted(env: Env, req: Request, ledger: seq<Event>, r: Response) {
    match r
    case Ok(_) => false
    case Aborted => env.prepare(req).Panicking?
    case Failure(code, Unprepared) => env.prepare(req) == Refused(code)
    case Failure(code, KnownId) =>
      code == 500 && env.prepare(req).Ready? && HasId(ledger, env.prepare(req).p.bundleId)
    case Failure(code, Broken(fault)) => code == CodeOf(fault) && (Early(fault) || env.prepare(req).Ready?)
  }

  /** A request fails and leaves the ledger alone. */
  predicate Refuses(env: Env, a: Spec, b: Spec, h: nat, r: Response) {
    && h in a.asked && h !in a.answers && Warranted(env, a.asked[h], a.ledger, r)
    && b == a.(answers := a.answers[h := r])
  }

  ghost predicate SpecNext(env: Env, a: Spec, b: Spec) {
    || a == b
    || (exists h, req :: Asks(a, b, h, req))
    || (exists h, bundle :: Appends(env, a, b, h, bundle))
    || (exists h, r :: Refuses(env, a, b, h, r))
  }

  // ------------------------------------------------------------- abstraction

  predicate Decided(pc: Pc) {
    pc.Stored? || pc.Leaving? || pc.Finished?
  }

  function AnswerOf(pc: Pc): Response
    requires Decided(pc)
  {
    if pc.Stored? then Ok(pc.b) else pc.r
  }

  /** A request takes effect when its row is stored or its failure is settled. */
  function Abs(s: State): Spec {
    Spec(s.rows, s.asked, map h | h in s.handlers && Decided(s.handlers[h]) :: AnswerOf(s.handlers[h]))
  }

  // -------------------------------------------------------------- simulation

  /** What the step of a handler that was asked req may do to the ledger and to its own answer. */
  predicate LocalStep(env: Env, req: Request, rows: seq<Event>, pc: Pc, rows': seq<Event>, pc': Pc) {
    if Decided(pc) then rows' == rows && Decided(pc') && AnswerOf(pc') == AnswerOf(pc)
    else if !Decided(pc') then rows' == rows
    else if AnswerOf(pc').Ok? then
      var b := AnswerOf(pc').bundle;
      && rows' == rows + [EventOf(b)] && !HasId(rows, b.bundleId) && GoodBundle(env, b, Head(rows))
      && Own(env, req, b)
    else rows' == rows && Warranted(env, req, rows, AnswerOf(pc'))
  }

  lemma InsideLocal(env: Env, req: Request, rows: seq<Event>, pc: Pc, act: Act)
    requires GoodPc(env, rows, req, pc) && StepInside(env, rows, pc, act).To?
    ensures var a := StepInside(env, rows, pc, act); LocalStep(env, req, rows, pc, a.rows, a.pc)
  {
    hide GoodBundle, HasId, Head, CoordinationHash, SealedBundle;
  }

  lemma OutsideLocal(env: Env, req: Request, rows: seq<Event>, pc: Pc, act: Act)
    requires StepOutside(env, req, rows, pc, act).To?
    ensures var a := StepOutside(env, req, rows, pc, act); LocalStep(env, req, rows, pc, a.rows, a.pc)
  {
    hide GoodBundle, HasId, Head;
  }

  lemma StepLocal(env: Env, s: State, m: Move)
    requires Sound(env) && Inv(env, s) && Step(env, s, m).Some? && m.h in s.handlers
    ensures var t := Step(env, s, m).value;
      && m.h in s.asked && m.h in t.handlers
      && LocalStep(env, s.asked[m.h], s.rows, s.handlers[m.h], t.rows, t.handlers[m.h])
  {
    hide StepInside, StepOutside, GoodPc, GoodLedger, GoodBundle, HasId, MutexOk, Own, Warranted, Sound;
    var pc := s.handlers[m.h];
    if !m.act.Lock? && !m.act.Unlock? {
      if InLock(pc) {
        InsideLocal(env, s.asked[m.h], s.rows, pc, m.act);
      } else {
        OutsideLocal(env, s.asked[m.h], s.rows, pc, m.act);
      }
    }
  }

  /** A change of one handler changes one answer. */
  lemma AbsUpdate(s: State, t: State, h: nat)
    requires t.handlers.Keys == s.handlers.Keys + {h}
    requires forall k :: k in s.handlers && k != h ==> t.handlers[k] == s.handlers[k]
    ensures (h in s.handlers && Decided(s.handlers[h]) && Decided(t.handlers[h])
             && AnswerOf(s.handlers[h]) == AnswerOf(t.handlers[h])) ==> Abs(t).answers == Abs(s).answers
    ensures (h in s.handlers ==> !Decided(s.handlers[h])) && !Decided(t.handlers[h]) ==>
      Abs(t).answers == Abs(s).answers
    ensures (h in s.handlers ==> !Decided(s.handlers[h])) && Decided(t.handlers[h]) ==>
      h !in Abs(s).answers && Abs(t).answers == Abs(s).answers[h := AnswerOf(t.handlers[h])]
  {
    assert h in t.handlers;
  }

  /** Every step of the gateway is a step of the sequential spec, or invisible to it. */
  lemma StepRefines(env: Env, s: State, m: Move)
    requires Sound(env) && Inv(env, s) && Step(env, s, m).Some?
    ensures SpecNext(env, Abs(s), Abs(Step(env, s, m).value))
  {
    hide Step, Inv, Own, GoodBundle, HasId, Head, Abs, Warranted, Sound;
    var t := Step(env, s, m).value;
    StepFrame(env, s, m);
    AbsUpdate(s, t, m.h);
    AbsParts(s);
    AbsParts(t);
    if m.h !in s.handlers {
      ArrivalOnlyAsks(env, s, m);
      assert Asks(Abs(s), Abs(t), m.h, m.act.req);
    } else {
      StepLocal(env, s, m);
      var pc, pc' := s.handlers[m.h], t.handlers[m.h];
      if !Decided(pc) && Decided(pc') {
        if AnswerOf(pc').Ok? {
          assert Appends(env, Abs(s), Abs(t), m.h, AnswerOf(pc').bundle);
        } else {
          assert Refuses(env, Abs(s), Abs(t), m.h, AnswerOf(pc'));
        }
      }
    }
  }

  lemma AbsParts(s: State)
    ensures Abs(s).ledger == s.rows && Abs(s).asked == s.asked
    ensures forall h :: h in Abs(s).answers <==> h in s.handlers && Decided(s.handlers[h])
    ensures forall h :: h in Abs(s).answers ==> Abs(s).answers[h] == AnswerOf(s.handlers[h])
  {
  }

  lemma ArrivalOnlyAsks(env: Env, s: State, m: Move)
    requires Step(env, s, m).Some? && m.h !in s.handlers
    ensures m.act.Arrive? && m.h !in s.asked
    ensures m.h in Step(env, s, m).value.handlers && !Decided(Step(env, s, m).value.handlers[m.h])
    ensures Step(env, s, m).value.rows == s.rows
  {
  }

  /** The states a schedule passes through. */
  function Trace(env: Env, s: State, moves: seq<Move>): seq<State>
    requires Run(env, s, moves).Some?
    decreases |moves|
  {
    if moves == [] then [s] else [s] + Trace(env, Step(env, s, moves[0]).value, moves[1..])
  }

  lemma {:induction false} TraceStarts(env: Env, s: State, moves: seq<Move>)
    requires Run(env, s, moves).Some?
    ensures |Trace(env, s, moves)| == |moves| + 1 && Trace(env, s, moves)[0] == s
    ensures Trace(env, s, moves)[|moves|] == Run(env, s, moves).value
    decreases |moves|
  {
    hide Step;
    if moves == [] {
    } else {
      TraceStarts(env, Step(env, s, moves[0]).value, moves[1..]);
    }
  }

  /**
    Refinement of whole runs: whatever the schedule, with every error exit, the sequence of
    abstract states is a run of the sequential spec.
   */
  lemma {:induction false} RunRefines(env: Env, s: State, moves: seq<Move>)
    requires Sound(env) && Inv(env, s) && Run(env, s, moves).Some?
    ensures var t := Trace(env, s, moves);
      forall k :: 0 <= k < |t| - 1 ==> SpecNext(env, Abs(t[k]), Abs(t[k + 1]))
    decreases |moves|
  {
    hide Step, Inv, Abs, SpecNext, Sound;
    if moves == [] {
    } else {
      var next := Step(env, s, moves[0]).value;
      InvStep(env, s, moves[0]);
      StepRefines(env, s, moves[0]);
      RunRefines(env, next, moves[1..]);
      TraceStarts(env, next, moves[1..]);
      var t, u := Trace(env, s, moves), Trace(env, next, moves[1..]);
      assert t == [s] + u;
      forall k | 0 <= k < |t| - 1 ensures SpecNext(env, Abs(t[k]), Abs(t[k + 1])) {
        if k > 0 {
          assert t[k] == u[k - 1] && t[k + 1] == u[k];
        }
      }
    }
  }

  // --------------------------------------------------- what the spec accounts for

  /** Row i is the bundle that h was answered with, and it is h's own. */
  predicate Backs(env: Env, a: Spec, i: nat, h: nat) {
    && i < |a.ledger| && h in a.asked && h in a.answers && a.answers[h].Ok?
    && var b := a.answers[h].bundle;
       a.ledger[i] == EventOf(b) && Own(env, a.asked[h], b) && GoodBundle(env, b, b.prevChainHash)
  }

  function Served(a: Spec): set<nat> {
    set h | h in a.answers && a.answers[h].Ok?
  }

  ghost predicate RowAnswered(env: Env, a: Spec, i: nat) {
    exists h :: Backs(env, a, i, h)
  }

  ghost predicate AnswerBacked(env: Env, start: nat, a: Spec, h: nat) {
    exists i: nat :: start <= i && Backs(env, a, i, h)
  }

  /** Every row from `start` on was somebody's answer, and every 200 answer is such a row. */
  ghost predicate RowsAnswered(env: Env, start: nat, a: Spec) {
    && (forall i: nat :: start <= i < |a.ledger| ==> RowAnswered(env, a, i))
    && (forall h :: h in Served(a) ==> AnswerBacked(env, start, a, h))
  }

  predicate FailuresWarranted(env: Env, a: Spec) {
    forall h :: h in a.answers && !a.answers[h].Ok? ==>
      h in a.asked && Warranted(env, a.asked[h], a.ledger, a.answers[h])
  }

  /** No bundle is answered twice. */
  predicate DistinctAnswers(a: Spec) {
    forall h, k :: h in Served(a) && k in Served(a) && h != k ==>
      a.answers[h].bundle.bundleId != a.answers[k].bundle.bundleId
  }

  /** The account of everything that happened since the ledger `base` was opened. */
  ghost predicate Accounted(env: Env, base: seq<Event>, a: Spec) {
    && GoodLedger(env, a.ledger) && base <= a.ledger
    && RowsAnswered(env, |base|, a) && FailuresWarranted(env, a) && DistinctAnswers(a)
    && |a.ledger| == |base| + |Served(a)|
  }

  lemma BacksStays(env: Env, a: Spec, b: Spec, i: nat, h: nat)
    requires Backs(env, a, i, h) && a.ledger <= b.ledger
    requires h in b.asked && b.asked[h] == a.asked[h] && h in b.answers && b.answers[h] == a.answers[h]
    ensures Backs(env, b, i, h)
  {
    hide Own, GoodBundle;
  }

  lemma WarrantedStays(env: Env, req: Request, ledger: seq<Event>, more: seq<Event>, r: Response)
    requires Warranted(env, req, ledger, r) && ledger <= more
    ensures Warranted(env, req, more, r)
  {
    assert forall i :: 0 <= i < |ledger| ==> more[i] == ledger[i];
  }

  /** Nothing that was answered is touched by a step of the spec. */
  lemma StaysAnswered(env: Env, start: nat, a: Spec, b: Spec)
    requires a.ledger <= b.ledger && (forall h :: h in a.asked ==> h in b.asked && b.asked[h] == a.asked[h])
    requires forall h :: h in a.answers ==> h in b.answers && b.answers[h] == a.answers[h]
    requires RowsAnswered(env, start, a) && FailuresWarranted(env, a)
    ensures forall i: nat :: start <= i < |a.ledger| ==> RowAnswered(env, b, i)
    ensures forall h :: h in Served(a) ==> AnswerBacked(env, start, b, h)
    ensures forall h :: h in a.answers && !a.answers[h].Ok? ==>
      h in b.asked && Warranted(env, b.asked[h], b.ledger, a.answers[h])
  {
    hide Backs, Warranted;
    forall i: nat | start <= i < |a.ledger| ensures RowAnswered(env, b, i) {
      assert RowAnswered(env, a, i);
      var h :| Backs(env, a, i, h);
      BackedKnown(env, a, i, h);
      BacksStays(env, a, b, i, h);
    }
    forall h | h in Served(a) ensures AnswerBacked(env, start, b, h) {
      assert AnswerBacked(env, start, a, h);
      var i: nat :| start <= i && Backs(env, a, i, h);
      BackedKnown(env, a, i, h);
      BacksStays(env, a, b, i, h);
    }
    forall h | h in a.answers && !a.answers[h].Ok?
      ensures h in b.asked && Warranted(env, b.asked[h], b.ledger, a.answers[h])
    {
      WarrantedStays(env, a.asked[h], a.ledger, b.ledger, a.answers[h]);
    }
  }

  lemma BackedKnown(env: Env, a: Spec, i: nat, h: nat)
    requires Backs(env, a, i, h)
    ensures h in a.asked && h in a.answers
  {
    hide Own, GoodBundle;
  }

  lemma AppendAccounted(env: Env, base: seq<Event>, a: Spec, b: Spec, h: nat, bundle: Bundle)
    requires Accounted(env, base, a) && Appends(env, a, b, h, bundle)
    ensures Accounted(env, base, b)
  {
    hide Own, Backs, Warranted, HasId, GoodLedger, Head, GoodBundle, EventOf, DistinctAnswers;
    var n := |a.ledger|;
    InsertGood(env, a.ledger, bundle);
    StaysAnswered(env, |base|, a, b);
    AppendBacks(env, a, b, h, bundle);
    assert Served(b) == Served(a) + {h};
    forall i: nat | |base| <= i < |b.ledger| ensures RowAnswered(env, b, i) {
      if i == n {
        assert Backs(env, b, n, h);
      }
    }
    forall k | k in Served(b) ensures AnswerBacked(env, |base|, b, k) {
      if k == h {
        assert |base| <= n && Backs(env, b, n, h);
      }
    }
    AppendIsDistinct(env, base, a, b, h, bundle);
  }

  lemma AppendIsDistinct(env: Env, base: seq<Event>, a: Spec, b: Spec, h: nat, bundle: Bundle)
    requires RowsAnswered(env, |base|, a) && DistinctAnswers(a) && Appends(env, a, b, h, bundle)
    ensures DistinctAnswers(b)
  {
    hide Own, Backs, Head, GoodBundle;
    assert Served(b) == Served(a) + {h};
    forall k | k in Served(a) ensures a.answers[k].bundle.bundleId != bundle.bundleId {
      assert AnswerBacked(env, |base|, a, k);
      var i: nat :| Backs(env, a, i, k);
      BackedId(env, a, i, k);
    }
  }

  lemma BackedId(env: Env, a: Spec, i: nat, h: nat)
    requires Backs(env, a, i, h)
    ensures h in Served(a) && i < |a.ledger| && a.ledger[i].bundleId == a.answers[h].bundle.bundleId
  {
    hide Own, GoodBundle;
  }

  lemma AppendBacks(env: Env, a: Spec, b: Spec, h: nat, bundle: Bundle)
    requires Appends(env, a, b, h, bundle)
    ensures Backs(env, b, |a.ledger|, h)
  {
    hide Own, HasId, Head, BundleOf;
  }

  lemma RefuseAccounted(env: Env, base: seq<Event>, a: Spec, b: Spec, h: nat, r: Response)
    requires Accounted(env, base, a) && Refuses(env, a, b, h, r)
    ensures Accounted(env, base, b)
  {
    hide Backs, Warranted, GoodLedger, Served, RowsAnswered, DistinctAnswers, FailuresWarranted;
    RefuseServes(env, a, b, h, r);
    RefuseRows(env, |base|, a, b, h, r);
    RefuseFailures(env, |base|, a, b, h, r);
  }

  lemma RefuseRows(env: Env, start: nat, a: Spec, b: Spec, h: nat, r: Response)
    requires RowsAnswered(env, start, a) && FailuresWarranted(env, a) && DistinctAnswers(a)
    requires Refuses(env, a, b, h, r)
    ensures RowsAnswered(env, start, b) && DistinctAnswers(b)
  {
    hide Backs, Warranted, RowAnswered, AnswerBacked, Served, FailuresWarranted;
    RefuseServes(env, a, b, h, r);
    StaysAnswered(env, start, a, b);
  }

  lemma RefuseFailures(env: Env, start: nat, a: Spec, b: Spec, h: nat, r: Response)
    requires RowsAnswered(env, start, a) && FailuresWarranted(env, a) && Refuses(env, a, b, h, r)
    ensures FailuresWarranted(env, b)
  {
    hide Backs, Warranted, RowAnswered, AnswerBacked, Served, RowsAnswered;
    StaysAnswered(env, start, a, b);
  }

  lemma RefuseServes(env: Env, a: Spec, b: Spec, h: nat, r: Response)
    requires Refuses(env, a, b, h, r)
    ensures !r.Ok? && Served(b) == Served(a) && forall k :: k in Served(a) ==> b.answers[k] == a.answers[k]
  {
    hide HasId;
  }

  lemma AskAccounted(env: Env, base: seq<Event>, a: Spec, b: Spec, h: nat, req: Request)
    requires Accounted(env, base, a) && Asks(a, b, h, req)
    ensures Accounted(env, base, b)
  {
    hide Backs, Warranted, GoodLedger, RowAnswered, AnswerBacked, Own;
    StaysAnswered(env, |base|, a, b);
    assert Served(b) == Served(a);
  }

  /** The sequential specification keeps its account. */
  lemma SpecKeepsAccount(env: Env, base: seq<Event>, a: Spec, b: Spec)
    requires Accounted(env, base, a) && SpecNext(env, a, b)
    ensures Accounted(env, base, b)
  {
    hide Accounted, Asks, Appends, Refuses;
    if h, req :| Asks(a, b, h, req) {
      AskAccounted(env, base, a, b, h, req);
    } else if h, bundle :| Appends(env, a, b, h, bundle) {
      AppendAccounted(env, base, a, b, h, bundle);
    } else if h, r :| Refuses(env, a, b, h, r) {
      RefuseAccounted(env, base, a, b, h, r);
    }
  }

  // ------------------------------------------------------- reachable states

  lemma OpenedIsGood(env: Env, rows: seq<Event>)
    requires GoodLedger(env, rows)
    ensures Inv(env, Opened(rows)) && Accounted(env, rows, Abs(Opened(rows)))
  {
    hide GoodLedger;
    assert Served(Abs(Opened(rows))) == {};
  }

  /** By refinement, every interleaving keeps the account too. */
  lemma {:induction false} RunKeepsAccount(env: Env, base: seq<Event>, s: State, moves: seq<Move>)
    requires Sound(env) && Inv(env, s) && Accounted(env, base, Abs(s)) && Run(env, s, moves).Some?
    ensures Inv(env, Run(env, s, moves).value) && Accounted(env, base, Abs(Run(env, s, moves).value))
    decreases |moves|
  {
    hide Step, Inv, Abs, SpecNext, Sound, Accounted;
    if moves == [] {
    } else {
      var next := Step(env, s, moves[0]).value;
      InvStep(env, s, moves[0]);
      StepRefines(env, s, moves[0]);
      SpecKeepsAccount(env, base, Abs(s), Abs(next));
      RunKeepsAccount(env, base, next, moves[1..]);
    }
  }

  lemma ReachedIsAccounted(env: Env, rows: seq<Event>, moves: seq<Move>)
    requires Sound(env) && GoodLedger(env, rows) && Run(env, Opened(rows), moves).Some?
    ensures Inv(env, Run(env, Opened(rows), moves).value)
    ensures Accounted(env, rows, Abs(Run(env, Opened(rows), moves).value))
  {
    hide GoodLedger, Run, Opened, Accounted, Inv, Abs, Sound;
    OpenedIsGood(env, rows);
    RunKeepsAccount(env, rows, Opened(rows), moves);
  }

  /**
    In every reachable state the chain is linked from the genesis hash on, each chain hash is
    the hash of 96 bytes, identifiers are unique, and the ledger extends the one opened.
   */
  lemma ReachableLedger(env: Env, rows: seq<Event>, moves: seq<Move>)
    requires Sound(env) && ValidChain(env.c.H, rows) && UniqueIds(rows) && Run(env, Opened(rows), moves).Some?
    ensures var L := Run(env, Opened(rows), moves).value.rows;
      && rows <= L && UniqueIds(L)
      && (L != [] ==> L[0].prevChainHash == Genesis())
      && (forall i :: 0 < i < |L| ==> L[i].prevChainHash == L[i - 1].chainHash)
      && (forall i :: 0 <= i < |L| ==>
            |RowPreimage(L[i])| == 96 && L[i].chainHash == EncodeHex(env.c.H(RowPreimage(L[i]))))
  {
    hide Step, Run, RowPreimage, Linked, Head, Genesis, HandlersOk, MutexOk, UniqueIds, Sound, RowsAnswered,
      FailuresWarranted;
    ReachedIsAccounted(env, rows, moves);
    AbsParts(Run(env, Opened(rows), moves).value);
    var L := Run(env, Opened(rows), moves).value.rows;
    LedgerLinks(env.c.H, L);
    forall i | 0 <= i < |L|
      ensures |RowPreimage(L[i])| == 96 && L[i].chainHash == EncodeHex(env.c.H(RowPreimage(L[i])))
    {
      LinkedPreimage(env.c.H, L[i], Head(L[..i]));
    }
  }

  lemma LedgerLinks(H: Hash, L: seq<Event>)
    requires ValidChain(H, L)
    ensures L != [] ==> L[0].prevChainHash == Genesis()
    ensures forall i :: 0 < i < |L| ==> L[i].prevChainHash == L[i - 1].chainHash
  {
    hide IsHexDigest, CoordinationHash, Genesis;
    if L != [] {
      assert Linked(H, L[0], Head(L[..0]));
    }
    forall i | 0 < i < |L| ensures L[i].prevChainHash == L[i - 1].chainHash {
      assert Linked(H, L[i], Head(L[..i]));
      assert L[..i][i - 1] == L[i - 1];
    }
  }

  /**
    Every bundle answered with 200 is the answered request's own, and sits in the ledger at
    exactly one place, among the rows added since it was opened.
   */
  lemma AnsweredExactlyOnce(env: Env, rows: seq<Event>, moves: seq<Move>, h: nat) returns (at: nat)
    requires Sound(env) && GoodLedger(env, rows) && Run(env, Opened(rows), moves).Some?
    requires h in Served(Abs(Run(env, Opened(rows), moves).value))
    ensures var a := Abs(Run(env, Opened(rows), moves).value);
      && |rows| <= at && Backs(env, a, at, h)
      && forall i :: 0 <= i < |a.ledger| && a.ledger[i].bundleId == a.answers[h].bundle.bundleId ==> i == at
  {
    hide Run, Opened, Abs, Inv, Sound, ValidChain, Own, GoodBundle, FailuresWarranted, EventOf;
    ReachedIsAccounted(env, rows, moves);
    var a := Abs(Run(env, Opened(rows), moves).value);
    assert AnswerBacked(env, |rows|, a, h);
    at :| |rows| <= at && Backs(env, a, at, h);
    EventIds(a.answers[h].bundle);
  }

  lemma EventIds(b: Bundle)
    ensures EventOf(b).bundleId == b.bundleId && EventOf(b).bundle == b
  {
  }

  /**
    Conservation: every row added since the ledger was opened is the 200 answer of exactly one
    handler, so there are as many new rows as such answers.
   */
  lemma RowsAreAnswers(env: Env, rows: seq<Event>, moves: seq<Move>, i: nat) returns (h: nat)
    requires Sound(env) && GoodLedger(env, rows) && Run(env, Opened(rows), moves).Some?
    requires |rows| <= i < |Run(env, Opened(rows), moves).value.rows|
    ensures var a := Abs(Run(env, Opened(rows), moves).value);
      && a.ledger == Run(env, Opened(rows), moves).value.rows && |a.ledger| == |rows| + |Served(a)|
      && Backs(env, a, i, h) && forall k :: Backs(env, a, i, k) ==> k == h
  {
    hide Run, Opened, Inv, Sound, GoodLedger, FailuresWarranted, Backs, Abs;
    ReachedIsAccounted(env, rows, moves);
    var s := Run(env, Opened(rows), moves).value;
    AbsParts(s);
    assert RowAnswered(env, Abs(s), i);
    h :| Backs(env, Abs(s), i, h);
    BackedId(env, Abs(s), i, h);
    forall k | Backs(env, Abs(s), i, k) ensures k == h {
      BackedId(env, Abs(s), i, k);
    }
  }

  /** What is left of a request that was not answered with 200: a reason that holds of it. */
  lemma FailuresExplained(env: Env, rows: seq<Event>, moves: seq<Move>, h: nat)
    requires Sound(env) && GoodLedger(env, rows) && Run(env, Opened(rows), moves).Some?
    requires var a := Abs(Run(env, Opened(rows), moves).value); h in a.answers && !a.answers[h].Ok?
    ensures var a := Abs(Run(env, Opened(rows), moves).value);
      h in a.asked && Warranted(env, a.asked[h], a.ledger, a.answers[h])
  {
    hide Run, Opened, Inv, Sound, GoodLedger, RowsAnswered, Abs, Warranted;
    ReachedIsAccounted(env, rows, moves);
  }

  // ------------------------------------------------------------ lock release

  /** How many of its own moves a holder is away from having released the lock. */
  function Rank(pc: Pc): nat {
    match pc
    case Locked(_) => 7
    case HaveHead(_, _) => 6
    case Hashed(_, _, _) => 5
    case Signed(_) => 4
    case Marshalled(_) => 3
    case Stored(_) => 2
    case Leaving(_) => 1
    case _ => 0
  }

  /** A move the holder can always make. */
  function NextAct(pc: Pc): Act
    requires InLock(pc)
  {
    match pc
    case Locked(_) => ReadHead
    case HaveHead(_, _) => ComputeHash
    case Hashed(_, _, _) => CollectSigs([])
    case Signed(_) => Marshal
    case Marshalled(_) => InsertRow
    case Stored(_) => Respond
    case Leaving(_) => Unlock
  }

  /** While a handler holds the lock, nobody else can touch the ledger, the mutex or the holder. */
  lemma HolderIsUndisturbed(env: Env, s: State, m: Move, h: nat)
    requires Sound(env) && Inv(env, s) && s.mutex == Some(h) && m.h != h && Step(env, s, m).Some?
    ensures var t := Step(env, s, m).value;
      h in s.handlers && h in t.handlers && t.rows == s.rows && t.mutex == s.mutex && t.handlers[h] == s.handlers[h]
  {
    hide GoodLedger, HandlersOk, StepInside, GoodPc;
    StepLedger(env, s, m);
  }

  /** The holder's own moves lead out of the lock. */
  lemma HolderAdvances(env: Env, s: State, m: Move, h: nat)
    requires Inv(env, s) && s.mutex == Some(h) && m.h == h && Step(env, s, m).Some?
    ensures h in s.handlers && h in Step(env, s, m).value.handlers
    ensures Rank(Step(env, s, m).value.handlers[h]) < Rank(s.handlers[h])
  {
    hide GoodLedger, HandlersOk, StepInside, StepOutside;
    var pc := s.handlers[h];
    assert InLock(pc);
    if StepInside(env, s.rows, pc, m.act).To? {
      RankDrops(env, s.rows, pc, m.act);
    }
  }

  lemma RankDrops(env: Env, rows: seq<Event>, pc: Pc, act: Act)
    requires InLock(pc) && StepInside(env, rows, pc, act).To?
    ensures Rank(StepInside(env, rows, pc, act).pc) < Rank(pc)
  {
    hide SealedBundle, HasId, Head, CoordinationHash;
  }

  lemma HolderCanMove(env: Env, s: State, h: nat)
    requires Sound(env) && Inv(env, s) && s.mutex == Some(h)
    ensures h in s.handlers && InLock(s.handlers[h])
    ensures Step(env, s, Move(h, NextAct(s.handlers[h]))).Some?
  {
    hide GoodLedger, HasId, Head, CoordinationHash, GoodPc, SealedBundle;
  }

  /**
    The lock is always released: from every reachable state, moves of the holder alone, at
    most seven of them and each enabled, free it.
   */
  lemma LockIsReleased(env: Env, s: State, h: nat) returns (moves: seq<Move>)
    requires Sound(env) && Inv(env, s) && s.mutex == Some(h)
    ensures |moves| <= 7 && forall i :: 0 <= i < |moves| ==> moves[i].h == h
    ensures Run(env, s, moves).Some? && Run(env, s, moves).value.mutex.None?
  {
    moves := ReleaseWithin(env, s, h);
  }

  lemma {:induction false} ReleaseWithin(env: Env, s: State, h: nat) returns (moves: seq<Move>)
    requires Sound(env) && Inv(env, s) && s.mutex == Some(h)
    ensures h in s.handlers && |moves| <= Rank(s.handlers[h])
    ensures forall i :: 0 <= i < |moves| ==> moves[i].h == h
    ensures Run(env, s, moves).Some? && Run(env, s, moves).value.mutex.None?
    decreases if h in s.handlers then Rank(s.handlers[h]) else 0
  {
    hide Step, Inv, Rank, NextAct, Sound, InLock;
    HolderCanMove(env, s, h);
    var m := Move(h, NextAct(s.handlers[h]));
    HolderAdvances(env, s, m, h);
    InvStep(env, s, m);
    var t := Step(env, s, m).value;
    MutexStaysOrFrees(env, s, m, h);
    if t.mutex.None? {
      moves := [m];
      assert moves[1..] == [];
    } else {
      var rest := ReleaseWithin(env, t, h);
      moves := [m] + rest;
      assert moves[1..] == rest;
    }
  }

  lemma MutexStaysOrFrees(env: Env, s: State, m: Move, h: nat)
    requires Step(env, s, m).Some? && s.mutex == Some(h) && m.h == h
    ensures Step(env, s, m).value.mutex.None? || Step(env, s, m).value.mutex == Some(h)
  {
    hide StepInside, StepOutside;
  }

  // -------------------------------------------------- the handler as it is run

  /** The locked part of handleCoordinate on a real store, with its three faults. */
  method Coordinate(env: Env, db: DB, p: Prepared, sigs: seq<SignatureEntry>,
                    readFault: bool, marshalFault: bool, insertFault: bool)
    returns (r: Response)
    modifies db
    ensures r.Ok? <==> !readFault && !marshalFault && !insertFault && !HasId(old(db.rows), p.bundleId)
    ensures r.Ok? ==>
      && r.bundle == BundleOf(env.c, p.bundleId, p.originalHash, p.enrichedHash, Head(old(db.rows)), sigs)
      && db.rows == old(db.rows) + [EventOf(r.bundle)]
    ensures !r.Ok? ==> db.rows == old(db.rows)
    ensures !r.Ok? ==> r == (if readFault then Broke(NoHead)
                             else if marshalFault then Broke(NoJson)
                             else if insertFault then Broke(NoInsert)
                             else Failure(500, KnownId))
  {
    var prev := db.LatestChainHash(readFault);
    if prev.None? {
      return Broke(NoHead);
    }
    var digest := CoordinationHash(env.c.H, p.originalHash, p.enrichedHash, prev.value);
    var quorumMet := false;
    if |sigs| >= 2 {
      quorumMet := true;
    }
    var bundle := Bundle(p.bundleId, p.originalHash, p.enrichedHash, prev.value, EncodeHex(digest), sigs, quorumMet);
    if marshalFault {
      return Broke(NoJson);
    }
    var ok := db.Insert(EventOf(bundle), insertFault);
    if !ok {
      return if insertFault then Broke(NoInsert) else Failure(500, KnownId);
    }
    return Ok(bundle);
  }
}
