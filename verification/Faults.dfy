/**
  Which answers a request can get: no fault is named that did not happen, and a request that
  met none is answered as its message deserves.
 */
module Faults {
  import opened Option
  import opened Ledger
  import opened Gateway
  import opened Refinement

  /** The move with which a fault strikes. */
  function ActOf(f: Fault): Act {
    match f
    case NoHead => ReadFault
    case NoJson => MarshalFault
    case NoInsert => InsertFault
    case _ => GiveUp(f)
  }

  /** Handler h has failed and names fault f. */
  predicate Blames(s: State, h: nat, f: Fault) {
    && h in s.handlers && Decided(s.handlers[h]) && AnswerOf(s.handlers[h]).Failure?
    && AnswerOf(s.handlers[h]).reason == Broken(f)
  }

  lemma InsideBlames(env: Env, rows: seq<Event>, pc: Pc, act: Act, f: Fault)
    requires StepInside(env, rows, pc, act).To?
    requires var pc' := StepInside(env, rows, pc, act).pc;
      Decided(pc') && AnswerOf(pc').Failure? && AnswerOf(pc').reason == Broken(f)
    ensures act == ActOf(f)
  {
    hide HasId, Head, CoordinationHash, SealedBundle;
  }

  lemma OutsideBlames(env: Env, req: Request, rows: seq<Event>, pc: Pc, act: Act, f: Fault)
    requires StepOutside(env, req, rows, pc, act).To?
    requires var pc' := StepOutside(env, req, rows, pc, act).pc;
      Decided(pc') && AnswerOf(pc').Failure? && AnswerOf(pc').reason == Broken(f)
    ensures act == ActOf(f)
  {
  }

  lemma StepBlames(env: Env, s: State, m: Move, h: nat, f: Fault)
    requires Step(env, s, m).Some? && Blames(Step(env, s, m).value, h, f)
    ensures Blames(s, h, f) || m == Move(h, ActOf(f))
  {
    hide StepInside, StepOutside;
    if m.h == h && m.h in s.handlers && m.h in s.asked && !m.act.Arrive? && !m.act.Lock? && !m.act.Unlock? {
      var pc := s.handlers[h];
      if InLock(pc) {
        InsideBlames(env, s.rows, pc, m.act, f);
      } else {
        OutsideBlames(env, s.asked[h], s.rows, pc, m.act, f);
      }
    }
  }

  /** A fault that is named has struck this very handler, in every interleaving. */
  lemma {:induction false} FaultsHappened(env: Env, s: State, moves: seq<Move>, h: nat, f: Fault)
    requires Run(env, s, moves).Some? && Blames(Run(env, s, moves).value, h, f)
    ensures Blames(s, h, f) || Move(h, ActOf(f)) in moves
    decreases |moves|
  {
    hide Step, Blames, ActOf;
    if moves == [] {
    } else {
      var next := Step(env, s, moves[0]).value;
      FaultsHappened(env, next, moves[1..], h, f);
      assert forall m :: m in moves[1..] ==> m in moves;
      if Blames(next, h, f) {
        StepBlames(env, s, moves[0], h, f);
      }
    }
  }

  /** Nothing went wrong for handler h. */
  predicate Spared(moves: seq<Move>, h: nat) {
    forall f :: Move(h, ActOf(f)) !in moves
  }

  /** The answer the message deserves: its own bundle, its own refusal or panic, or a taken identifier. */
  predicate Deserved(env: Env, a: Spec, h: nat) {
    && h in a.asked && h in a.answers
    && match env.prepare(a.asked[h])
       case Refused(code) => a.answers[h] == Failure(code, Unprepared)
       case Panicking => a.answers[h] == Aborted
       case Ready(p) =>
         || (a.answers[h].Ok? && Own(env, a.asked[h], a.answers[h].bundle)
             && EventOf(a.answers[h].bundle) in a.ledger)
         || (a.answers[h] == Failure(500, KnownId) && HasId(a.ledger, p.bundleId))
  }

  /**
    In every interleaving from an opened ledger, a handler that no fault struck is answered, if it
    has been answered, as its message deserves, whatever befell the others.
   */
  lemma SparedIsDeserved(env: Env, rows: seq<Event>, moves: seq<Move>, h: nat)
    requires Sound(env) && GoodLedger(env, rows) && Run(env, Opened(rows), moves).Some?
    requires Spared(moves, h) && h in Abs(Run(env, Opened(rows), moves).value).answers
    ensures Deserved(env, Abs(Run(env, Opened(rows), moves).value), h)
  {
    hide Run, Sound, GoodLedger, ActOf, HasId;
    var s := Run(env, Opened(rows), moves).value;
    var a := Abs(s);
    AbsParts(s);
    hide Abs;
    if a.answers[h].Ok? {
      var at := AnsweredExactlyOnce(env, rows, moves, h);
      BackedIsDeserved(env, a, at, h);
    } else {
      FailuresExplained(env, rows, moves, h);
      if a.answers[h].Failure? && a.answers[h].reason.Broken? {
        var f := a.answers[h].reason.fault;
        FaultsHappened(env, Opened(rows), moves, h, f);
      }
    }
  }

  lemma BackedIsDeserved(env: Env, a: Spec, i: nat, h: nat)
    requires Backs(env, a, i, h)
    ensures Deserved(env, a, h)
  {
    hide HasId, GoodBundle;
    assert a.ledger[i] in a.ledger;
  }

  /** The number each fault is answered with. */
  lemma FaultCodes()
    ensures Broke(NotPost).code == 405
    ensures Broke(UnreadableBody).code == 400 && Broke(NotBase64).code == 400
    ensures Broke(NoRandomness).code == 500 && Broke(NoHead).code == 500
    ensures Broke(NoJson).code == 500 && Broke(NoInsert).code == 500
  {
  }
}
