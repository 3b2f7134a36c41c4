/**
  `collectSignatures`: one goroutine per witness sends its result on a channel with room for
  all of them, and a loop receives at most one result per witness or stops at a deadline.
 */
module Collect {
  import opened Option
  import opened Ledger

  /** The outcome of one request: an entry, or None when the request failed. */
  type Answer = Option<SignatureEntry>

  datatype Reply = Reply(from: nat, answer: Answer)

  /** What the select statement yields. */
  datatype Selected = Arrived(answer: Answer) | Deadline

  // ------------------------------------------------------- the receive loop

  /** The entries gathered from a sequence of selections: up to the deadline, failures dropped. */
  function Gathered(events: seq<Selected>): seq<SignatureEntry> {
    if events == [] || events[0].Deadline? then []
    else (if events[0].answer.Some? then [events[0].answer.value] else []) + Gathered(events[1..])
  }

  lemma {:induction false} GatheredSnoc(events: seq<Selected>, e: Selected)
    requires forall i :: 0 <= i < |events| ==> events[i].Arrived?
    ensures Gathered(events + [e]) ==
      Gathered(events) + (if e.Arrived? && e.answer.Some? then [e.answer.value] else [])
  {
    if events == [] {
      assert [e][1..] == [];
    } else {
      assert (events + [e])[1..] == events[1..] + [e];
      GatheredSnoc(events[1..], e);
    }
  }

  lemma {:induction false} GatheredStops(events: seq<Selected>, k: nat)
    requires k < |events| && events[k].Deadline?
    ensures Gathered(events) == Gathered(events[..k])
  {
    if k == 0 || events[0].Deadline? {
    } else {
      assert events[..k][1..] == events[1..][..k - 1];
      GatheredStops(events[1..], k - 1);
    }
  }

  /** The loop itself, given what each of its selections will yield. */
  method ReceiveLoop(n: nat, events: seq<Selected>) returns (sigs: seq<SignatureEntry>)
    requires |events| == n
    ensures sigs == Gathered(events)
    ensures |sigs| <= n
  {
    sigs := [];
    assert events[..0] == [];
    for i := 0 to n
      invariant sigs == Gathered(events[..i]) && |sigs| <= i
      invariant forall j :: 0 <= j < i ==> events[j].Arrived?
    {
      assert events[..i + 1] == events[..i] + [events[i]];
      GatheredSnoc(events[..i], events[i]);
      match events[i] {
        case Arrived(answer) =>
          if answer.Some? {
            sigs := sigs + [answer.value];
          }
        case Deadline =>
          GatheredStops(events, i);
          return;
      }
    }
    assert events[..n] == events;
  }

  // ---------------------------------------------------- the whole protocol

  /** None while the goroutine is still waiting for its witness. */
  type Sender = Option<Answer>

  datatype Phase = Receiving | TimedOut | Complete

  datatype Protocol = Protocol(
    senders: seq<Sender>,       // one per witness
    chan: seq<Reply>,           // buffered, capacity |senders|
    taken: seq<Reply>,          // received so far, in order
    sigs: seq<SignatureEntry>,
    phase: Phase)

  datatype Move = Send(i: nat, answer: Answer) | Receive | Expire | Leave

  function Start(n: nat): Protocol {
    Protocol(seq(n, _ => None), [], [], [], Receiving)
  }

  predicate Enabled(p: Protocol, m: Move) {
    match m
    case Send(i, _) => i < |p.senders| && p.senders[i].None? && |p.chan| < |p.senders|
    case Receive => p.phase.Receiving? && |p.taken| < |p.senders| && p.chan != []
    case Expire => p.phase.Receiving? && |p.taken| < |p.senders|
    case Leave => p.phase.Receiving? && |p.taken| == |p.senders|
  }

  function Next(p: Protocol, m: Move): (q: Protocol)
    requires Enabled(p, m)
    ensures |q.senders| == |p.senders|
  {
    match m
    case Send(i, a) => p.(senders := p.senders[i := Some(a)], chan := p.chan + [Reply(i, a)])
    case Receive =>
      var r := p.chan[0];
      p.(chan := p.chan[1..], taken := p.taken + [r],
         sigs := if r.answer.Some? then p.sigs + [r.answer.value] else p.sigs)
    case Expire => p.(phase := TimedOut)
    case Leave => p.(phase := Complete)
  }

  /** The state after a schedule of moves; None if some move was not enabled. */
  function After(p: Protocol, moves: seq<Move>): (q: Option<Protocol>)
    ensures q.Some? ==> |q.value.senders| == |p.senders|
    decreases |moves|
  {
    if moves == [] then Some(p)
    else if !Enabled(p, moves[0]) then None
    else After(Next(p, moves[0]), moves[1..])
  }

  predicate DistinctSenders(rs: seq<Reply>) {
    forall i, j :: 0 <= i < j < |rs| ==> rs[i].from != rs[j].from
  }

  function AsSelected(rs: seq<Reply>): seq<Selected> {
    seq(|rs|, i requires 0 <= i < |rs| => Arrived(rs[i].answer))
  }

  /** Replies received or in the channel are exactly those of the senders that are done, once each. */
  predicate Inv(p: Protocol) {
    var all := p.taken + p.chan;
    && DistinctSenders(all)
    && (forall k :: 0 <= k < |all| ==> all[k].from < |p.senders| && p.senders[all[k].from] == Some(all[k].answer))
    && (forall i :: 0 <= i < |p.senders| && p.senders[i].Some? ==> Reply(i, p.senders[i].value) in all)
    && p.sigs == Gathered(AsSelected(p.taken))
    && (p.phase.Complete? ==> |p.taken| == |p.senders|)
  }

  lemma InvStart(n: nat)
    ensures Inv(Start(n))
  {
    assert AsSelected([]) == [];
  }

  lemma InvSend(p: Protocol, i: nat, a: Answer)
    requires Inv(p) && Enabled(p, Send(i, a))
    ensures Inv(Next(p, Send(i, a)))
  {
    var q := Next(p, Send(i, a));
    var all, more := p.taken + p.chan, q.taken + q.chan;
    assert more == all + [Reply(i, a)];
    forall k, l | 0 <= k < l < |more| ensures more[k].from != more[l].from {
      assert more[k] == all[k];
    }
    forall j | 0 <= j < |q.senders| && q.senders[j].Some? ensures Reply(j, q.senders[j].value) in more {
      if j == i {
        assert more[|all|] == Reply(i, a);
      } else {
        assert Reply(j, p.senders[j].value) in all;
      }
    }
  }

  lemma InvReceive(p: Protocol)
    requires Inv(p) && Enabled(p, Receive)
    ensures Inv(Next(p, Receive))
  {
    var q, r := Next(p, Receive), p.chan[0];
    assert q.taken + q.chan == p.taken + p.chan;
    assert AsSelected(q.taken) == AsSelected(p.taken) + [Arrived(r.answer)];
    GatheredSnoc(AsSelected(p.taken), Arrived(r.answer));
  }

  lemma InvNext(p: Protocol, m: Move)
    requires Inv(p) && Enabled(p, m)
    ensures Inv(Next(p, m))
  {
    match m {
      case Send(i, a) => InvSend(p, i, a);
      case Receive => InvReceive(p);
      case Expire =>
      case Leave =>
    }
  }

  lemma {:induction false} InvAlways(p: Protocol, moves: seq<Move>)
    requires Inv(p) && After(p, moves).Some?
    ensures Inv(After(p, moves).value)
    decreases |moves|
  {
    hide Inv, Enabled;
    if moves == [] {
    } else {
      InvNext(p, moves[0]);
      InvAlways(Next(p, moves[0]), moves[1..]);
    }
  }

  // ------------------------------------------------------------- consequences

  function Froms(rs: seq<Reply>): set<nat> {
    set k | 0 <= k < |rs| :: rs[k].from
  }

  lemma {:induction false} DistinctCount(rs: seq<Reply>)
    requires DistinctSenders(rs)
    ensures |Froms(rs)| == |rs|
  {
    if rs == [] {
      assert Froms(rs) == {};
    } else {
      var last := |rs| - 1;
      var front := rs[..last];
      DistinctCount(front);
      assert Froms(rs) == Froms(front) + {rs[last].from} by {
        assert forall k :: 0 <= k < last ==> front[k] == rs[k];
      }
    }
  }

  function Below(n: nat): (s: set<nat>)
    ensures |s| == n && forall i: nat :: i in s <==> i < n
  {
    if n == 0 then {} else Below(n - 1) + {n - 1}
  }

  lemma RepliesFit(p: Protocol)
    requires Inv(p)
    ensures Froms(p.taken + p.chan) <= Below(|p.senders|)
    ensures |p.taken| + |p.chan| <= |p.senders|
  {
    var all := p.taken + p.chan;
    DistinctCount(all);
    SubsetCount(Froms(all), Below(|p.senders|));
  }

  lemma SubsetCount<T>(a: set<T>, b: set<T>)
    requires a <= b
    ensures |a| <= |b|
    ensures |a| == |b| ==> a == b
  {
    assert b == a + (b - a);
  }

  lemma ChannelHasRoom(p: Protocol, i: nat)
    requires Inv(p) && i < |p.senders| && p.senders[i].None?
    ensures |p.taken| + |p.chan| < |p.senders|
  {
    var all := p.taken + p.chan;
    RepliesFit(p);
    DistinctCount(all);
    assert i !in Froms(all);
    SubsetCount(Froms(all) + {i}, Below(|p.senders|));
  }

  /**
    No goroutine is ever stuck: in every reachable state, also after the collector has
    returned early, a witness that answers finds room in the channel.
   */
  lemma SendersNeverBlock(n: nat, moves: seq<Move>, i: nat, answer: Answer)
    requires After(Start(n), moves).Some? && i < n && After(Start(n), moves).value.senders[i].None?
    ensures |After(Start(n), moves).value.chan| <= n
    ensures Enabled(After(Start(n), moves).value, Send(i, answer))
  {
    InvStart(n);
    InvAlways(Start(n), moves);
    var p := After(Start(n), moves).value;
    RepliesFit(p);
    ChannelHasRoom(p, i);
  }

  /** At most n receives, hence at most one entry per witness. */
  lemma AtMostOneEach(n: nat, moves: seq<Move>)
    requires After(Start(n), moves).Some?
    ensures var p := After(Start(n), moves).value;
      && |p.taken| <= n && DistinctSenders(p.taken)
      && p.sigs == Gathered(AsSelected(p.taken))
      && forall k :: 0 <= k < |p.taken| ==>
        p.taken[k].from < n && p.senders[p.taken[k].from] == Some(p.taken[k].answer)
  {
    InvStart(n);
    InvAlways(Start(n), moves);
    var p := After(Start(n), moves).value;
    RepliesFit(p);
    forall k | 0 <= k < |p.taken| ensures p.taken[k] == (p.taken + p.chan)[k] {
    }
  }

  /**
    A return without the deadline has heard every witness: the entries are those of all
    successful replies, and no reply is left behind.
   */
  lemma CompleteMeansAll(n: nat, moves: seq<Move>)
    requires After(Start(n), moves).Some? && After(Start(n), moves).value.phase.Complete?
    ensures var p := After(Start(n), moves).value;
      && p.chan == [] && p.sigs == Gathered(AsSelected(p.taken)) && DistinctSenders(p.taken)
      && forall i :: 0 <= i < n ==> p.senders[i].Some? && Reply(i, p.senders[i].value) in p.taken
  {
    InvStart(n);
    InvAlways(Start(n), moves);
    var p := After(Start(n), moves).value;
    RepliesFit(p);
    assert p.taken + p.chan == p.taken;
    DistinctCount(p.taken);
    SubsetCount(Froms(p.taken), Below(n));
    forall i: nat | i < n ensures p.senders[i].Some? && Reply(i, p.senders[i].value) in p.taken {
      assert i in Froms(p.taken);
      var k :| 0 <= k < |p.taken| && p.taken[k].from == i;
      assert (p.taken + p.chan)[k] == p.taken[k];
    }
  }

  // ------------------------------------------------- what a full return holds

  function Successful(rs: seq<Reply>): set<nat> {
    set k | 0 <= k < |rs| && rs[k].answer.Some? :: rs[k].from
  }

  lemma {:induction false} GatheredCounts(rs: seq<Reply>)
    requires DistinctSenders(rs)
    ensures |Gathered(AsSelected(rs))| == |Successful(rs)|
  {
    if rs == [] {
    } else {
      var n := |rs| - 1;
      GatheredCounts(rs[..n]);
      SuccessfulSnoc(rs);
      hide Successful;
      GatheredLast(rs);
      hide Gathered, AsSelected;
    }
  }

  lemma GatheredLast(rs: seq<Reply>)
    requires rs != []
    ensures var n := |rs| - 1;
      Gathered(AsSelected(rs)) == Gathered(AsSelected(rs[..n]))
                                  + (if rs[n].answer.Some? then [rs[n].answer.value] else [])
  {
    hide Gathered;
    var n := |rs| - 1;
    assert AsSelected(rs) == AsSelected(rs[..n]) + [Arrived(rs[n].answer)];
    GatheredSnoc(AsSelected(rs[..n]), Arrived(rs[n].answer));
  }

  predicate Brought(rs: seq<Reply>, e: SignatureEntry) {
    exists k :: 0 <= k < |rs| && rs[k].answer == Some(e)
  }

  lemma {:induction false} GatheredAreBrought(rs: seq<Reply>, e: SignatureEntry)
    ensures e in Gathered(AsSelected(rs)) <==> Brought(rs, e)
  {
    if rs == [] {
    } else {
      var n := |rs| - 1;
      GatheredAreBrought(rs[..n], e);
      GatheredLast(rs);
      hide Gathered, AsSelected;
      assert Brought(rs, e) <==> Brought(rs[..n], e) || rs[n].answer == Some(e) by {
        assert forall k :: 0 <= k < n ==> rs[..n][k] == rs[k];
      }
    }
  }

  lemma SuccessfulSnoc(rs: seq<Reply>)
    requires rs != [] && DistinctSenders(rs)
    ensures var n := |rs| - 1;
      && rs[n].from !in Successful(rs[..n])
      && Successful(rs) == Successful(rs[..n]) + (if rs[n].answer.Some? then {rs[n].from} else {})
  {
    var n := |rs| - 1;
    assert forall k :: 0 <= k < n ==> rs[..n][k] == rs[k];
  }

  /** The witnesses whose request succeeded. */
  function Answered(p: Protocol): set<nat> {
    set i: nat | i < |p.senders| && p.senders[i].Some? && p.senders[i].value.Some?
  }

  /**
    A return without the deadline, entry by entry: every successful reply's entry and nothing
    else, one for each witness that succeeded.
   */
  lemma CompleteGathers(n: nat, moves: seq<Move>)
    requires After(Start(n), moves).Some? && After(Start(n), moves).value.phase.Complete?
    ensures var p := After(Start(n), moves).value;
      && |p.sigs| == |Answered(p)|
      && (forall i: nat :: i in Answered(p) ==> p.senders[i].value.value in p.sigs)
      && (forall e :: e in p.sigs ==> exists i: nat :: i in Answered(p) && p.senders[i].value.value == e)
  {
    hide After, Gathered, AsSelected, Inv;
    CompleteMeansAll(n, moves);
    AtMostOneEach(n, moves);
    var p := After(Start(n), moves).value;
    GatheredCounts(p.taken);
    forall e ensures e in p.sigs <==> Brought(p.taken, e) {
      GatheredAreBrought(p.taken, e);
    }
    forall i: nat | i in Answered(p) ensures i in Successful(p.taken) && p.senders[i].value.value in p.sigs {
      assert Reply(i, p.senders[i].value) in p.taken;
      assert Brought(p.taken, p.senders[i].value.value);
    }
    forall i | i in Successful(p.taken) ensures i in Answered(p) {
      var k :| 0 <= k < |p.taken| && p.taken[k].answer.Some? && p.taken[k].from == i;
    }
    assert Successful(p.taken) == Answered(p);
    forall e | e in p.sigs ensures exists i: nat :: i in Answered(p) && p.senders[i].value.value == e {
      assert Brought(p.taken, e);
      var k :| 0 <= k < |p.taken| && p.taken[k].answer == Some(e);
      assert p.taken[k].from in Answered(p);
    }
  }
}
