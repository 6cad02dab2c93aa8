/** Guarantees of the whole broker over every interleaving: one topic object per name, a
    two-sided subscription index, no stuck handler, and complete delivery once requests stop. */
module ServerTheorems {
  import T = TopicProtocol
  import TT = TopicTheorems
  import opened ServerProtocol

  lemma {:induction false} RunGrows(run: seq<Server>, i: nat, j: nat)
    requires IsRun(run) && i <= j < |run|
    ensures Grows(run[i], run[j])
  {
    if i < j {
      RunGrows(run, i, j - 1);
      assert StepAt(run, j);
      var step :| Enabled(run[j - 1], step) && run[j] == Do(run[j - 1], step);
      RunKeepsInv(run, j - 1);
      SharedGrows(run[j - 1], step);
      GrowsOn(run[i], run[j - 1], run[j]);
    }
  }

  /** Two GetTopic calls for one name, at any two moments and by any two clients, return the
      same object, although either may have found the topic missing at first. */
  lemma SameTopicForEveryCaller(run: seq<Server>, i: nat, j: nat, c: ClientId, d: ClientId)
    requires IsRun(run) && i <= j < |run|
    requires c in run[i].handlers && run[i].handlers[c].pc.Have?
    requires d in run[j].handlers && run[j].handlers[d].pc.Have?
    requires run[i].handlers[c].pc.req.name == run[j].handlers[d].pc.req.name
    ensures run[i].handlers[c].pc.t == run[j].handlers[d].pc.t
  {
    RunKeepsInv(run, i);
    RunKeepsInv(run, j);
    RunGrows(run, i, j);
    assert ReferenceOk(run[i], run[i].handlers[c].pc) && ReferenceOk(run[j], run[j].handlers[d].pc);
  }

  /** No name ever has two topic objects, hence never two dispatchers. */
  lemma OneTopicPerName(run: seq<Server>, i: nat, t: nat, u: nat)
    requires IsRun(run) && i < |run| && t < |run[i].topics| && u < |run[i].topics|
    requires run[i].topics[t].shared.name == run[i].topics[u].shared.name
    ensures t == u
  {
    RunKeepsInv(run, i);
  }

  /** At the loop head c is in a topic's subscribers iff the topic is in c.subs; a client
      whose removeClient is over is in no topic. */
  lemma SubscriptionIndex(run: seq<Server>, i: nat, c: ClientId, n: string)
    requires IsRun(run) && i < |run| && c in run[i].handlers
    ensures run[i].handlers[c].pc.Head? ==> (InTopic(run[i], c, n) <==> n in run[i].handlers[c].subs)
    ensures run[i].handlers[c].pc.Gone? ==> !InTopic(run[i], c, n)
  {
    RunKeepsInv(run, i);
    assert InTopic(run[i], c, n) <==> c in run[i].handlers && MemberOf(run[i].handlers[c], n);
  }

  // ---------- Settling ----------

  /** Steps that finish work already asked for. */
  predicate Internal(step: Step) {
    step.Advance? || step.Dispatch?
  }

  predicate Resting(pc: Pc) {
    pc.Head? || pc.Gone?
  }

  ghost predicate Settled(s: Server) {
    && (forall c :: c in s.handlers ==> Resting(s.handlers[c].pc))
    && (forall t :: 0 <= t < |s.topics| ==> TT.AtRest(s.topics[t]))
  }

  /** A handler in the middle of a request can always go on. */
  lemma HandlerNeverStuck(s: Server, c: ClientId) returns (step: Step)
    requires Wired(s) && c in s.handlers && !Resting(s.handlers[c].pc)
    ensures Internal(step) && Enabled(s, step)
  {
    var pc := s.handlers[c].pc;
    assert ReferenceOk(s, pc);
    var pick := "";
    if pc.Dropping? && pc.todo != {} {
      pick :| pick in pc.todo;
    }
    step := Advance(c, 0, pick);
  }

  lemma NobodyNotifying(s: Server, t: nat)
    requires Wired(s) && t < |s.topics|
    requires forall c :: c in s.handlers ==> Resting(s.handlers[c].pc)
    ensures s.topics[t].notifying == {}
  {
    forall c ensures c !in s.topics[t].notifying {
      assert c in s.topics[t].notifying <==> c in s.handlers && s.handlers[c].pc == Notifying(t);
    }
  }

  lemma SomeoneCanMove(s: Server) returns (step: Step)
    requires Wired(s) && !Settled(s)
    ensures Internal(step) && Enabled(s, step)
  {
    if c :| c in s.handlers && !Resting(s.handlers[c].pc) {
      step := HandlerNeverStuck(s, c);
    } else {
      var t :| 0 <= t < |s.topics| && !TT.AtRest(s.topics[t]);
      NobodyNotifying(s, t);
      var st := TT.SomeoneCanMove(s.topics[t]);
      step := Dispatch(t, st);
    }
  }

  function Work(h: Handler): nat {
    match h.pc
    case Head => 0
    case Lookup(_) => 4
    case Missed(_) => 3
    case Have(_, _) => 2
    case Notifying(_) => 1
    case Joined(_) => 1
    case UnsubLookup(_) => 3
    case UnsubHave(_, _) => 2
    case Left(_) => 1
    case Leaving => 2 * |h.subs| + 2
    case Dropping(todo) => 2 * |todo| + 1
    case DroppingHave(_, _, todo) => 2 * |todo| + 2
    case Gone => 0
  }

  ghost function TotalWork(hs: map<ClientId, Handler>): nat
    decreases |hs|
  {
    if hs == map[] then 0
    else var c :| c in hs; Work(hs[c]) + TotalWork(hs - {c})
  }

  lemma {:induction false} TotalWorkSplit(hs: map<ClientId, Handler>, c: ClientId)
    requires c in hs
    ensures TotalWork(hs) == Work(hs[c]) + TotalWork(hs - {c})
    decreases |hs|
  {
    var d :| d in hs && TotalWork(hs) == Work(hs[d]) + TotalWork(hs - {d});
    if d != c {
      TotalWorkSplit(hs - {d}, c);
      TotalWorkSplit(hs - {c}, d);
      assert hs - {d} - {c} == hs - {c} - {d};
    }
  }

  function TopicWork(ts: seq<T.Topic>): nat {
    if ts == [] then 0 else TT.Measure(ts[0]) + TopicWork(ts[1..])
  }

  lemma {:induction false} TopicWorkUpdate(ts: seq<T.Topic>, t: nat, x: T.Topic)
    requires t < |ts| && TT.Measure(x) < TT.Measure(ts[t])
    ensures TopicWork(ts[t := x]) < TopicWork(ts)
  {
    if t > 0 {
      TopicWorkUpdate(ts[1..], t - 1, x);
      assert ts[t := x][1..] == ts[1..][t - 1 := x];
    } else {
      assert ts[t := x][1..] == ts[1..];
    }
  }

  lemma AdvanceDecreases(h: Handler, step: Step, r: map<string, nat>)
    requires step.Advance? && !Resting(h.pc)
    requires h.pc.Missed? ==> h.pc.req.name in r
    requires h.pc.Dropping? && h.pc.todo != {} ==> step.pick in h.pc.todo
    ensures Work(NewHandler(h, step, r)) < Work(h)
  {
    match h.pc {
      case Dropping(todo) =>
        if todo != {} {
          assert |todo - {step.pick}| == |todo| - 1;
        }
      case _ =>
    }
  }

  /** Every internal step, whoever takes it, brings the broker nearer to rest. */
  lemma InternalStepDecreases(s: Server, step: Step)
    requires Internal(step) && Enabled(s, step)
    ensures var s' := Do(s, step);
      TotalWork(s'.handlers) < TotalWork(s.handlers)
      || (s'.handlers == s.handlers && TopicWork(s'.topics) < TopicWork(s.topics))
  {
    var s' := Do(s, step);
    if step.Advance? {
      var c := step.c;
      AdvanceDecreases(s.handlers[c], step, DoShared(s, step).registry);
      TotalWorkSplit(s.handlers, c);
      TotalWorkSplit(s'.handlers, c);
      assert s'.handlers - {c} == s.handlers - {c};
    } else {
      TT.InternalStepDecreases(s.topics[step.t], step.step);
      TopicWorkUpdate(s.topics, step.t, T.Do(s.topics[step.t], step.step));
    }
  }

  ghost predicate InternalNext(s: Server, s': Server) {
    exists step :: Internal(step) && Enabled(s, step) && s' == Do(s, step)
  }

  /** n internal steps, taken by anyone in any order, lead from s to s'. */
  ghost predicate Leads(s: Server, s': Server, n: nat)
    decreases n
  {
    if n == 0 then s == s' else exists m :: InternalNext(s, m) && Leads(m, s', n - 1)
  }

  /** In every topic all published messages are dispatched, and every continuing subscriber has
      been sent each message published since he subscribed, once. */
  ghost predicate EverythingDelivered(s: Server) {
    forall t :: 0 <= t < |s.topics| ==> TT.AllDelivered(s.topics[t])
  }

  lemma SettledMeansDelivered(s: Server)
    requires Inv(s) && Settled(s)
    ensures EverythingDelivered(s)
  {
    forall t | 0 <= t < |s.topics| ensures TT.AllDelivered(s.topics[t]) {
      TT.IdleMeansAtRest(s.topics[t]);
      TT.IdleMeansDelivered(s.topics[t]);
    }
  }

  lemma MoveOn(s: Server) returns (s': Server)
    requires Inv(s) && !Settled(s)
    ensures Inv(s') && InternalNext(s, s') && Grows(s, s')
    ensures TotalWork(s'.handlers) < TotalWork(s.handlers)
      || (s'.handlers == s.handlers && TopicWork(s'.topics) < TopicWork(s.topics))
  {
    var step := SomeoneCanMove(s);
    s' := Do(s, step);
    InternalStepDecreases(s, step);
    StepKeepsInv(s, step);
    SharedGrows(s, step);
  }

  lemma GrowsOn(a: Server, b: Server, c: Server)
    requires Grows(a, b) && Grows(b, c)
    ensures Grows(a, c)
  {
    forall t | 0 <= t < |a.topics| ensures a.topics[t].log <= c.topics[t].log {
      assert a.topics[t].log <= b.topics[t].log <= c.topics[t].log;
    }
  }

  lemma {:induction false} Settling(s: Server) returns (n: nat, end: Server)
    requires Inv(s)
    ensures Leads(s, end, n) && Inv(end) && Settled(end) && Grows(s, end)
    decreases TotalWork(s.handlers), TopicWork(s.topics)
  {
    hide Inv, Settled, InternalNext, TotalWork, TopicWork;
    if Settled(s) {
      n, end := 0, s;
      hide Grows;
    } else {
      var s' := MoveOn(s);
      n, end := Settling(s');
      n := n + 1;
      GrowsOn(s, s', end);
    }
  }

  /** From any reachable state the broker can finish: all requests answered, all messages
      dispatched and sent. */
  lemma BrokerSettles(s: Server) returns (n: nat, end: Server)
    requires Inv(s)
    ensures Leads(s, end, n) && Grows(s, end)
    ensures Inv(end) && Settled(end) && EverythingDelivered(end)
  {
    n, end := Settling(s);
    SettledMeansDelivered(end);
  }

  /** A schedule: as long as anybody can take an internal step, somebody does. */
  ghost predicate Moves(s: Server, s': Server) {
    InternalNext(s, s') || (s' == s && forall m :: !InternalNext(s, m))
  }

  lemma NobodyMovesMeansSettled(s: Server)
    requires Inv(s) && forall m :: !InternalNext(s, m)
    ensures Settled(s)
  {
    hide Settled, Enabled, Do;
    if !Settled(s) {
      var s' := MoveOn(s);
    }
  }

  lemma {:induction false} ScheduleSettles(run: nat -> Server, i: nat) returns (j: nat)
    requires Inv(run(i)) && forall k: nat :: Moves(run(k), run(k + 1))
    ensures i <= j && Inv(run(j)) && Settled(run(j)) && Grows(run(i), run(j))
    decreases TotalWork(run(i).handlers), TopicWork(run(i).topics)
  {
    hide Inv, Settled, Enabled, Do, TotalWork, TopicWork;
    assert Moves(run(i), run(i + 1));
    if InternalNext(run(i), run(i + 1)) {
      var step :| Internal(step) && Enabled(run(i), step) && run(i + 1) == Do(run(i), step);
      InternalStepDecreases(run(i), step);
      StepGrows(run(i), step);
      j := ScheduleSettles(run, i + 1);
      GrowsOn(run(i), run(i + 1), run(j));
    } else {
      j := i;
      NobodyMovesMeansSettled(run(i));
    }
  }

  lemma StepGrows(s: Server, step: Step)
    requires Inv(s) && Enabled(s, step)
    ensures Inv(Do(s, step)) && Grows(s, Do(s, step))
  {
    StepKeepsInv(s, step);
    SharedGrows(s, step);
  }

  /** Under every schedule without new requests the broker comes to rest with everything that
      was ever published dispatched and sent. */
  lemma EveryScheduleSettles(run: nat -> Server)
    requires Inv(run(0)) && forall k: nat :: Moves(run(k), run(k + 1))
    ensures exists j: nat ::
              Inv(run(j)) && Settled(run(j)) && EverythingDelivered(run(j)) && Grows(run(0), run(j))
  {
    hide Inv, Settled, Moves, Grows, EverythingDelivered;
    var j := ScheduleSettles(run, 0);
    SettledMeansDelivered(run(j));
  }
}
