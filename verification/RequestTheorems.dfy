/** What becomes of a request: from the moment a handler reads it off the connection to the
    moment it is back at the head of its loop, whatever everybody else does in between.
    The request loop of message-broker/server/server.go. */
module RequestTheorems {
  import opened Queue
  import T = TopicProtocol
  import TT = TopicTheorems
  import opened ServerProtocol
  import opened ServerTheorems

  /** A run together with the steps that were taken in it. */
  ghost predicate IsTrace(run: seq<Server>, steps: seq<Step>) {
    && |run| == |steps| + 1 && run[0] == INITIAL
    && forall i :: 0 <= i < |steps| ==> StepTaken(run, steps, i)
  }

  ghost predicate StepTaken(run: seq<Server>, steps: seq<Step>, i: int)
    requires 0 <= i < |steps| && |run| == |steps| + 1
  {
    Enabled(run[i], steps[i]) && run[i + 1] == Do(run[i], steps[i])
  }

  lemma TraceIsRun(run: seq<Server>, steps: seq<Step>)
    requires IsTrace(run, steps)
    ensures IsRun(run)
  {
    forall i | 0 < i < |run| ensures StepAt(run, i) {
      assert StepTaken(run, steps, i - 1);
    }
  }

  predicate By(step: Step, c: ClientId) {
    !step.Dispatch? && step.c == c
  }

  predicate Starts(step: Step) {
    step.Receive? || step.ReceiveUnsubscribe? || step.Hangup?
  }

  /** c's handler reads a request at i and is not at the head of its loop again before j. */
  ghost predicate Serves(run: seq<Server>, steps: seq<Step>, c: ClientId, i: int, j: int) {
    && IsTrace(run, steps) && 0 <= i < j < |run|
    && By(steps[i], c) && Starts(steps[i])
    && forall l :: i < l < j && c in run[l].handlers ==> !run[l].handlers[c].pc.Head?
  }

  /** Back at the head of the loop. */
  ghost predicate Done(run: seq<Server>, c: ClientId, j: int)
    requires 0 <= j < |run|
  {
    c in run[j].handlers && run[j].handlers[c].pc.Head?
  }

  // ---------- One handler among all the others ----------

  /** Nobody moves a handler but its own goroutine, and that goes on unless it is at the head. */
  lemma HandlerMoves(s: Server, step: Step, c: ClientId)
    requires Enabled(s, step) && c in s.handlers
    ensures c in Do(s, step).handlers
    ensures !By(step, c) ==> Do(s, step).handlers[c] == s.handlers[c]
    ensures By(step, c) ==> Do(s, step).handlers[c] == NewHandler(s.handlers[c], step, Do(s, step).registry)
    ensures By(step, c) ==> if s.handlers[c].pc.Head? then Starts(step) else step.Advance?
  {
  }

  /** Where a handler may stand between reading the request and finishing it. */
  predicate At(pc: Pc, start: Step) {
    match start
    case Receive(_, req) =>
      (match pc
       case Lookup(r) => r == req
       case Missed(r) => r == req
       case Have(r, _) => r == req
       case Joined(n) => req == Subscribe(n)
       case Notifying(_) => req.Publish?
       case _ => false)
    case ReceiveUnsubscribe(_, name) =>
      pc == UnsubLookup(name) || (pc.UnsubHave? && pc.name == name) || pc == Left(name)
    case _ => pc.Leaving? || pc.Dropping? || pc.DroppingHave? || pc.Gone?
  }

  /** What a finished request makes of the client's subscriptions. */
  function SubsAfter(start: Step, subs: set<string>): set<string> {
    match start
    case Receive(_, Subscribe(name)) => subs + {name}
    case ReceiveUnsubscribe(_, name) => subs - {name}
    case _ => subs
  }

  /** `h` works on `start`, which found the client's subscriptions at `subs`. */
  predicate Working(h: Handler, start: Step, subs: set<string>) {
    if h.pc.Head? then !start.Hangup? && h.subs == SubsAfter(start, subs)
    else At(h.pc, start) && (start.Hangup? || h.subs == subs)
  }

  lemma WorkBegins(h: Handler, start: Step, r: map<string, nat>)
    requires Starts(start)
    ensures Working(NewHandler(h, start, r), start, h.subs) && !NewHandler(h, start, r).pc.Head?
  {
  }

  lemma WorkGoesOn(h: Handler, start: Step, subs: set<string>, step: Step, r: map<string, nat>)
    requires Starts(start) && Working(h, start, subs) && !h.pc.Head? && step.Advance?
    ensures Working(NewHandler(h, step, r), start, subs)
  {
    match start {
      case Receive(_, Subscribe(_)) =>
      case Receive(_, Publish(_, _, _)) =>
      case ReceiveUnsubscribe(_, _) =>
      case _ =>
    }
  }

  lemma {:induction false} StillWorking(run: seq<Server>, steps: seq<Step>, c: ClientId, i: nat, j: nat, l: nat)
    requires Serves(run, steps, c, i, j) && i < l <= j
    ensures c in run[i].handlers && run[i].handlers[c].pc.Head?
    ensures c in run[l].handlers && Working(run[l].handlers[c], steps[i], run[i].handlers[c].subs)
    ensures l < j ==> !run[l].handlers[c].pc.Head?
  {
    hide Do, NewHandler, Working;
    assert StepTaken(run, steps, i) && StepTaken(run, steps, l - 1);
    var s, step := run[l - 1], steps[l - 1];
    if l == i + 1 {
      HandlerMoves(s, step, c);
      WorkBegins(s.handlers[c], step, run[l].registry);
    } else {
      StillWorking(run, steps, c, i, j, l - 1);
      HandlerMoves(s, step, c);
      if By(step, c) {
        WorkGoesOn(s.handlers[c], steps[i], run[i].handlers[c].subs, step, run[l].registry);
      }
    }
  }

  // ---------- Subscribe, unsubscribe, hang up ----------

  /** A finished subscribe has put the topic into the client's subs and the client into the
      topic; his other subscriptions are what they were. */
  lemma SubscribeTakesEffect(run: seq<Server>, steps: seq<Step>, c: ClientId, i: nat, j: nat, n: string)
    requires Serves(run, steps, c, i, j) && Done(run, c, j) && steps[i] == Receive(c, Subscribe(n))
    ensures c in run[i].handlers && run[j].handlers[c].subs == run[i].handlers[c].subs + {n}
    ensures InTopic(run[j], c, n)
    ensures forall m :: m != n ==> (InTopic(run[j], c, m) <==> InTopic(run[i], c, m))
  {
    StillWorking(run, steps, c, i, j, j);
    TraceIsRun(run, steps);
    hide IsTrace, IsRun;
    forall m ensures InTopic(run[j], c, m) <==> m == n || InTopic(run[i], c, m) {
      SubscriptionIndex(run, i, c, m);
      SubscriptionIndex(run, j, c, m);
    }
  }

  /** A finished unsubscribe has taken both sides of that one subscription back. */
  lemma UnsubscribeTakesEffect(run: seq<Server>, steps: seq<Step>, c: ClientId, i: nat, j: nat, n: string)
    requires Serves(run, steps, c, i, j) && Done(run, c, j) && steps[i] == ReceiveUnsubscribe(c, n)
    ensures c in run[i].handlers && run[j].handlers[c].subs == run[i].handlers[c].subs - {n}
    ensures !InTopic(run[j], c, n)
    ensures forall m :: m != n ==> (InTopic(run[j], c, m) <==> InTopic(run[i], c, m))
  {
    StillWorking(run, steps, c, i, j, j);
    TraceIsRun(run, steps);
    hide IsTrace, IsRun, InTopic;
    forall m ensures InTopic(run[j], c, m) <==> m != n && InTopic(run[i], c, m) {
      SubscriptionIndex(run, i, c, m);
      SubscriptionIndex(run, j, c, m);
    }
  }

  /** A client who hung up never reads again, and once removeClient is over he is in no topic
      and stays so. */
  lemma {:induction false} HangupIsFinal(
      run: seq<Server>, steps: seq<Step>, c: ClientId, i: nat, l: nat, n: string)
    requires IsTrace(run, steps) && i < l < |run| && steps[i] == Hangup(c)
    ensures c in run[l].handlers && !run[l].handlers[c].pc.Head? && At(run[l].handlers[c].pc, steps[i])
    ensures run[l].handlers[c].pc.Gone? ==> !InTopic(run[l], c, n)
    ensures c in run[l - 1].handlers && run[l - 1].handlers[c].pc.Gone? ==> run[l].handlers[c].pc.Gone?
  {
    hide Do, NewHandler, InTopic;
    forall k | i < k < l && c in run[k].handlers ensures !run[k].handlers[c].pc.Head? {
      HangupIsFinal(run, steps, c, i, k, n);
    }
    StillWorking(run, steps, c, i, l, l);
    TraceIsRun(run, steps);
    SubscriptionIndex(run, l, c, n);
    assert StepTaken(run, steps, l - 1);
    if l - 1 > i {
      HangupIsFinal(run, steps, c, i, l - 1, n);
      HandlerMoves(run[l - 1], steps[l - 1], c);
    }
  }

  // ---------- Publish ----------

  /** The step publishes nothing in any topic. */
  ghost predicate PublishesNothing(s: Server, s': Server) {
    && |s.topics| <= |s'.topics|
    && forall t :: 0 <= t < |s'.topics| ==>
         T.PublishedIn(s'.topics[t].log) == if t < |s.topics| then T.PublishedIn(s.topics[t].log) else []
  }

  /** The step publishes exactly `m`, in the topic m names, and leaves every other topic alone. */
  ghost predicate PublishesJust(s: Server, s': Server, m: Msg) {
    && m.topic in s.registry && s.registry[m.topic] < |s.topics| == |s'.topics|
    && (var t := s.registry[m.topic];
        && s.topics[t].shared.name == m.topic
        && s'.topics[t].log == s.topics[t].log + [T.Published(m)]
        && forall u :: 0 <= u < |s.topics| && u != t ==> s'.topics[u] == s.topics[u])
  }

  lemma NoPublication(t: T.Topic, st: T.Step)
    requires T.Enabled(t, st) && !st.Publish?
    ensures T.PublishedIn(T.Do(t, st).log) == T.PublishedIn(t.log)
  {
    T.ExtendBy(t, st);
  }

  /** A handler's step publishes nothing unless the handler holds the topic of a publish request. */
  lemma OtherwiseNothing(s: Server, step: Step, c: ClientId)
    requires Enabled(s, step) && By(step, c) && c in s.handlers
    requires !(s.handlers[c].pc.Have? && s.handlers[c].pc.req.Publish?)
    ensures PublishesNothing(s, Do(s, step))
  {
    var pc := s.handlers[c].pc;
    if step.Advance? && AtTopic(pc) {
      NoPublication(s.topics[pc.t], TopicStep(pc, c, step.id));
    }
  }

  /** There it publishes what was asked for. */
  lemma PublishesTheRequest(s: Server, step: Step, c: ClientId)
    requires RegistryOk(s) && HandlersOk(s) && Enabled(s, step) && By(step, c) && c in s.handlers
    requires s.handlers[c].pc.Have? && s.handlers[c].pc.req.Publish?
    ensures var Publish(n, x, p) := s.handlers[c].pc.req;
      && n in s.registry && s.registry[n] < |s.topics|
      && PublishesJust(s, Do(s, step), Msg(step.id, n, x, p, s.topics[s.registry[n]].shared.seqNo + 1))
  {
    assert ReferenceOk(s, s.handlers[c].pc);
  }

  /** Of c's steps in [l, j) only k publishes, if k is one of them. */
  ghost predicate OnlyPublication(run: seq<Server>, steps: seq<Step>, c: ClientId, l: int, j: int, k: int) {
    |run| == |steps| + 1 && 0 <= l <= j < |run|
    && forall i :: l <= i < j && i != k && By(steps[i], c) ==> PublishesNothing(run[i], run[i + 1])
  }

  lemma {:induction false} NotifyingQuietly(run: seq<Server>, steps: seq<Step>, c: ClientId, l: nat, j: nat, k: nat)
    requires IsTrace(run, steps) && k < l <= j < |run|
    requires c in run[l].handlers && (run[l].handlers[c].pc.Notifying? || run[l].handlers[c].pc.Head?)
    requires forall i :: l <= i < j && c in run[i].handlers ==> !run[i].handlers[c].pc.Head?
    ensures OnlyPublication(run, steps, c, l, j, k)
    decreases j - l
  {
    if l < j {
      hide Do, PublishesNothing;
      assert StepTaken(run, steps, l);
      HandlerMoves(run[l], steps[l], c);
      if By(steps[l], c) {
        OtherwiseNothing(run[l], steps[l], c);
      }
      NotifyingQuietly(run, steps, c, l + 1, j, k);
    }
  }

  predicate BeforePublish(pc: Pc, req: Request) {
    (pc.Lookup? || pc.Missed? || pc.Have?) && pc.req == req
  }

  /** One step of anybody, seen from a publish request that has not been published yet. */
  lemma TowardsPublish(s: Server, step: Step, c: ClientId, req: Request)
    requires Inv(s) && Enabled(s, step)
    requires c in s.handlers && BeforePublish(s.handlers[c].pc, req) && req.Publish?
    ensures var s' := Do(s, step);
      && c in s'.handlers
      && (if By(step, c) && s.handlers[c].pc.Have?
          then step.Advance? && s'.handlers[c].pc.Notifying?
               && PublishesRequest(s, step, s', req)
          else BeforePublish(s'.handlers[c].pc, req) && (By(step, c) ==> PublishesNothing(s, s')))
  {
    hide Do, PublishesNothing, PublishesJust, TopicsOk;
    HandlerMoves(s, step, c);
    if By(step, c) {
      if s.handlers[c].pc.Have? {
        PublishesTheRequest(s, step, c);
      } else {
        OtherwiseNothing(s, step, c);
      }
    }
  }

  ghost predicate PublishesRequest(s: Server, step: Step, s': Server, req: Request) {
    && req.Publish? && step.Advance? && req.name in s.registry && s.registry[req.name] < |s.topics|
    && PublishesJust(s, s', Msg(step.id, req.name, req.content, req.priority,
                                s.topics[s.registry[req.name]].shared.seqNo + 1))
  }

  lemma {:induction false} PublishFrom(
      run: seq<Server>, steps: seq<Step>, c: ClientId, l: nat, j: nat, n: string, x: string, p: int)
      returns (k: nat, m: Msg)
    requires IsTrace(run, steps) && l <= j < |run| && Done(run, c, j)
    requires c in run[l].handlers && BeforePublish(run[l].handlers[c].pc, Publish(n, x, p))
    requires forall i :: l <= i < j && c in run[i].handlers ==> !run[i].handlers[c].pc.Head?
    ensures l <= k < j && By(steps[k], c) && steps[k].Advance?
    ensures m.id == steps[k].id && m.topic == n && m.content == x && m.priority == p
    ensures PublishesJust(run[k], run[k + 1], m) && OnlyPublication(run, steps, c, l, j, k)
    decreases j - l
  {
    hide Do, Enabled, PublishesNothing, PublishesJust, Inv, IsRun;
    assert StepTaken(run, steps, l);
    TraceIsRun(run, steps);
    RunKeepsInv(run, l);
    var s, step := run[l], steps[l];
    TowardsPublish(s, step, c, Publish(n, x, p));
    if By(step, c) && s.handlers[c].pc.Have? {
      k, m := l, Msg(step.id, n, x, p, s.topics[s.registry[n]].shared.seqNo + 1);
      NotifyingQuietly(run, steps, c, l + 1, j, k);
    } else {
      k, m := PublishFrom(run, steps, c, l + 1, j, n, x, p);
    }
  }

  /** A finished publish request was published exactly once, with the content and priority that
      were asked for and the id drawn for it, in the topic it named. */
  lemma PublishTakesEffect(
      run: seq<Server>, steps: seq<Step>, c: ClientId, i: nat, j: nat, n: string, x: string, p: int)
      returns (k: nat, m: Msg)
    requires Serves(run, steps, c, i, j) && Done(run, c, j) && steps[i] == Receive(c, Publish(n, x, p))
    ensures i < k < j && By(steps[k], c) && steps[k].Advance?
    ensures m.id == steps[k].id && m.topic == n && m.content == x && m.priority == p
    ensures PublishesJust(run[k], run[k + 1], m)
    ensures forall l :: i <= l < j && l != k && By(steps[l], c) ==> PublishesNothing(run[l], run[l + 1])
  {
    hide Do, PublishesNothing, PublishesJust;
    assert StepTaken(run, steps, i);
    HandlerMoves(run[i], steps[i], c);
    OtherwiseNothing(run[i], steps[i], c);
    k, m := PublishFrom(run, steps, c, i + 1, j, n, x, p);
  }

  // ---------- From the request to the subscribers ----------

  /** d neither subscribes nor unsubscribes from position `from` on. */
  ghost predicate StaysFrom(log: seq<T.Event>, from: nat, d: ClientId) {
    forall q :: from <= q < |log| ==> log[q] != T.Subscribed(d) && log[q] != T.Unsubscribed(d)
  }

  lemma StillInForce(log: seq<T.Event>, end: seq<T.Event>, d: ClientId, j: int)
    requires log <= end && T.InForce(log, d, j) && StaysFrom(end, |log|, d)
    ensures T.InForce(end, d, j)
  {
    assert forall q :: 0 <= q < |log| ==> end[q] == log[q];
  }

  lemma WasInForce(log: seq<T.Event>, end: seq<T.Event>, d: ClientId, j: int)
    requires log <= end && j < |log| && T.InForce(end, d, j)
    ensures T.InForce(log, d, j)
  {
    assert forall q :: 0 <= q < |log| ==> end[q] == log[q];
  }

  /** In one topic: a published message is sent, once, to everybody who was in the topic then
      and stayed ... */
  lemma TopicDelivers(t: T.Topic, m: Msg, end: T.Topic, d: ClientId)
    requires T.SubscribersMatch(t.shared, t.log) && TT.EverySubscriberServed(end.log)
    requires t.log + [T.Published(m)] <= end.log
    requires d in t.shared.subscribers && StaysFrom(end.log, |t.log|, d)
    ensures multiset(T.SentTo(end.log, d))[m] == 1
  {
    hide StaysFrom, T.InForce, T.PublishedIn, T.SentTo;
    assert end.log[|t.log|] == T.Published(m);
    var j :| T.InForce(t.log, d, j);
    StillInForce(t.log, end.log, d, j);
    InForceIsAt(t.log, d, j);
  }

  lemma InForceIsAt(log: seq<T.Event>, d: ClientId, j: int)
    requires T.InForce(log, d, j)
    ensures 0 <= j < |log|
  {
  }

  /** ... and to nobody who was not. */
  lemma NobodyElse(t: T.Topic, m: Msg, end: T.Topic, d: ClientId)
    requires T.SubscribersMatch(t.shared, t.log) && T.Inv(end)
    requires t.log + [T.Published(m)] <= end.log && m in T.SentTo(end.log, d)
    ensures d in t.shared.subscribers
  {
    hide T.Inv, T.EventOk, T.SentTo, T.InForce;
    var j, q, k := TT.SentWasDue(end, d, m);
    assert T.LogOk(end.log) by {
      LogIsOk(end);
    }
    assert end.log[|t.log|] == T.Published(m);
    hide T.LogOk;
    TT.OnePublication(end.log, q, |t.log|);
    assert t.log <= end.log[..k];
    WasInForce(t.log, end.log[..k], d, j);
  }

  lemma LogIsOk(t: T.Topic)
    requires T.Inv(t)
    ensures T.LogOk(t.log) && T.SubscribersMatch(t.shared, t.log)
  {
  }

  /** At rest, the message a publish request asked for has been sent exactly once to everybody
      who was subscribed when it was published and still is, and to nobody who was not. */
  lemma PublishIsDelivered(
      run: seq<Server>, steps: seq<Step>, c: ClientId, i: nat, j: nat, n: string, x: string, p: int, end: Server)
      returns (k: nat, m: Msg, t: nat)
    requires Serves(run, steps, c, i, j) && Done(run, c, j) && steps[i] == Receive(c, Publish(n, x, p))
    requires Inv(end) && Settled(end) && Grows(run[j], end)
    ensures i < k < j && PublishesJust(run[k], run[k + 1], m)
    ensures m.topic == n && m.content == x && m.priority == p
    ensures PointsTo(run[k], n, t) && PointsTo(end, n, t) && t < |run[k].topics| <= |end.topics|
    ensures forall d :: InTopic(run[k], d, n) && StaysFrom(end.topics[t].log, |run[k].topics[t].log|, d) ==>
              multiset(T.SentTo(end.topics[t].log, d))[m] == 1
    ensures forall d :: m in T.SentTo(end.topics[t].log, d) ==> InTopic(run[k], d, n)
  {
    k, m := PublishTakesEffect(run, steps, c, i, j, n, x, p);
    TraceIsRun(run, steps);
    RunKeepsInv(run, k);
    RunGrows(run, k + 1, j);
    GrowsOn(run[k + 1], run[j], end);
    SettledMeansDelivered(end);
    hide Serves, IsRun, Settled, StaysFrom;
    t := run[k].registry[n];
    assert StepTaken(run, steps, k);
    SharedGrows(run[k], steps[k]);
    hide Do, DoShared, Enabled, T.Inv;
    assert run[k + 1].topics[t].log <= end.topics[t].log;
    LogIsOk(run[k].topics[t]);
    hide T.SubscribersMatch, T.SentTo;
    var log := end.topics[t].log;
    forall d | InTopic(run[k], d, n) && StaysFrom(log, |run[k].topics[t].log|, d)
      ensures multiset(T.SentTo(log, d))[m] == 1
    {
      TopicDelivers(run[k].topics[t], m, end.topics[t], d);
    }
    forall d | m in T.SentTo(log, d) ensures InTopic(run[k], d, n) {
      NobodyElse(run[k].topics[t], m, end.topics[t], d);
    }
  }

  // ---------- Nothing else is published ----------

  /** A handler that works on a subscribe or publish request has read it. */
  lemma {:induction false} RequestBehind(
      run: seq<Server>, steps: seq<Step>, c: ClientId, l: nat, req: Request) returns (i: nat)
    requires IsTrace(run, steps) && l < |run| && c in run[l].handlers
    requires BeforePublish(run[l].handlers[c].pc, req)
    ensures Serves(run, steps, c, i, l) && steps[i] == Receive(c, req)
  {
    assert StepTaken(run, steps, l - 1);
    var s, step := run[l - 1], steps[l - 1];
    if By(step, c) && !step.Advance? {
      i := l - 1;
    } else {
      HandlerMoves(s, step, c);
      i := RequestBehind(run, steps, c, l - 1, req);
    }
  }

  lemma PublisherHasRequest(s: Server, step: Step)
    requires Enabled(s, step) && !PublishesNothing(s, Do(s, step))
    ensures step.Advance? && s.handlers[step.c].pc.Have? && s.handlers[step.c].pc.req.Publish?
  {
    if step.Dispatch? {
      NoPublication(s.topics[step.t], step.step);
    } else if !step.Connect? && !(s.handlers[step.c].pc.Have? && s.handlers[step.c].pc.req.Publish?) {
      OtherwiseNothing(s, step, step.c);
    }
  }

  /** Whatever is published in any topic was asked for by the client whose handler does it, in the
      request it is working on: the same topic, content and priority. */
  lemma PublicationWasAsked(run: seq<Server>, steps: seq<Step>, k: nat) returns (c: ClientId, i: nat, m: Msg)
    requires IsTrace(run, steps) && k < |steps| && !PublishesNothing(run[k], run[k + 1])
    ensures By(steps[k], c) && steps[k].Advance? && PublishesJust(run[k], run[k + 1], m)
    ensures Serves(run, steps, c, i, k) && steps[i] == Receive(c, Publish(m.topic, m.content, m.priority))
    ensures m.id == steps[k].id
  {
    hide Do, PublishesNothing, PublishesJust;
    assert StepTaken(run, steps, k);
    var s, step := run[k], steps[k];
    PublisherHasRequest(s, step);
    c := step.c;
    TraceIsRun(run, steps);
    RunKeepsInv(run, k);
    PublishesTheRequest(s, step, c);
    var req := s.handlers[c].pc.req;
    i := RequestBehind(run, steps, c, k, req);
    m := Msg(step.id, req.name, req.content, req.priority, s.topics[s.registry[req.name]].shared.seqNo + 1);
  }
}
