/** The whole broker: client handlers, double-checked topic creation, the topics' dispatchers,
    and the two-sided subscription index. message-broker/server/server.go. */
module ServerProtocol {
  import T = TopicProtocol

  type ClientId = T.ClientId

  datatype Request =
    | Subscribe(name: string)
    | Publish(name: string, content: string, priority: int)

  /** Where a handler goroutine stands between two atomic sections. Topic objects are
      named by their position in `Server.topics`. */
  datatype Pc =
    | Head                                              // about to read the next request
    | Lookup(req: Request)                              // GetTopic, before the read lock
    | Missed(req: Request)                              // GetTopic, between read and write lock
    | Have(req: Request, t: nat)                        // GetTopic has returned
    | Notifying(t: nat)                                 // message pushed, send on notify to come
    | Joined(name: string)                              // in the topic, not yet in c.subs
    | UnsubLookup(name: string)
    | UnsubHave(name: string, t: nat)
    | Left(name: string)                                // out of the topic, not yet out of c.subs
    | Leaving                                           // removeClient, before the subs snapshot
    | Dropping(todo: set<string>)
    | DroppingHave(name: string, t: nat, todo: set<string>)
    | Gone

  datatype Handler = Handler(pc: Pc, subs: set<string>)

  datatype Server = Server(
    registry: map<string, nat>, topics: seq<T.Topic>, handlers: map<ClientId, Handler>)

  const INITIAL := Server(map[], [], map[])

  /** `id` is the message's fresh UUID; `pick` the next key of a range over a map. */
  datatype Step =
    | Connect(c: ClientId)
    | Receive(c: ClientId, req: Request)
    | ReceiveUnsubscribe(c: ClientId, name: string)
    | Hangup(c: ClientId)
    | Advance(c: ClientId, id: nat, pick: string)
    | Dispatch(t: nat, step: T.Step)

  predicate ByDispatcher(step: T.Step) {
    step.Wake? || step.Pop? || step.PopNothing? || step.TakeSnapshot? || step.Send? || step.EndSend?
  }

  function TopicStep(pc: Pc, c: ClientId, id: nat): T.Step {
    match pc
    case Have(Publish(_, content, priority), _) => T.Publish(c, id, content, priority)
    case Notifying(_) => T.Notify(c)
    case Have(Subscribe(_), _) => T.Subscribe(c)
    case _ => T.Unsubscribe(c)
  }

  predicate AtTopic(pc: Pc) {
    pc.Have? || pc.Notifying? || pc.UnsubHave? || pc.DroppingHave?
  }

  ghost predicate Enabled(s: Server, step: Step) {
    match step
    case Connect(c) => c !in s.handlers
    case Receive(c, _) => c in s.handlers && s.handlers[c].pc.Head?
    case ReceiveUnsubscribe(c, _) => c in s.handlers && s.handlers[c].pc.Head?
    case Hangup(c) => c in s.handlers && s.handlers[c].pc.Head?
    case Advance(c, id, pick) =>
      && c in s.handlers && !s.handlers[c].pc.Head? && !s.handlers[c].pc.Gone?
      && (var pc := s.handlers[c].pc;
          && (AtTopic(pc) ==> pc.t < |s.topics| && T.Enabled(s.topics[pc.t], TopicStep(pc, c, id)))
          && (pc.Dropping? && pc.todo != {} ==> pick in pc.todo))
    case Dispatch(t, st) => t < |s.topics| && ByDispatcher(st) && T.Enabled(s.topics[t], st)
  }

  function AfterTopic(pc: Pc): Pc
    requires AtTopic(pc)
  {
    match pc
    case Have(Subscribe(name), _) => Joined(name)
    case Have(Publish(_, _, _), t) => Notifying(t)
    case Notifying(_) => Head
    case UnsubHave(name, _) => Left(name)
    case DroppingHave(_, _, todo) => Dropping(todo)
  }

  ghost function DoTopic(s: Server, t: nat, st: T.Step): Server
    requires t < |s.topics| && T.Enabled(s.topics[t], st)
  {
    s.(topics := s.topics[t := T.Do(s.topics[t], st)])
  }

  function Create(s: Server, name: string): Server {
    s.(registry := s.registry[name := |s.topics|], topics := s.topics + [T.NewTopic(name)])
  }

  /** What a step does to the registry and the topics. */
  ghost function DoShared(s: Server, step: Step): Server
    requires Enabled(s, step)
  {
    match step
    case Advance(c, id, _) =>
      var pc := s.handlers[c].pc;
      if AtTopic(pc) then DoTopic(s, pc.t, TopicStep(pc, c, id))
      else if pc.Missed? && pc.req.name !in s.registry then Create(s, pc.req.name)
      else s
    case Dispatch(t, st) => DoTopic(s, t, st)
    case _ => s
  }

  /** What a step makes of the handler that takes it; `r` is the registry after the step. */
  function NewHandler(h: Handler, step: Step, r: map<string, nat>): Handler {
    match step
    case Receive(_, req) => h.(pc := Lookup(req))
    case ReceiveUnsubscribe(_, name) => h.(pc := UnsubLookup(name))
    case Hangup(_) => h.(pc := Leaving)
    case Advance(_, _, pick) =>
      if AtTopic(h.pc) then h.(pc := AfterTopic(h.pc)) else
      (match h.pc
       case Lookup(req) => h.(pc := if req.name in r then Have(req, r[req.name]) else Missed(req))
       case Missed(req) => if req.name in r then h.(pc := Have(req, r[req.name])) else h
       case Joined(name) => Handler(Head, h.subs + {name})
       case UnsubLookup(name) => h.(pc := if name in r then UnsubHave(name, r[name]) else Left(name))
       case Left(name) => Handler(Head, h.subs - {name})
       case Leaving => Handler(Dropping(h.subs), {})
       case Dropping(todo) =>
         h.(pc := if todo == {} then Gone
                  else if pick in r then DroppingHave(pick, r[pick], todo - {pick})
                  else Dropping(todo - {pick}))
       case _ => h)
    case _ => h
  }

  ghost function Do(s: Server, step: Step): Server
    requires Enabled(s, step)
  {
    var s1 := DoShared(s, step);
    match step
    case Connect(c) => s1.(handlers := s.handlers[c := Handler(Head, {})])
    case Dispatch(_, _) => s1
    case _ => s1.(handlers := s.handlers[step.c := NewHandler(s.handlers[step.c], step, s1.registry)])
  }

  // ---------- The invariant ----------

  /** One topic object per name, and one name per topic object. */
  ghost predicate RegistryOk(s: Server) {
    && (forall n :: n in s.registry ==> s.registry[n] < |s.topics| && s.topics[s.registry[n]].shared.name == n)
    && (forall t :: 0 <= t < |s.topics| ==>
          s.topics[t].shared.name in s.registry && s.registry[s.topics[t].shared.name] == t)
  }

  predicate PointsTo(s: Server, name: string, t: nat) {
    name in s.registry && s.registry[name] == t
  }

  /** A handler that holds a topic holds the registered one. */
  ghost predicate ReferenceOk(s: Server, pc: Pc) {
    match pc
    case Have(req, t) => PointsTo(s, req.name, t)
    case UnsubHave(name, t) => PointsTo(s, name, t)
    case DroppingHave(name, t, todo) => PointsTo(s, name, t) && name !in todo
    case Notifying(t) => t < |s.topics|
    case _ => true
  }

  predicate InTopic(s: Server, c: ClientId, n: string) {
    && n in s.registry && s.registry[n] < |s.topics|
    && c in s.topics[s.registry[n]].shared.subscribers
  }

  /** Which topics hold c, given where c's handler stands. */
  predicate MemberOf(h: Handler, n: string) {
    match h.pc
    case Joined(m) => n == m || n in h.subs
    case Left(m) => n != m && n in h.subs
    case Dropping(todo) => n in todo
    case DroppingHave(m, _, todo) => n == m || n in todo
    case Gone => false
    case _ => n in h.subs
  }

  ghost predicate IndexOk(s: Server) {
    forall c, n :: InTopic(s, c, n) <==> c in s.handlers && MemberOf(s.handlers[c], n)
  }

  ghost predicate HandlersOk(s: Server) {
    forall c :: c in s.handlers ==> ReferenceOk(s, s.handlers[c].pc)
  }

  ghost predicate NotifyOk(s: Server) {
    forall t, c :: 0 <= t < |s.topics| ==>
      (c in s.topics[t].notifying <==> c in s.handlers && s.handlers[c].pc == Notifying(t))
  }

  ghost predicate TopicsOk(s: Server) {
    forall t :: 0 <= t < |s.topics| ==> T.Inv(s.topics[t])
  }

  /** The handlers, the registry and the topics agree with each other. */
  ghost predicate Wired(s: Server) {
    RegistryOk(s) && HandlersOk(s) && NotifyOk(s) && IndexOk(s)
  }

  ghost predicate Inv(s: Server) {
    Wired(s) && TopicsOk(s)
  }

  /** What every step leaves in place: topics keep their position, name and past. */
  ghost predicate Grows(s: Server, s': Server) {
    && |s.topics| <= |s'.topics|
    && (forall t :: 0 <= t < |s.topics| ==>
          s'.topics[t].shared.name == s.topics[t].shared.name && s.topics[t].log <= s'.topics[t].log)
    && (forall n :: n in s.registry ==> n in s'.registry && s'.registry[n] == s.registry[n])
  }

  lemma TopicStepEffect(t: T.Topic, st: T.Step)
    requires T.Enabled(t, st)
    ensures T.Do(t, st).shared.name == t.shared.name && t.log <= T.Do(t, st).log
    ensures T.Do(t, st).notifying ==
              if st.Publish? then t.notifying + {st.c} else if st.Notify? then t.notifying - {st.c} else t.notifying
    ensures T.Do(t, st).shared.subscribers.Keys ==
              if st.Subscribe? then t.shared.subscribers.Keys + {st.c}
              else if st.Unsubscribe? then t.shared.subscribers.Keys - {st.c} else t.shared.subscribers.Keys
  {
    match st
    case Publish(c, id, content, priority) =>
    case Notify(c) =>
    case Subscribe(c) =>
    case Unsubscribe(c) =>
    case _ =>
  }

  lemma DoTopicGrows(s: Server, t: nat, st: T.Step)
    requires RegistryOk(s) && t < |s.topics| && T.Enabled(s.topics[t], st)
    ensures RegistryOk(DoTopic(s, t, st)) && Grows(s, DoTopic(s, t, st))
  {
    TopicStepEffect(s.topics[t], st);
  }

  lemma CreateGrows(s: Server, name: string)
    requires RegistryOk(s) && name !in s.registry
    ensures RegistryOk(Create(s, name)) && Grows(s, Create(s, name))
  {
  }

  lemma SharedGrows(s: Server, step: Step)
    requires RegistryOk(s) && Enabled(s, step)
    ensures RegistryOk(DoShared(s, step)) && Grows(s, DoShared(s, step))
    ensures DoShared(s, step).handlers == s.handlers
  {
    if step.Dispatch? {
      DoTopicGrows(s, step.t, step.step);
    } else if step.Advance? {
      var pc := s.handlers[step.c].pc;
      if AtTopic(pc) {
        DoTopicGrows(s, pc.t, TopicStep(pc, step.c, step.id));
      } else if pc.Missed? && pc.req.name !in s.registry {
        CreateGrows(s, pc.req.name);
      }
    }
  }

  lemma ReferenceGrows(s: Server, s': Server, pc: Pc)
    requires ReferenceOk(s, pc) && Grows(s, s')
    ensures ReferenceOk(s', pc)
  {
  }

  lemma NewReferenceOk(s: Server, h: Handler, step: Step)
    requires ReferenceOk(s, h.pc) && RegistryOk(s)
    ensures ReferenceOk(s, NewHandler(h, step, s.registry).pc)
  {
  }

  lemma HandlersKept(s: Server, step: Step)
    requires RegistryOk(s) && HandlersOk(s) && Enabled(s, step)
    ensures HandlersOk(Do(s, step)) && RegistryOk(Do(s, step))
  {
    var s1, s' := DoShared(s, step), Do(s, step);
    SharedGrows(s, step);
    forall c | c in s'.handlers ensures ReferenceOk(s', s'.handlers[c].pc) {
      if c in s.handlers {
        ReferenceGrows(s, s1, s.handlers[c].pc);
        NewReferenceOk(s1, s.handlers[c], step);
      }
      var pc := s'.handlers[c].pc;
      assert ReferenceOk(s1, pc);
      assert s'.registry == s1.registry && s'.topics == s1.topics;
    }
  }

  lemma DoTopicKeepsInv(s: Server, t: nat, st: T.Step)
    requires TopicsOk(s) && t < |s.topics| && T.Enabled(s.topics[t], st)
    ensures TopicsOk(DoTopic(s, t, st))
  {
    T.StepKeepsInv(s.topics[t], st);
  }

  lemma TopicsKept(s: Server, step: Step)
    requires TopicsOk(s) && Enabled(s, step)
    ensures TopicsOk(Do(s, step))
  {
    if step.Dispatch? {
      DoTopicKeepsInv(s, step.t, step.step);
    } else if step.Advance? {
      var pc := s.handlers[step.c].pc;
      if AtTopic(pc) {
        DoTopicKeepsInv(s, pc.t, TopicStep(pc, step.c, step.id));
      } else if pc.Missed? {
        T.NewTopicInv(pc.req.name);
      }
    }
  }

  /** Only a handler's own publish and notify change whether it is counted as notifying. */
  lemma NotifyingAfter(s: Server, step: Step, t: int, d: ClientId)
    requires RegistryOk(s) && HandlersOk(s) && NotifyOk(s) && Enabled(s, step)
    requires 0 <= t < |DoShared(s, step).topics|
    ensures d in DoShared(s, step).topics[t].notifying <==>
      if step.Advance? && step.c == d && AtTopic(s.handlers[d].pc)
      then AfterTopic(s.handlers[d].pc) == Notifying(t)
      else d in s.handlers && s.handlers[d].pc == Notifying(t)
  {
    match step {
      case Advance(c, id, _) =>
        var pc := s.handlers[c].pc;
        if AtTopic(pc) {
          TopicStepEffect(s.topics[pc.t], TopicStep(pc, c, id));
          assert t != pc.t ==> DoShared(s, step).topics[t] == s.topics[t];
        } else {
          assert t < |s.topics| ==> DoShared(s, step).topics[t] == s.topics[t];
        }
      case Dispatch(u, st) => TopicStepEffect(s.topics[u], st);
      case _ =>
    }
  }

  lemma NotifyKept(s: Server, step: Step)
    requires RegistryOk(s) && HandlersOk(s) && NotifyOk(s) && Enabled(s, step)
    ensures NotifyOk(Do(s, step))
  {
    var s' := Do(s, step);
    forall t, d | 0 <= t < |s'.topics|
      ensures d in s'.topics[t].notifying <==> d in s'.handlers && s'.handlers[d].pc == Notifying(t)
    {
      NotifyingAfter(s, step, t, d);
    }
  }

  /** Only a handler's own sections change whether a topic holds its client. */
  lemma InTopicAfter(s: Server, step: Step, d: ClientId, n: string)
    requires RegistryOk(s) && HandlersOk(s) && Enabled(s, step)
    ensures InTopic(DoShared(s, step), d, n) <==>
      if step.Advance? && step.c == d then
        (match s.handlers[d].pc
         case Have(Subscribe(m), _) => n == m || InTopic(s, d, n)
         case UnsubHave(m, _) => n != m && InTopic(s, d, n)
         case DroppingHave(m, _, _) => n != m && InTopic(s, d, n)
         case _ => InTopic(s, d, n))
      else InTopic(s, d, n)
  {
    match step {
      case Advance(c, id, _) =>
        var pc := s.handlers[c].pc;
        if AtTopic(pc) {
          TopicStepEffect(s.topics[pc.t], TopicStep(pc, c, id));
          assert ReferenceOk(s, pc);
        }
      case Dispatch(u, st) => TopicStepEffect(s.topics[u], st);
      case _ =>
    }
  }

  lemma MemberAfter(s: Server, step: Step, d: ClientId, n: string)
    requires RegistryOk(s) && HandlersOk(s) && IndexOk(s) && Enabled(s, step)
    requires d in s.handlers && !step.Dispatch? && !step.Connect? && step.c == d
    ensures var s1 := DoShared(s, step);
      InTopic(s1, d, n) <==> MemberOf(NewHandler(s.handlers[d], step, s1.registry), n)
  {
    InTopicAfter(s, step, d, n);
    assert InTopic(s, d, n) <==> MemberOf(s.handlers[d], n);
    if step.Advance? && s.handlers[d].pc.DroppingHave? {
      assert ReferenceOk(s, s.handlers[d].pc);
    }
  }

  lemma IndexKept(s: Server, step: Step)
    requires RegistryOk(s) && HandlersOk(s) && IndexOk(s) && Enabled(s, step)
    ensures IndexOk(Do(s, step))
  {
    var s1, s' := DoShared(s, step), Do(s, step);
    forall d, n ensures InTopic(s', d, n) <==> d in s'.handlers && MemberOf(s'.handlers[d], n) {
      assert InTopic(s', d, n) == InTopic(s1, d, n);
      if step.Dispatch? || step.c != d {
        InTopicAfter(s, step, d, n);
        assert InTopic(s, d, n) <==> d in s.handlers && MemberOf(s.handlers[d], n);
      } else if step.Connect? {
        assert !InTopic(s, d, n);
      } else {
        MemberAfter(s, step, d, n);
      }
    }
  }

  lemma StepKeepsInv(s: Server, step: Step)
    requires Inv(s) && Enabled(s, step)
    ensures Inv(Do(s, step))
  {
    HandlersKept(s, step);
    NotifyKept(s, step);
    IndexKept(s, step);
    TopicsKept(s, step);
  }

  // ---------- Runs ----------

  ghost predicate Next(s: Server, s': Server) {
    exists step :: Enabled(s, step) && s' == Do(s, step)
  }

  ghost predicate StepAt(run: seq<Server>, i: int)
    requires 0 < i < |run|
  {
    Next(run[i - 1], run[i])
  }

  ghost predicate IsRun(run: seq<Server>) {
    |run| > 0 && run[0] == INITIAL && forall i :: 0 < i < |run| ==> StepAt(run, i)
  }

  /** Every state of every run satisfies the invariant. */
  lemma {:induction false} RunKeepsInv(run: seq<Server>, i: nat)
    requires IsRun(run) && i < |run|
    ensures Inv(run[i])
  {
    if i > 0 {
      RunKeepsInv(run, i - 1);
      assert StepAt(run, i);
      var step :| Enabled(run[i - 1], step) && run[i] == Do(run[i - 1], step);
      StepKeepsInv(run[i - 1], step);
    }
  }
}
