/** One topic of the broker as a step-level protocol: publishers, subscribers and the
    dispatcher goroutine interleave freely, every section under the topic's lock is one step.
    message-broker/server/topic.go and the publish/subscribe cases of server.go. */
module TopicProtocol {
  import opened Queue

  type ClientId = string

  /** The state the topic's lock protects, and its one-slot `notify` channel. */
  datatype Shared = Shared(
    name: string, seqNo: nat, heap: multiset<Msg>, subscribers: map<ClientId, nat>, token: bool)

  function NextMsg(s: Shared, id: nat, content: string, priority: int): Msg {
    Msg(id, s.name, content, priority, s.seqNo + 1)
  }

  function PublishShared(s: Shared, id: nat, content: string, priority: int): Shared {
    s.(seqNo := s.seqNo + 1, heap := s.heap + multiset{NextMsg(s, id, content, priority)})
  }

  function SubscribeShared(s: Shared, c: ClientId): Shared {
    s.(subscribers := s.subscribers[c := s.seqNo])
  }

  function UnsubscribeShared(s: Shared, c: ClientId): Shared {
    s.(subscribers := s.subscribers - {c})
  }

  /** Who joined before the message was numbered. */
  function Eligible(s: Shared, m: Msg): set<ClientId> {
    set c | c in s.subscribers && s.subscribers[c] < m.seqNo
  }

  /** Where the dispatcher goroutine stands. */
  datatype Dispatcher =
    | Waiting
    | Draining
    | Holding(msg: Msg)
    | Sending(msg: Msg, todo: set<ClientId>)

  datatype Event =
    | Published(msg: Msg)
    | Subscribed(client: ClientId)
    | Unsubscribed(client: ClientId)
    | Popped(msg: Msg)
    | Snapshot(msg: Msg, to: set<ClientId>)
    | Sent(client: ClientId, msg: Msg)

  /** `notifying`: publishers between their unlock and their non-blocking send on `notify`.
      `log`: everything that has happened, oldest first. */
  datatype Topic = Topic(shared: Shared, disp: Dispatcher, notifying: set<ClientId>, log: seq<Event>)

  datatype Step =
    | Publish(c: ClientId, id: nat, content: string, priority: int)
    | Notify(c: ClientId)
    | Subscribe(c: ClientId)
    | Unsubscribe(c: ClientId)
    | Wake
    | Pop(m: Msg)
    | PopNothing
    | TakeSnapshot
    | Send(c: ClientId)
    | EndSend

  function NewTopic(name: string): Topic {
    Topic(Shared(name, 0, multiset{}, map[], false), Waiting, {}, [])
  }

  ghost predicate Enabled(t: Topic, step: Step) {
    match step
    case Publish(c, _, _, _) => c !in t.notifying
    case Notify(c) => c in t.notifying
    case Subscribe(_) => true
    case Unsubscribe(_) => true
    case Wake => t.disp.Waiting? && t.shared.token
    case Pop(m) => t.disp.Draining? && IsLeast(m, t.shared.heap)
    case PopNothing => t.disp.Draining? && t.shared.heap == multiset{}
    case TakeSnapshot => t.disp.Holding?
    case Send(c) => t.disp.Sending? && c in t.disp.todo
    case EndSend => t.disp.Sending? && t.disp.todo == {}
  }

  /** What the step adds to the log. */
  function Trace(t: Topic, step: Step): seq<Event> {
    match step
    case Publish(_, id, content, priority) => [Published(NextMsg(t.shared, id, content, priority))]
    case Subscribe(c) => [Subscribed(c)]
    case Unsubscribe(c) => [Unsubscribed(c)]
    case Pop(m) => [Popped(m)]
    case TakeSnapshot => if t.disp.Holding? then [Snapshot(t.disp.msg, Eligible(t.shared, t.disp.msg))] else []
    case Send(c) => if t.disp.Sending? then [Sent(c, t.disp.msg)] else []
    case _ => []
  }

  ghost function Do(t: Topic, step: Step): Topic
    requires Enabled(t, step)
  {
    var s, t1 := t.shared, t.(log := t.log + Trace(t, step));
    match step
    case Publish(c, id, content, priority) =>
      t1.(shared := PublishShared(s, id, content, priority), notifying := t.notifying + {c})
    case Notify(c) => t1.(shared := s.(token := true), notifying := t.notifying - {c})
    case Subscribe(c) => t1.(shared := SubscribeShared(s, c))
    case Unsubscribe(c) => t1.(shared := UnsubscribeShared(s, c))
    case Wake => t1.(shared := s.(token := false), disp := Draining)
    case Pop(m) => t1.(shared := s.(heap := s.heap - multiset{m}), disp := Holding(m))
    case PopNothing => t1.(disp := Waiting)
    case TakeSnapshot => t1.(disp := Sending(t.disp.msg, Eligible(s, t.disp.msg)))
    case Send(c) => t1.(disp := Sending(t.disp.msg, t.disp.todo - {c}))
    case EndSend => t1.(disp := Draining)
  }

  // ---------- Reading the log ----------

  function Last(log: seq<Event>): Event
    requires |log| > 0
  {
    log[|log| - 1]
  }

  function Earlier(log: seq<Event>): seq<Event>
    requires |log| > 0
  {
    log[..|log| - 1]
  }

  function PublishedIn(log: seq<Event>): seq<Msg> {
    if log == [] then []
    else PublishedIn(Earlier(log)) + if Last(log).Published? then [Last(log).msg] else []
  }

  function PoppedIn(log: seq<Event>): seq<Msg> {
    if log == [] then []
    else PoppedIn(Earlier(log)) + if Last(log).Popped? then [Last(log).msg] else []
  }

  function SnapshotsIn(log: seq<Event>): seq<Msg> {
    if log == [] then []
    else SnapshotsIn(Earlier(log)) + if Last(log).Snapshot? then [Last(log).msg] else []
  }

  /** The messages whose snapshot names c, and those actually written to c, in order. */
  function DueTo(log: seq<Event>, c: ClientId): seq<Msg> {
    if log == [] then []
    else DueTo(Earlier(log), c) + if Last(log).Snapshot? && c in Last(log).to then [Last(log).msg] else []
  }

  function SentTo(log: seq<Event>, c: ClientId): seq<Msg> {
    if log == [] then []
    else SentTo(Earlier(log), c) + if Last(log).Sent? && Last(log).client == c then [Last(log).msg] else []
  }

  function Pending(log: seq<Event>): multiset<Msg> {
    multiset(PublishedIn(log)) - multiset(PoppedIn(log))
  }

  /** c's subscription in force at the end of the log was made at j. */
  ghost predicate InForce(log: seq<Event>, c: ClientId, j: int) {
    && 0 <= j < |log| && log[j] == Subscribed(c)
    && forall i :: j < i < |log| ==> log[i] != Subscribed(c) && log[i] != Unsubscribed(c)
  }

  /** The rule the broker promises, read off the log alone: c is subscribed now, and
      its latest subscribe happened before m was published. */
  ghost predicate ShouldReceive(log: seq<Event>, c: ClientId, m: Msg) {
    exists j, p :: 0 <= j < p < |log| && InForce(log, c, j) && log[p] == Published(m)
  }

  /** What must be true of an event, given the log before it: numbers are handed out in order,
      the least pending message is popped, and a snapshot is of the message popped last, with
      exactly the clients the rule names. */
  ghost predicate EventOk(before: seq<Event>, e: Event) {
    match e
    case Published(m) => m.seqNo == |PublishedIn(before)| + 1
    case Popped(m) => IsLeast(m, Pending(before))
    case Snapshot(m, to) =>
      && PoppedIn(before) == SnapshotsIn(before) + [m]
      && forall c :: c in to <==> ShouldReceive(before, c, m)
    case _ => true
  }

  ghost predicate LogOk(log: seq<Event>) {
    forall k :: 0 <= k < |log| ==> EventOk(log[..k], log[k])
  }

  // ---------- The invariant ----------

  ghost predicate Numbered(t: Topic) {
    && |PublishedIn(t.log)| == t.shared.seqNo
    && forall k :: 0 <= k < |PublishedIn(t.log)| ==> PublishedIn(t.log)[k].seqNo == k + 1
  }

  ghost predicate HeapIsPending(t: Topic) {
    multiset(PublishedIn(t.log)) == t.shared.heap + multiset(PoppedIn(t.log))
  }

  ghost predicate SnapshotsFollowPops(t: Topic) {
    PoppedIn(t.log) == SnapshotsIn(t.log) + if t.disp.Holding? then [t.disp.msg] else []
  }

  ghost predicate SendsFollowSnapshots(t: Topic) {
    forall c :: DueTo(t.log, c) ==
      SentTo(t.log, c) + if t.disp.Sending? && c in t.disp.todo then [t.disp.msg] else []
  }

  ghost predicate SubscribersMatch(s: Shared, log: seq<Event>) {
    && (forall c :: c in s.subscribers ==> exists j :: InForce(log, c, j))
    && (forall c, j :: InForce(log, c, j) ==>
          c in s.subscribers && s.subscribers[c] == |PublishedIn(log[..j])|)
  }

  /** A message waits only if someone is bound to look: the token is there, the dispatcher
      is draining, or a publisher has yet to do its send. */
  ghost predicate WillBeNoticed(t: Topic) {
    t.shared.heap != multiset{} ==> t.shared.token || !t.disp.Waiting? || t.notifying != {}
  }

  ghost predicate Inv(t: Topic) {
    && Numbered(t) && HeapIsPending(t) && SnapshotsFollowPops(t) && SendsFollowSnapshots(t)
    && SubscribersMatch(t.shared, t.log) && LogOk(t.log) && WillBeNoticed(t)
  }

  lemma NewTopicInv(name: string)
    ensures Inv(NewTopic(name))
  {
  }

  lemma OneEvent(t: Topic, step: Step)
    requires Enabled(t, step)
    ensures var log := Do(t, step).log;
      if Trace(t, step) == [] then log == t.log else log == t.log + [Trace(t, step)[0]]
  {
  }

  /** What a step does to every reading of the log. */
  lemma ExtendBy(t: Topic, step: Step)
    requires Enabled(t, step)
    ensures var log := Do(t, step).log;
      && PublishedIn(log) == PublishedIn(t.log) + (if step.Publish? then [Trace(t, step)[0].msg] else [])
      && PoppedIn(log) == PoppedIn(t.log) + (if step.Pop? then [step.m] else [])
      && SnapshotsIn(log) == SnapshotsIn(t.log) + (if step.TakeSnapshot? then [t.disp.msg] else [])
  {
    if Trace(t, step) == [] {
      assert t.log + [] == t.log;
    } else {
      assert Earlier(Do(t, step).log) == t.log;
    }
  }

  lemma ExtendTo(t: Topic, step: Step, c: ClientId)
    requires Enabled(t, step)
    ensures var log := Do(t, step).log;
      && DueTo(log, c) == DueTo(t.log, c) +
           (if step.TakeSnapshot? && c in Eligible(t.shared, t.disp.msg) then [t.disp.msg] else [])
      && SentTo(log, c) == SentTo(t.log, c) + (if step == Send(c) then [t.disp.msg] else [])
  {
    if Trace(t, step) == [] {
      assert t.log + [] == t.log;
    } else {
      assert Earlier(Do(t, step).log) == t.log;
    }
  }

  lemma ExtendOk(log: seq<Event>, e: Event)
    requires LogOk(log) && EventOk(log, e)
    ensures LogOk(log + [e])
  {
    forall k | 0 <= k < |log| + 1 ensures EventOk((log + [e])[..k], (log + [e])[k]) {
      assert (log + [e])[..k] == log[..k];
      assert log[..|log|] == log;
    }
  }

  /** An event that is not about c leaves c's subscription in force. */
  lemma InForceExtend(log: seq<Event>, e: Event, c: ClientId, j: int)
    requires e != Subscribed(c) && e != Unsubscribed(c)
    ensures InForce(log + [e], c, j) <==> InForce(log, c, j)
  {
    if InForce(log + [e], c, j) {
      assert forall i :: j < i < |log| ==> log[i] == (log + [e])[i];
    }
  }

  lemma SubscribersExtend(s: Shared, log: seq<Event>, e: Event)
    requires SubscribersMatch(s, log) && !e.Subscribed? && !e.Unsubscribed?
    ensures SubscribersMatch(s, log + [e])
  {
    forall c, j ensures InForce(log + [e], c, j) <==> InForce(log, c, j) {
      InForceExtend(log, e, c, j);
    }
    forall c, j | InForce(log + [e], c, j)
      ensures c in s.subscribers && s.subscribers[c] == |PublishedIn((log + [e])[..j])|
    {
      assert (log + [e])[..j] == log[..j];
    }
  }

  lemma SubscribersAfterSubscribe(s: Shared, log: seq<Event>, c: ClientId)
    requires SubscribersMatch(s, log) && s.seqNo == |PublishedIn(log)|
    ensures SubscribersMatch(SubscribeShared(s, c), log + [Subscribed(c)])
  {
    var s', log' := SubscribeShared(s, c), log + [Subscribed(c)];
    forall d, j ensures InForce(log', d, j) <==> if d == c then j == |log| else InForce(log, d, j) {
      if d != c {
        InForceExtend(log, Subscribed(c), d, j);
      } else if 0 <= j < |log| {
        assert log'[|log|] == Subscribed(c);
      }
    }
    assert InForce(log', c, |log|);
    forall d, j | InForce(log', d, j)
      ensures d in s'.subscribers && s'.subscribers[d] == |PublishedIn(log'[..j])|
    {
      assert log'[..j] == log[..j];
      assert log[..|log|] == log;
    }
    forall d | d in s'.subscribers ensures exists j :: InForce(log', d, j) {
      if d != c {
        var j :| InForce(log, d, j);
        assert InForce(log', d, j);
      }
    }
  }

  lemma SubscribersAfterUnsubscribe(s: Shared, log: seq<Event>, c: ClientId)
    requires SubscribersMatch(s, log)
    ensures SubscribersMatch(UnsubscribeShared(s, c), log + [Unsubscribed(c)])
  {
    var s', log' := UnsubscribeShared(s, c), log + [Unsubscribed(c)];
    forall d, j ensures InForce(log', d, j) <==> d != c && InForce(log, d, j) {
      if d != c {
        InForceExtend(log, Unsubscribed(c), d, j);
      } else {
        assert log'[|log|] == Unsubscribed(c);
      }
    }
    forall d, j | InForce(log', d, j)
      ensures d in s'.subscribers && s'.subscribers[d] == |PublishedIn(log'[..j])|
    {
      assert log'[..j] == log[..j];
    }
  }

  lemma {:induction false} PublishedMonotone(log: seq<Event>, i: nat, j: nat)
    requires i <= j <= |log|
    ensures |PublishedIn(log[..i])| <= |PublishedIn(log[..j])|
    ensures forall k :: i <= k < j && log[k].Published? ==> |PublishedIn(log[..i])| < |PublishedIn(log[..j])|
    decreases j - i
  {
    if i < j {
      PublishedMonotone(log, i, j - 1);
      assert Earlier(log[..j]) == log[..j - 1];
    }
  }

  lemma {:induction false} PublishedSomewhere(log: seq<Event>, m: Msg) returns (p: int)
    requires m in PublishedIn(log)
    ensures 0 <= p < |log| && log[p] == Published(m)
  {
    if Last(log) == Published(m) {
      p := |log| - 1;
    } else {
      p := PublishedSomewhere(Earlier(log), m);
    }
  }

  lemma {:induction false} PublishedIsIn(log: seq<Event>, p: int)
    requires 0 <= p < |log| && log[p].Published?
    ensures log[p].msg in PublishedIn(log)
  {
    if p < |log| - 1 {
      PublishedIsIn(Earlier(log), p);
    }
  }

  /** Comparing joinedSeq with the message number is comparing positions in the log. */
  lemma EligibleIsShouldReceive(t: Topic, m: Msg, c: ClientId)
    requires SubscribersMatch(t.shared, t.log) && LogOk(t.log) && m in PublishedIn(t.log)
    ensures c in Eligible(t.shared, m) <==> ShouldReceive(t.log, c, m)
  {
    var log := t.log;
    if c in t.shared.subscribers {
      var j :| InForce(log, c, j);
      forall p | 0 <= p < |log| && log[p] == Published(m)
        ensures j < p <==> t.shared.subscribers[c] < m.seqNo
      {
        assert EventOk(log[..p], log[p]);
        if j < p {
          PublishedMonotone(log, j, p);
        } else {
          PublishedMonotone(log, p, j);
        }
      }
      var p := PublishedSomewhere(log, m);
    }
  }

  lemma NumberedKept(t: Topic, step: Step)
    requires Numbered(t) && Enabled(t, step)
    ensures Numbered(Do(t, step))
  {
    ExtendBy(t, step);
    if !step.Publish? {
      assert PublishedIn(Do(t, step).log) == PublishedIn(t.log);
    }
  }

  lemma HeapIsPendingKept(t: Topic, step: Step)
    requires HeapIsPending(t) && Enabled(t, step)
    ensures HeapIsPending(Do(t, step))
  {
    ExtendBy(t, step);
  }

  lemma SnapshotsFollowPopsKept(t: Topic, step: Step)
    requires SnapshotsFollowPops(t) && Enabled(t, step)
    ensures SnapshotsFollowPops(Do(t, step))
  {
    ExtendBy(t, step);
  }

  lemma SendsFollowSnapshotsKept(t: Topic, step: Step)
    requires SendsFollowSnapshots(t) && Enabled(t, step)
    ensures SendsFollowSnapshots(Do(t, step))
  {
    var t' := Do(t, step);
    forall c ensures DueTo(t'.log, c) ==
      SentTo(t'.log, c) + if t'.disp.Sending? && c in t'.disp.todo then [t'.disp.msg] else []
    {
      assert DueTo(t.log, c) ==
        SentTo(t.log, c) + if t.disp.Sending? && c in t.disp.todo then [t.disp.msg] else [];
      ExtendTo(t, step, c);
    }
  }

  lemma SameSubscribers(s: Shared, s': Shared, log: seq<Event>)
    requires SubscribersMatch(s, log) && s'.subscribers == s.subscribers
    ensures SubscribersMatch(s', log)
  {
  }

  lemma SubscribersMatchKept(t: Topic, step: Step)
    requires SubscribersMatch(t.shared, t.log) && Numbered(t) && Enabled(t, step)
    ensures SubscribersMatch(Do(t, step).shared, Do(t, step).log)
  {
    var t' := Do(t, step);
    if step.Subscribe? {
      SubscribersAfterSubscribe(t.shared, t.log, step.c);
    } else if step.Unsubscribe? {
      SubscribersAfterUnsubscribe(t.shared, t.log, step.c);
    } else {
      OneEvent(t, step);
      if Trace(t, step) != [] {
        SubscribersExtend(t.shared, t.log, Trace(t, step)[0]);
      }
      SameSubscribers(t.shared, t'.shared, t'.log);
    }
  }

  lemma SnapshotOk(t: Topic)
    requires Inv(t) && t.disp.Holding?
    ensures EventOk(t.log, Snapshot(t.disp.msg, Eligible(t.shared, t.disp.msg)))
  {
    var m := t.disp.msg;
    assert PoppedIn(t.log)[|PoppedIn(t.log)| - 1] == m;
    assert m in multiset(PoppedIn(t.log));
    assert m in multiset(PublishedIn(t.log));
    forall c ensures c in Eligible(t.shared, m) <==> ShouldReceive(t.log, c, m) {
      EligibleIsShouldReceive(t, m, c);
    }
  }

  lemma LogOkKept(t: Topic, step: Step)
    requires Inv(t) && Enabled(t, step)
    ensures LogOk(Do(t, step).log)
  {
    OneEvent(t, step);
    if Trace(t, step) != [] {
      assert EventOk(t.log, Trace(t, step)[0]) by {
        match step
        case Pop(_) => assert Pending(t.log) == t.shared.heap;
        case TakeSnapshot => SnapshotOk(t);
        case _ =>
      }
      ExtendOk(t.log, Trace(t, step)[0]);
    }
  }

  lemma WillBeNoticedKept(t: Topic, step: Step)
    requires WillBeNoticed(t) && Enabled(t, step)
    ensures WillBeNoticed(Do(t, step))
  {
    if step.Publish? {
      assert step.c in Do(t, step).notifying;
    }
  }

  /** Whoever moves next, the invariant is kept. */
  lemma StepKeepsInv(t: Topic, step: Step)
    requires Inv(t) && Enabled(t, step)
    ensures Inv(Do(t, step))
  {
    NumberedKept(t, step);
    HeapIsPendingKept(t, step);
    SnapshotsFollowPopsKept(t, step);
    SendsFollowSnapshotsKept(t, step);
    SubscribersMatchKept(t, step);
    LogOkKept(t, step);
    WillBeNoticedKept(t, step);
  }
}
