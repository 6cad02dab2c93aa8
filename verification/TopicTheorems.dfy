/** What the topic protocol guarantees over whole runs: no lost wake-up, complete dispatch,
    priority and publication order, and exact delivery. */
module TopicTheorems {
  import opened Basics
  import opened Queue
  import opened TopicProtocol

  /** Steps nobody has to ask for: a publisher finishing, and everything the dispatcher does. */
  predicate Internal(step: Step) {
    !step.Publish? && !step.Subscribe? && !step.Unsubscribe?
  }

  ghost predicate Idle(t: Topic) {
    forall step :: Internal(step) ==> !Enabled(t, step)
  }

  lemma {:induction false} LeastExists(ms: multiset<Msg>) returns (m: Msg)
    requires ms != multiset{}
    ensures IsLeast(m, ms)
    decreases |ms|
  {
    var x :| x in ms;
    var rest := ms - multiset{x};
    assert forall y :: y in ms ==> y == x || y in rest;
    if rest == multiset{} {
      m := x;
    } else {
      var y := LeastExists(rest);
      m := if Before(x, y) then x else y;
    }
  }

  // ---------- Reading a correct log ----------

  lemma {:induction false} PoppedSomewhere(log: seq<Event>, m: Msg) returns (q: int)
    requires m in PoppedIn(log)
    ensures 0 <= q < |log| && log[q] == Popped(m)
  {
    if Last(log) == Popped(m) {
      q := |log| - 1;
    } else {
      q := PoppedSomewhere(Earlier(log), m);
    }
  }

  lemma {:induction false} SnapshotSomewhere(log: seq<Event>, m: Msg) returns (k: int)
    requires m in SnapshotsIn(log)
    ensures 0 <= k < |log| && log[k].Snapshot? && log[k].msg == m
  {
    if Last(log).Snapshot? && Last(log).msg == m {
      k := |log| - 1;
    } else {
      k := SnapshotSomewhere(Earlier(log), m);
    }
  }

  /** No message is published twice. */
  lemma OnePublication(log: seq<Event>, p: int, q: int)
    requires LogOk(log) && 0 <= p < |log| && 0 <= q < |log|
    requires log[p].Published? && log[p] == log[q]
    ensures p == q
  {
    assert EventOk(log[..p], log[p]) && EventOk(log[..q], log[q]);
    PublishedMonotone(log, if p < q then p else q, if p < q then q else p);
  }

  /** A pop comes after the publication of what is popped. */
  lemma PopFollowsPublication(log: seq<Event>, q: int) returns (p: int)
    requires LogOk(log) && 0 <= q < |log| && log[q].Popped?
    ensures 0 <= p < q && log[p] == Published(log[q].msg)
  {
    assert EventOk(log[..q], log[q]);
    assert log[q].msg in multiset(PublishedIn(log[..q]));
    p := PublishedSomewhere(log[..q], log[q].msg);
  }

  /** So does a snapshot: it is of the message popped last. */
  lemma SnapshotFollowsPublication(log: seq<Event>, k: int) returns (p: int)
    requires LogOk(log) && 0 <= k < |log| && log[k].Snapshot?
    ensures 0 <= p < k && log[p] == Published(log[k].msg)
  {
    var before := log[..k];
    assert EventOk(before, log[k]);
    assert PoppedIn(before)[|SnapshotsIn(before)|] == log[k].msg;
    var q := PoppedSomewhere(before, log[k].msg);
    p := PopFollowsPublication(log, q);
  }

  lemma InForceEarlier(log: seq<Event>, c: ClientId, j: int, k: int)
    requires InForce(log, c, j) && j < k <= |log|
    ensures InForce(log[..k], c, j)
  {
  }

  /** The snapshot of a message names exactly the clients whose subscription in force at that
      moment was made before the message was published. */
  lemma SnapshotIsExact(log: seq<Event>, k: int, p: int, c: ClientId)
    requires LogOk(log) && 0 <= k < |log| && log[k].Snapshot?
    requires 0 <= p < |log| && log[p] == Published(log[k].msg)
    ensures p < k && (c in log[k].to <==> exists j :: j < p && InForce(log[..k], c, j))
  {
    var p' := SnapshotFollowsPublication(log, k);
    OnePublication(log, p, p');
    var before, m := log[..k], log[k].msg;
    assert EventOk(before, log[k]);
    assert before[p] == Published(m);
    if ShouldReceive(before, c, m) {
      var j, q :| 0 <= j < q < |before| && InForce(before, c, j) && before[q] == Published(m);
      OnePublication(log, p, q);
    }
  }

  lemma {:induction false} NamedIsDue(log: seq<Event>, k: int, c: ClientId)
    requires 0 <= k < |log| && log[k].Snapshot? && c in log[k].to
    ensures log[k].msg in DueTo(log, c)
  {
    if k < |log| - 1 {
      NamedIsDue(Earlier(log), k, c);
    }
  }

  lemma {:induction false} DueIsNamed(log: seq<Event>, c: ClientId, m: Msg) returns (k: int)
    requires m in DueTo(log, c)
    ensures 0 <= k < |log| && log[k].Snapshot? && log[k].msg == m && c in log[k].to
  {
    if Last(log).Snapshot? && Last(log).msg == m && c in Last(log).to {
      k := |log| - 1;
    } else {
      k := DueIsNamed(Earlier(log), c, m);
    }
  }

  // ---------- Dispatch order ----------

  lemma StillPending(log: seq<Event>, m: Msg)
    requires m in PublishedIn(log) && m !in PoppedIn(log)
    ensures m in Pending(log)
  {
    assert m in multiset(PublishedIn(log)) && m !in multiset(PoppedIn(log));
  }

  /** A message that precedes m2 and was published before m2 left the heap left before m2. */
  lemma PriorityOrder(log: seq<Event>, p1: int, q2: int)
    requires LogOk(log) && 0 <= p1 < q2 < |log|
    requires log[p1].Published? && log[q2].Popped? && Before(log[p1].msg, log[q2].msg)
    ensures exists q1 :: 0 <= q1 < q2 && log[q1] == Popped(log[p1].msg)
  {
    var before, m1 := log[..q2], log[p1].msg;
    assert EventOk(before, log[q2]);
    PublishedIsIn(before, p1);
    if m1 !in PoppedIn(before) {
      StillPending(before, m1);
    }
    var q1 := PoppedSomewhere(before, m1);
    assert log[q1] == Popped(m1);
  }

  /** Of two messages that were pending together the one with the smaller priority number is
      popped first: whenever the other is popped, it has been popped before. */
  lemma SmallerPriorityFirst(log: seq<Event>, p1: int, q2: int)
    requires LogOk(log) && 0 <= p1 < q2 < |log| && log[p1].Published? && log[q2].Popped?
    requires log[p1].msg.priority < log[q2].msg.priority
    ensures exists q1 :: 0 <= q1 < q2 && log[q1] == Popped(log[p1].msg)
  {
    PriorityOrder(log, p1, q2);
  }

  /** Equal priorities are dispatched in publication order. */
  lemma FirstPublishedFirstPopped(log: seq<Event>, p1: int, p2: int, q2: int)
    requires LogOk(log) && 0 <= p1 < p2 < |log| && 0 <= q2 < |log|
    requires log[p1].Published? && log[p2].Published? && log[q2] == Popped(log[p2].msg)
    requires log[p1].msg.priority == log[p2].msg.priority
    ensures exists q1 :: 0 <= q1 < q2 && log[q1] == Popped(log[p1].msg)
  {
    var m1, m2 := log[p1].msg, log[p2].msg;
    assert EventOk(log[..p1], log[p1]) && EventOk(log[..p2], log[p2]);
    PublishedMonotone(log, p1, p2);
    assert EventOk(log[..q2], log[q2]);
    assert m2 in multiset(PublishedIn(log[..q2]));
    var p := PublishedSomewhere(log[..q2], m2);
    assert EventOk(log[..p], log[p]);
    if p <= p1 {
      PublishedMonotone(log, p, p1);
    }
    PriorityOrder(log, p1, q2);
  }

  ghost predicate Accounted(t: Topic, n: int) {
    exists m: Msg :: m.seqNo == n && (m in t.shared.heap || m in PoppedIn(t.log))
  }

  /** The numbers handed out are split, without overlap, between the heap and what was popped. */
  lemma NumbersAreSplit(t: Topic)
    requires Inv(t)
    ensures forall m: Msg :: m in t.shared.heap || m in PoppedIn(t.log) ==> 1 <= m.seqNo <= t.shared.seqNo
    ensures forall n :: 1 <= n <= t.shared.seqNo ==> Accounted(t, n)
    ensures forall m: Msg, m': Msg :: m in t.shared.heap && m' in PoppedIn(t.log) ==> m.seqNo != m'.seqNo
    ensures forall m :: m in t.shared.heap ==> t.shared.heap[m] == 1
    ensures forall i, j :: 0 <= i < j < |PoppedIn(t.log)| ==>
              PoppedIn(t.log)[i].seqNo != PoppedIn(t.log)[j].seqNo
  {
    SplitOf(PublishedIn(t.log), t.shared.heap, PoppedIn(t.log));
    forall n | 1 <= n <= t.shared.seqNo ensures Accounted(t, n) {
      assert PublishedIn(t.log)[n - 1] in multiset(PublishedIn(t.log));
    }
  }

  /** Splitting a sequence numbered 1, 2, ... into a multiset and a sequence. */
  lemma SplitOf(all: seq<Msg>, heap: multiset<Msg>, popped: seq<Msg>)
    requires forall k :: 0 <= k < |all| ==> all[k].seqNo == k + 1
    requires multiset(all) == heap + multiset(popped)
    ensures forall m: Msg :: m in heap || m in popped ==> 1 <= m.seqNo <= |all| && all[m.seqNo - 1] == m
    ensures forall m: Msg, m': Msg :: m in heap && m' in popped ==> m.seqNo != m'.seqNo
    ensures forall m :: m in heap ==> heap[m] == 1
    ensures forall i, j :: 0 <= i < j < |popped| ==> popped[i].seqNo != popped[j].seqNo
  {
    forall m: Msg | m in heap || m in popped
      ensures 1 <= m.seqNo <= |all| && all[m.seqNo - 1] == m
    {
      assert m in popped ==> m in multiset(popped);
      assert m in multiset(all);
    }
    forall m: Msg ensures heap[m] + multiset(popped)[m] <= 1 {
      AtMostOnce(all, m);
      assert multiset(all)[m] == heap[m] + multiset(popped)[m];
    }
    forall m: Msg, m': Msg | m in heap && m' in popped ensures m.seqNo != m'.seqNo {
      assert m' in multiset(popped);
    }
    forall i, j | 0 <= i < j < |popped| ensures popped[i].seqNo != popped[j].seqNo {
      if popped[i] == popped[j] {
        TwiceIn(popped, i, j);
      }
    }
  }

  lemma {:induction false} AtMostOnce(s: seq<Msg>, m: Msg)
    requires forall k :: 0 <= k < |s| ==> s[k].seqNo == k + 1
    ensures multiset(s)[m] <= 1
  {
    if s != [] {
      var n := |s| - 1;
      assert s == s[..n] + [s[n]];
      AtMostOnce(s[..n], m);
      if s[n] == m {
        assert m !in s[..n];
        assert m !in multiset(s[..n]);
      }
    }
  }

  lemma TwiceIn<T>(s: seq<T>, i: int, j: int)
    requires 0 <= i < j < |s| && s[i] == s[j]
    ensures multiset(s)[s[i]] >= 2
  {
    assert s == s[..i] + [s[i]] + s[i + 1..j] + [s[j]] + s[j + 1..];
  }

  /** What is popped is the one message of smallest priority, and then of smallest number,
      among all that are pending: no other could have been popped. */
  lemma PopIsUnique(t: Topic, m: Msg)
    requires Inv(t) && Enabled(t, Pop(m))
    ensures forall x :: x in t.shared.heap && x != m ==>
              m.priority < x.priority || (m.priority == x.priority && m.seqNo < x.seqNo)
    ensures forall x :: Enabled(t, Pop(x)) ==> x == m
    ensures t.shared.heap == Pending(t.log) && t.shared.heap[m] == 1
  {
    hide LogOk, SubscribersMatch, SendsFollowSnapshots, SnapshotsFollowPops;
    SplitOf(PublishedIn(t.log), t.shared.heap, PoppedIn(t.log));
    forall x | x in t.shared.heap && x != m
      ensures m.priority < x.priority || (m.priority == x.priority && m.seqNo < x.seqNo)
    {
      assert x.seqNo != m.seqNo;
    }
  }

  // ---------- Subsequences ----------

  predicate IsSubsequence<T(==)>(a: seq<T>, b: seq<T>) {
    if a == [] then true
    else if b == [] then false
    else if a[|a| - 1] == b[|b| - 1] then IsSubsequence(a[..|a| - 1], b[..|b| - 1])
    else IsSubsequence(a, b[..|b| - 1])
  }

  lemma {:induction false} SubsequenceOfLonger<T>(a: seq<T>, b: seq<T>, x: T)
    requires IsSubsequence(a, b)
    ensures IsSubsequence(a, b + [x])
    decreases |b|, 1
  {
    assert (b + [x])[..|b|] == b;
    if a != [] && a[|a| - 1] == x {
      InitSubsequence(a, b);
    }
  }

  lemma {:induction false} InitSubsequence<T>(a: seq<T>, b: seq<T>)
    requires a != [] && IsSubsequence(a, b)
    ensures IsSubsequence(a[..|a| - 1], b)
    decreases |b|, 0
  {
    if a[|a| - 1] == b[|b| - 1] {
      SubsequenceOfLonger(a[..|a| - 1], b[..|b| - 1], b[|b| - 1]);
      assert b == b[..|b| - 1] + [b[|b| - 1]];
    } else {
      InitSubsequence(a, b[..|b| - 1]);
      SubsequenceOfLonger(a[..|a| - 1], b[..|b| - 1], b[|b| - 1]);
      assert b == b[..|b| - 1] + [b[|b| - 1]];
    }
  }

  lemma {:induction false} OnceIfDistinct<T>(s: seq<T>, x: T)
    requires x in s && forall i, j :: 0 <= i < j < |s| ==> s[i] != s[j]
    ensures multiset(s)[x] == 1
  {
    var n := |s| - 1;
    assert s == s[..n] + [s[n]];
    if x == s[n] {
      assert x !in multiset(s[..n]);
    } else {
      OnceIfDistinct(s[..n], x);
    }
  }

  lemma {:induction false} SubsequenceIn<T>(a: seq<T>, b: seq<T>, x: T)
    requires IsSubsequence(a, b) && x in a
    ensures x in b
    decreases |b|
  {
    if a[|a| - 1] == b[|b| - 1] {
      if x != a[|a| - 1] {
        SubsequenceIn(a[..|a| - 1], b[..|b| - 1], x);
      }
    } else {
      SubsequenceIn(a, b[..|b| - 1], x);
    }
  }

  lemma {:induction false} SubsequenceDistinct<T>(a: seq<T>, b: seq<T>)
    requires IsSubsequence(a, b) && forall i, j :: 0 <= i < j < |b| ==> b[i] != b[j]
    ensures forall i, j :: 0 <= i < j < |a| ==> a[i] != a[j]
    decreases |b|
  {
    if a != [] {
      var front := b[..|b| - 1];
      if a[|a| - 1] == b[|b| - 1] {
        SubsequenceDistinct(a[..|a| - 1], front);
        forall i | 0 <= i < |a| - 1 ensures a[i] != a[|a| - 1] {
          SubsequenceIn(a[..|a| - 1], front, a[i]);
        }
      } else {
        SubsequenceDistinct(a, front);
      }
    }
  }

  lemma BothEndIn<T>(a: seq<T>, b: seq<T>, x: T)
    requires IsSubsequence(a, b)
    ensures IsSubsequence(a + [x], b + [x])
  {
    assert (a + [x])[..|a|] == a && (b + [x])[..|b|] == b;
  }

  // ---------- Delivery ----------

  /** The snapshot of a message comes after its publication and names exactly the clients who
      are subscribed at that moment and whose latest subscribe came before the publication. */
  lemma DeliveryIsExact(t: Topic, k: int, c: ClientId) returns (p: int)
    requires Inv(t) && 0 <= k < |t.log| && t.log[k].Snapshot?
    ensures 0 <= p < k && t.log[p] == Published(t.log[k].msg)
    ensures c in t.log[k].to <==> exists j :: j < p && InForce(t.log[..k], c, j)
  {
    p := SnapshotFollowsPublication(t.log, k);
    SnapshotIsExact(t.log, k, p, c);
  }

  lemma {:induction false} SnapshotPosition(log: seq<Event>, k: int)
    requires 0 <= k < |log| && log[k].Snapshot?
    ensures |SnapshotsIn(log[..k])| < |SnapshotsIn(log)|
    ensures SnapshotsIn(log)[|SnapshotsIn(log[..k])|] == log[k].msg
    ensures SnapshotsIn(log[..k]) <= SnapshotsIn(log)
  {
    if k < |log| - 1 {
      SnapshotPosition(Earlier(log), k);
      assert Earlier(log)[..k] == log[..k];
    }
  }

  /** No message is ever in two snapshots. */
  lemma SnapshotOnce(t: Topic, k: int, l: int)
    requires Inv(t) && 0 <= k < l < |t.log|
    requires t.log[k].Snapshot? && t.log[l].Snapshot?
    ensures t.log[k].msg != t.log[l].msg
  {
    NumbersAreSplit(t);
    SnapshotPosition(t.log, k);
    SnapshotPosition(t.log, l);
    SnapshotPosition(t.log[..l], k);
    assert t.log[..l][..k] == t.log[..k];
    assert SnapshotsIn(t.log) <= PoppedIn(t.log);
  }

  lemma {:induction false} DueAreSnapshots(log: seq<Event>, c: ClientId)
    ensures IsSubsequence(DueTo(log, c), SnapshotsIn(log))
  {
    if log != [] {
      DueAreSnapshots(Earlier(log), c);
      var due, snaps := DueTo(Earlier(log), c), SnapshotsIn(Earlier(log));
      assert due + [] == due && snaps + [] == snaps;
      match Last(log) {
        case Snapshot(m, to) =>
          BothEndIn(due, snaps, m);
          SubsequenceOfLonger(due, snaps, m);
        case _ =>
      }
    }
  }

  /** What a client is sent is a prefix of what it is due; what it is due comes in dispatch
      order, each dispatched message at most once. */
  lemma SentOnceInOrder(t: Topic, c: ClientId)
    requires Inv(t)
    ensures SentTo(t.log, c) <= DueTo(t.log, c)
    ensures IsSubsequence(DueTo(t.log, c), PoppedIn(t.log))
  {
    assert DueTo(t.log, c) ==
      SentTo(t.log, c) + if t.disp.Sending? && c in t.disp.todo then [t.disp.msg] else [];
    DueAreSnapshots(t.log, c);
    if t.disp.Holding? {
      SubsequenceOfLonger(DueTo(t.log, c), SnapshotsIn(t.log), t.disp.msg);
    } else {
      assert SnapshotsIn(t.log) + [] == SnapshotsIn(t.log);
    }
  }

  /** No client is sent a message twice. */
  lemma SentAtMostOnce(t: Topic, c: ClientId)
    requires Inv(t)
    ensures forall i, j :: 0 <= i < j < |SentTo(t.log, c)| ==> SentTo(t.log, c)[i] != SentTo(t.log, c)[j]
  {
    SentOnceInOrder(t, c);
    NumbersAreSplit(t);
    hide Inv, IsSubsequence, SentTo, DueTo, PoppedIn;
    SubsequenceDistinct(DueTo(t.log, c), PoppedIn(t.log));
  }

  /** Whatever is sent was published before and while the client was subscribed: his subscription
      in force when the snapshot was taken was made before the publication. */
  lemma SentWasDue(t: Topic, c: ClientId, m: Msg) returns (j: int, p: int, k: int)
    requires Inv(t) && m in SentTo(t.log, c)
    ensures 0 <= j < p < k < |t.log| && t.log[p] == Published(m)
    ensures t.log[k].Snapshot? && t.log[k].msg == m && InForce(t.log[..k], c, j)
  {
    assert m in DueTo(t.log, c) by {
      SentOnceInOrder(t, c);
    }
    hide Numbered, HeapIsPending, SubscribersMatch, WillBeNoticed, SentTo, DueTo;
    k := DueIsNamed(t.log, c, m);
    p := SnapshotFollowsPublication(t.log, k);
    SnapshotIsExact(t.log, k, p, c);
    j :| j < p && InForce(t.log[..k], c, j);
  }

  // ---------- No lost wake-up ----------

  /** Whoever has been subscribed since before a message was published has been sent it once. */
  ghost predicate EverySubscriberServed(log: seq<Event>) {
    forall c, j, p :: InForce(log, c, j) && j < p < |log| && log[p].Published? ==>
      multiset(SentTo(log, c))[log[p].msg] == 1
  }

  predicate AtRest(t: Topic) {
    t.disp.Waiting? && !t.shared.token && t.notifying == {}
  }

  /** As long as the topic is not at rest somebody can move: the protocol never deadlocks. */
  lemma SomeoneCanMove(t: Topic) returns (step: Step)
    requires !AtRest(t)
    ensures Internal(step) && Enabled(t, step)
  {
    if t.notifying != {} {
      var c :| c in t.notifying;
      step := Notify(c);
    } else {
      match t.disp
      case Waiting => step := Wake;
      case Draining =>
        if t.shared.heap == multiset{} {
          step := PopNothing;
        } else {
          var m := LeastExists(t.shared.heap);
          step := Pop(m);
        }
      case Holding(_) => step := TakeSnapshot;
      case Sending(_, todo) =>
        if todo == {} {
          step := EndSend;
        } else {
          var c :| c in todo;
          step := Send(c);
        }
    }
  }

  lemma IdleMeansAtRest(t: Topic)
    ensures Idle(t) <==> AtRest(t)
  {
    if !AtRest(t) {
      var step := SomeoneCanMove(t);
    }
  }

  /** Everything published has been popped, and every pop has had its snapshot and its sends. */
  ghost predicate Drained(t: Topic) {
    && t.shared.heap == multiset{} && t.disp.Waiting?
    && multiset(PoppedIn(t.log)) == multiset(PublishedIn(t.log))
    && SnapshotsIn(t.log) == PoppedIn(t.log)
    && forall c :: SentTo(t.log, c) == DueTo(t.log, c)
  }

  lemma IdleMeansDrained(t: Topic)
    requires Inv(t) && Idle(t)
    ensures Drained(t)
  {
    hide LogOk, SubscribersMatch, Numbered;
    IdleMeansAtRest(t);
    forall c ensures SentTo(t.log, c) == DueTo(t.log, c) {
      assert DueTo(t.log, c) == SentTo(t.log, c) + [];
    }
  }

  /** End to end: c subscribed, later the message was published, c is still subscribed. */
  lemma SubscriberServed(t: Topic, c: ClientId, j: int, p: int)
    requires Inv(t) && Drained(t)
    requires InForce(t.log, c, j) && j < p < |t.log| && t.log[p].Published?
    ensures t.log[p].msg in SentTo(t.log, c)
  {
    var log, m := t.log, t.log[p].msg;
    hide Numbered, HeapIsPending, SubscribersMatch, WillBeNoticed;
    PublishedIsIn(log, p);
    assert m in multiset(PoppedIn(log));
    var k := SnapshotSomewhere(log, m);
    var p' := SnapshotFollowsPublication(log, k);
    OnePublication(log, p, p');
    InForceEarlier(log, c, j, k);
    SnapshotIsExact(log, k, p, c);
    NamedIsDue(log, k, c);
  }

  ghost predicate AllDelivered(t: Topic) {
    Drained(t) && EverySubscriberServed(t.log)
  }

  /** When nobody can move, nothing is left behind and every subscriber has been served. */
  lemma IdleMeansDelivered(t: Topic)
    requires Inv(t) && Idle(t)
    ensures AllDelivered(t)
  {
    IdleMeansDrained(t);
    hide Inv, Drained, Idle;
    forall c, j, p | InForce(t.log, c, j) && j < p < |t.log| && t.log[p].Published?
      ensures multiset(SentTo(t.log, c))[t.log[p].msg] == 1
    {
      SubscriberServed(t, c, j, p);
      SentAtMostOnce(t, c);
      OnceIfDistinct(SentTo(t.log, c), t.log[p].msg);
    }
  }

  // ---------- Termination ----------

  function Stage(t: Topic): nat {
    match t.disp
    case Waiting => 0
    case Draining => 1
    case Sending(_, todo) => |todo| + 2
    case Holding(_) => |t.shared.subscribers| + 3
  }

  /** An upper bound on the steps spent on the messages still in the heap. */
  function HeapCost(subscribers: nat, messages: nat): nat {
    if messages == 0 then 0 else subscribers + 3 + HeapCost(subscribers, messages - 1)
  }

  function Measure(t: Topic): nat {
    3 * |t.notifying| + (if t.shared.token then 2 else 0)
    + HeapCost(|t.shared.subscribers|, |t.shared.heap|) + Stage(t)
  }

  lemma EligibleAreSubscribers(s: Shared, m: Msg)
    ensures |Eligible(s, m)| <= |s.subscribers|
  {
    SubsetSize(Eligible(s, m), s.subscribers.Keys);
  }

  lemma InternalStepDecreases(t: Topic, step: Step)
    requires Enabled(t, step) && Internal(step)
    ensures Measure(Do(t, step)) < Measure(t)
  {
    match step {
    case Pop(m) => assert |t.shared.heap - multiset{m}| == |t.shared.heap| - 1;
    case TakeSnapshot => EligibleAreSubscribers(t.shared, t.disp.msg);
    case Notify(c) => assert |t.notifying - {c}| == |t.notifying| - 1;
    case Send(c) => assert |t.disp.todo - {c}| == |t.disp.todo| - 1;
    case _ =>
    }
  }

  ghost predicate InternalNext(t: Topic, t': Topic) {
    exists step :: Internal(step) && Enabled(t, step) && t' == Do(t, step)
  }

  ghost predicate InternalStepAt(run: seq<Topic>, i: int)
    requires 0 < i < |run|
  {
    InternalNext(run[i - 1], run[i])
  }

  ghost predicate InternalRun(run: seq<Topic>) {
    |run| > 0 && forall i :: 0 < i < |run| ==> InternalStepAt(run, i)
  }

  lemma InternalStepKeeps(t: Topic, t': Topic)
    requires InternalNext(t, t')
    ensures Measure(t') < Measure(t)
    ensures PublishedIn(t'.log) == PublishedIn(t.log)
  {
    var step :| Internal(step) && Enabled(t, step) && t' == Do(t, step);
    InternalStepDecreases(t, step);
    ExtendBy(t, step);
  }

  /** With no new requests the topic settles within Measure steps. */
  lemma {:induction false} SettlesWithin(run: seq<Topic>, i: nat)
    requires InternalRun(run) && i < |run|
    ensures i + Measure(run[i]) <= Measure(run[0])
    ensures PublishedIn(run[i].log) == PublishedIn(run[0].log)
  {
    if i > 0 {
      assert InternalStepAt(run, i);
      InternalStepKeeps(run[i - 1], run[i]);
      SettlesWithin(run, i - 1);
    }
  }

  lemma Prepend(t: Topic, rest: seq<Topic>)
    requires InternalRun(rest) && InternalNext(t, rest[0])
    ensures InternalRun([t] + rest)
  {
    var run := [t] + rest;
    forall i | 0 < i < |run| ensures InternalStepAt(run, i) {
      if i > 1 {
        assert InternalStepAt(rest, i - 1);
      }
    }
  }

  /** Letting the publishers and the dispatcher finish delivers every published message. */
  lemma {:induction false} EverythingIsDispatched(t: Topic) returns (run: seq<Topic>)
    requires Inv(t)
    ensures InternalRun(run) && run[0] == t
    ensures AllDelivered(run[|run| - 1])
    ensures PublishedIn(run[|run| - 1].log) == PublishedIn(t.log)
    decreases Measure(t)
  {
    if AtRest(t) {
      IdleMeansAtRest(t);
      IdleMeansDelivered(t);
      run := [t];
    } else {
      var step := SomeoneCanMove(t);
      var t' := Do(t, step);
      assert InternalNext(t, t');
      InternalStepKeeps(t, t');
      StepKeepsInv(t, step);
      var rest := EverythingIsDispatched(t');
      Prepend(t, rest);
      run := [t] + rest;
    }
  }
}
