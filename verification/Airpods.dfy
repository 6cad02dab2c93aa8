/** A case with two pods, a phone that connects once, and one forwarding goroutine.
    quli-airpods/main.go. Undocking reads `btConnected` under the pod's lock only. */
module Airpods {
  import opened Basics

  datatype PodState = Docked | Connected | Disconnected

  datatype Side = Left | Right

  /** Who has the pod's lock between two steps: an undocking call, before or after it has read
      `btConnected`. All other sections under the lock are single steps. */
  datatype Holder = Free | Undocking | Read(connected: bool)

  /** `sent` lists the stream positions put into the pod's channel, `queued` is how many of them
      are still in it, `seen` the forwarder's looks at the state, one for each byte. */
  datatype Pod = Pod(state: PodState, holder: Holder, sent: seq<nat>, queued: nat, seen: seq<bool>)

  /** The one call of ConnectBluetooth that found the flag unset. */
  datatype Connecting = NotYet | AtLeft | AtRight | Forwarding

  datatype Forwarder = Idle | Have(b: nat) | Looked(b: nat, left: bool) | LookedTwice(b: nat, left: bool, right: bool)
                     | LeftServed(b: nat, right: bool)

  /** `phone` is the stream of the phone, of which `taken` bytes have been received. */
  datatype Case = Case(
    left: Pod, right: Pod, btConnected: bool, connecting: Connecting, successes: nat,
    phone: seq<bv8>, taken: nat, forwarder: Forwarder)

  const CAPACITY: nat := 1024
  const NEW_POD := Pod(Docked, Free, [], 0, [])
  const NEW_CASE := Case(NEW_POD, NEW_POD, false, NotYet, 0, [], 0, Idle)

  datatype Step =
    | UndockLock(side: Side) | UndockRead(side: Side) | UndockWrite(side: Side)
    | Dock(side: Side)
    | Connect | ConnectPod(side: Side)
    | Play(data: bv8) | Take | Look(side: Side) | Forward(side: Side) | Listen(side: Side)

  function PodOf(c: Case, side: Side): Pod {
    if side.Left? then c.left else c.right
  }

  function SetPod(c: Case, side: Side, pod: Pod): Case {
    if side.Left? then c.(left := pod) else c.(right := pod)
  }

  predicate Enabled(c: Case, step: Step) {
    match step
    case UndockLock(side) => PodOf(c, side).holder.Free?
    case UndockRead(side) => PodOf(c, side).holder.Undocking?
    case UndockWrite(side) => PodOf(c, side).holder.Read?
    case Dock(side) => PodOf(c, side).holder.Free?
    case Connect => true
    case ConnectPod(side) =>
      PodOf(c, side).holder.Free? && c.connecting == if side.Left? then AtLeft else AtRight
    case Play(_) => true
    case Take => c.connecting.Forwarding? && c.forwarder.Idle? && c.taken < |c.phone|
    case Look(side) =>
      PodOf(c, side).holder.Free? && if side.Left? then c.forwarder.Have? else c.forwarder.Looked?
    case Forward(Left) => c.forwarder.LookedTwice? && (c.forwarder.left ==> c.left.queued < CAPACITY)
    case Forward(Right) => c.forwarder.LeftServed? && (c.forwarder.right ==> c.right.queued < CAPACITY)
    case Listen(side) => PodOf(c, side).queued > 0
  }

  function Sent(pod: Pod, b: nat, connected: bool): Pod {
    if connected then pod.(sent := pod.sent + [b], queued := pod.queued + 1) else pod
  }

  function Do(c: Case, step: Step): Case
    requires Enabled(c, step)
  {
    match step
    case UndockLock(side) =>
      if PodOf(c, side).state.Docked? then SetPod(c, side, PodOf(c, side).(holder := Undocking)) else c
    case UndockRead(side) => SetPod(c, side, PodOf(c, side).(holder := Read(c.btConnected)))
    case UndockWrite(side) =>
      var pod := PodOf(c, side);
      SetPod(c, side, pod.(state := if pod.holder.connected then Connected else Disconnected, holder := Free))
    case Dock(side) => SetPod(c, side, PodOf(c, side).(state := Docked))
    case Connect =>
      if c.btConnected then c
      else c.(btConnected := true, connecting := AtLeft, successes := c.successes + 1)
    case ConnectPod(side) =>
      var pod := PodOf(c, side);
      var c' := SetPod(c, side, if pod.state.Disconnected? then pod.(state := Connected) else pod);
      c'.(connecting := if side.Left? then AtRight else Forwarding)
    case Play(data) => c.(phone := c.phone + [data])
    case Take => c.(forwarder := Have(c.taken), taken := c.taken + 1)
    case Look(side) =>
      var pod := PodOf(c, side);
      var connected := pod.state.Connected?;
      var c' := SetPod(c, side, pod.(seen := pod.seen + [connected]));
      c'.(forwarder := if side.Left? then Looked(c.forwarder.b, connected)
                       else LookedTwice(c.forwarder.b, c.forwarder.left, connected))
    case Forward(Left) =>
      c.(left := Sent(c.left, c.forwarder.b, c.forwarder.left),
         forwarder := LeftServed(c.forwarder.b, c.forwarder.right))
    case Forward(Right) =>
      c.(right := Sent(c.right, c.forwarder.b, c.forwarder.right), forwarder := Idle)
    case Listen(side) => SetPod(c, side, PodOf(c, side).(queued := PodOf(c, side).queued - 1))
  }

  // ---------- The invariant ----------

  /** ConnectBluetooth has been through this pod's section. */
  predicate Passed(c: Case, side: Side) {
    if side.Left? then c.connecting.AtRight? || c.connecting.Forwarding? else c.connecting.Forwarding?
  }

  ghost predicate PodOk(c: Case, side: Side) {
    var pod := PodOf(c, side);
    && (!pod.holder.Free? ==> pod.state.Docked?)
    && (Passed(c, side) ==> !pod.state.Disconnected? && pod.holder != Read(false))
    && pod.queued <= CAPACITY && pod.queued <= |pod.sent|
  }

  /** The positions at which the forwarder saw the pod connected. */
  function Trues(seen: seq<bool>): seq<nat> {
    if seen == [] then []
    else
      var n := |seen| - 1;
      Trues(seen[..n]) + if seen[n] then [n] else []
  }

  /** The byte the forwarder is still to put into the pod's channel. */
  function Owed(c: Case, side: Side): seq<nat> {
    match c.forwarder
    case Looked(b, left) => if side.Left? && left then [b] else []
    case LookedTwice(b, left, right) => if (if side.Left? then left else right) then [b] else []
    case LeftServed(b, right) => if side.Right? && right then [b] else []
    case _ => []
  }

  predicate HasLooked(c: Case, side: Side) {
    match c.forwarder
    case Have(_) => false
    case Looked(_, _) => side.Left?
    case _ => true
  }

  /** Every byte goes to exactly the pods seen connected, in order. */
  ghost predicate StreamOk(c: Case, side: Side) {
    var pod := PodOf(c, side);
    && |pod.seen| == (if HasLooked(c, side) then c.taken else c.taken - 1)
    && pod.sent + Owed(c, side) == Trues(pod.seen)
  }

  ghost predicate CaseOk(c: Case) {
    && (c.btConnected <==> !c.connecting.NotYet?)
    && c.successes == (if c.btConnected then 1 else 0)
    && (!c.forwarder.Idle? ==> c.connecting.Forwarding? && c.taken > 0 && c.forwarder.b == c.taken - 1)
    && c.taken <= |c.phone|
  }

  ghost predicate Inv(c: Case) {
    CaseOk(c) && PodOk(c, Left) && PodOk(c, Right) && StreamOk(c, Left) && StreamOk(c, Right)
  }

  lemma NewCaseInv()
    ensures Inv(NEW_CASE)
  {
  }

  lemma CaseKept(c: Case, step: Step)
    requires CaseOk(c) && Enabled(c, step)
    ensures CaseOk(Do(c, step))
  {
  }

  lemma PodKept(c: Case, step: Step, side: Side)
    requires CaseOk(c) && PodOk(c, side) && Enabled(c, step)
    ensures PodOk(Do(c, step), side)
  {
  }

  lemma TruesNext(seen: seq<bool>, connected: bool)
    ensures Trues(seen + [connected]) == Trues(seen) + if connected then [|seen|] else []
  {
    assert (seen + [connected])[..|seen|] == seen;
  }

  lemma StreamKept(c: Case, step: Step, side: Side)
    requires CaseOk(c) && StreamOk(c, side) && Enabled(c, step)
    ensures StreamOk(Do(c, step), side)
  {
    var pod := PodOf(c, side);
    hide Trues;
    match step
    case Look(at) =>
      TruesNext(pod.seen, pod.state.Connected?);
      assert pod.sent + [] == pod.sent;
    case Forward(at) =>
      var b := c.forwarder.b;
      assert (pod.sent + [b]) + [] == pod.sent + [b] && pod.sent + [] == pod.sent;
    case _ =>
  }

  lemma StepKeepsInv(c: Case, step: Step)
    requires Inv(c) && Enabled(c, step)
    ensures Inv(Do(c, step))
  {
    hide CaseOk, PodOk, StreamOk, Enabled, Do;
    CaseKept(c, step);
    PodKept(c, step, Left);
    PodKept(c, step, Right);
    StreamKept(c, step, Left);
    StreamKept(c, step, Right);
  }

  ghost predicate IsRun(states: seq<Case>, steps: seq<Step>) {
    && |states| == |steps| + 1
    && forall i :: 0 <= i < |steps| ==> Enabled(states[i], steps[i]) && states[i + 1] == Do(states[i], steps[i])
  }

  lemma {:induction false} RunKeepsInv(states: seq<Case>, steps: seq<Step>, n: nat)
    requires IsRun(states, steps) && Inv(states[0]) && n <= |steps|
    ensures Inv(states[n])
  {
    hide Inv, Enabled, Do;
    if n > 0 {
      RunKeepsInv(states, steps, n - 1);
      StepKeepsInv(states[n - 1], steps[n - 1]);
    }
  }

  lemma StepOf(states: seq<Case>, steps: seq<Step>, n: nat)
    requires IsRun(states, steps) && states[0] == NEW_CASE && 0 < n <= |steps|
    ensures |states| == |steps| + 1 && Inv(states[n - 1])
    ensures Enabled(states[n - 1], steps[n - 1]) && states[n] == Do(states[n - 1], steps[n - 1])
  {
    NewCaseInv();
    RunKeepsInv(states, steps, n - 1);
  }

  // ---------- What holds in every reachable state ----------

  /** Once ConnectBluetooth has passed a pod, it is never Disconnected again, although the
      undocking calls read the flag without its lock. */
  lemma NeverDisconnectedAgain(states: seq<Case>, steps: seq<Step>, n: nat, side: Side)
    requires IsRun(states, steps) && states[0] == NEW_CASE && n <= |steps|
    requires Passed(states[n], side)
    ensures forall k :: n <= k <= |steps| ==> !PodOf(states[k], side).state.Disconnected?
  {
    hide Inv, Enabled, Do;
    assert |states| == |steps| + 1;
    NewCaseInv();
    hide IsRun;
    forall k: nat | n <= k <= |steps| ensures !PodOf(states[k], side).state.Disconnected? {
      RunKeepsInv(states, steps, k);
      StaysPassed(states, steps, n, k, side);
      assert PodOk(states[k], side) by {
        InvMeansPodOk(states[k], side);
      }
    }
  }

  lemma InvMeansPodOk(c: Case, side: Side)
    requires Inv(c)
    ensures PodOk(c, side)
  {
  }

  lemma {:induction false} StaysPassed(states: seq<Case>, steps: seq<Step>, n: nat, k: nat, side: Side)
    requires IsRun(states, steps) && states[0] == NEW_CASE && n <= k <= |steps|
    requires Passed(states[n], side)
    ensures Passed(states[k], side)
  {
    if n < k {
      StaysPassed(states, steps, n, k - 1, side);
      hide IsRun, Do, Enabled, Passed;
      StepOf(states, steps, k);
      PassedStays(states[k - 1], steps[k - 1], side);
    }
  }

  lemma PassedStays(c: Case, step: Step, side: Side)
    requires CaseOk(c) && Enabled(c, step) && Passed(c, side)
    ensures Passed(Do(c, step), side)
  {
  }

  /** An undocking that finds the pod docked after that ends Connected. */
  lemma UndockConnects(c: Case, side: Side)
    requires Inv(c) && Passed(c, side) && Enabled(c, UndockWrite(side))
    ensures PodOf(Do(c, UndockWrite(side)), side).state.Connected?
  {
    InvMeansPodOk(c, side);
  }

  /** At most one call of ConnectBluetooth succeeds, and there is one as soon as the flag is set. */
  lemma OneConnect(c: Case)
    requires Inv(c)
    ensures c.successes <= 1 && (c.successes == 1 <==> c.btConnected)
  {
  }

  lemma {:induction false} TruesInOrder(seen: seq<bool>)
    ensures forall i :: 0 <= i < |Trues(seen)| ==> Trues(seen)[i] < |seen| && seen[Trues(seen)[i]]
    ensures forall i, j :: 0 <= i < j < |Trues(seen)| ==> Trues(seen)[i] < Trues(seen)[j]
    ensures forall b: nat :: b < |seen| && seen[b] ==> b in Trues(seen)
  {
    if seen != [] {
      var n := |seen| - 1;
      var front := Trues(seen[..n]);
      TruesInOrder(seen[..n]);
      assert forall i :: 0 <= i < |front| ==> seen[..n][front[i]] == seen[front[i]];
      assert seen == seen[..n] + [seen[n]];
      hide Trues;
    }
  }

  /** What a pod gets is an in-order selection of the phone's stream: whenever the forwarder has
      nothing in hand, exactly the bytes for which it saw the pod connected, each once. */
  lemma StreamInOrder(c: Case, side: Side)
    requires Inv(c)
    ensures var sent := PodOf(c, side).sent;
      && (forall i :: 0 <= i < |sent| ==> sent[i] < |c.phone|)
      && (forall i, j :: 0 <= i < j < |sent| ==> sent[i] < sent[j])
      && (c.forwarder.Idle? ==>
            forall b: nat :: b < c.taken ==> (b in sent <==> PodOf(c, side).seen[b]))
  {
    var pod := PodOf(c, side);
    assert StreamOk(c, side);
    TruesInOrder(pod.seen);
    var all := Trues(pod.seen);
    assert pod.sent == all[..|pod.sent|];
    if c.forwarder.Idle? {
      assert pod.sent == all;
      forall b: nat | b < c.taken ensures b in pod.sent <==> pod.seen[b] {
        if b in pod.sent {
          var i :| 0 <= i < |all| && all[i] == b;
        }
      }
    }
  }

  /** The bytes waiting in a pod's channel, as stream positions, oldest first. */
  function InChannel(pod: Pod): seq<nat>
    requires pod.queued <= |pod.sent|
  {
    pod.sent[|pod.sent| - pod.queued..]
  }

  /** A pod's channel is a queue of at most 1024 bytes: listening takes the oldest, the forwarder adds
      the byte it has in hand at the end, and nothing else touches it. */
  lemma ChannelIsQueue(c: Case, step: Step, side: Side)
    requires Inv(c) && Enabled(c, step)
    ensures var pod, pod' := PodOf(c, side), PodOf(Do(c, step), side);
      && pod.queued <= |pod.sent| && pod'.queued <= |pod'.sent| && |InChannel(pod)| <= 1024
      && (step == Listen(side) ==> InChannel(pod) != [] && InChannel(pod') == InChannel(pod)[1..])
      && (step != Listen(side) ==>
            InChannel(pod') == InChannel(pod)
            || (step == Forward(side) && |InChannel(pod)| < 1024 && !c.forwarder.Idle?
                && InChannel(pod') == InChannel(pod) + [c.forwarder.b]))
  {
    hide Inv, Do, Enabled, PodOf;
    StepKeepsInv(c, step);
    InvMeansPodOk(c, side);
    InvMeansPodOk(Do(c, step), side);
    ChannelChanges(c, step, side);
    hide PodOk;
    var pod := PodOf(c, side);
    if step == Listen(side) {
      LastAfterTaking(pod.sent, pod.queued);
    } else if PodOf(Do(c, step), side).sent != pod.sent {
      LastAfterAdding(pod.sent, pod.queued, c.forwarder.b);
    }
  }

  lemma ChannelChanges(c: Case, step: Step, side: Side)
    requires Enabled(c, step)
    ensures var pod, pod' := PodOf(c, side), PodOf(Do(c, step), side);
      if step == Listen(side) then pod.queued > 0 && pod'.queued == pod.queued - 1 && pod'.sent == pod.sent
      else (pod'.queued == pod.queued && pod'.sent == pod.sent)
           || (step == Forward(side) && pod.queued < 1024 && !c.forwarder.Idle?
               && pod'.queued == pod.queued + 1 && pod'.sent == pod.sent + [c.forwarder.b])
  {
  }

  // ---------- What the pods' states mean ----------

  /** Docking, connecting and the end of an undocking are all that changes a pod's state. */
  lemma StateChanges(c: Case, step: Step, side: Side)
    requires Enabled(c, step)
    ensures var was, now := PodOf(c, side).state, PodOf(Do(c, step), side).state;
      && (step == Dock(side) ==> now == Docked)
      && (step == ConnectPod(side) ==> now == if was == Disconnected then Connected else was)
      && (step == UndockWrite(side) ==> now == if PodOf(c, side).holder == Read(true) then Connected else Disconnected)
      && (step != Dock(side) && step != ConnectPod(side) && step != UndockWrite(side) ==> now == was)
    ensures step == UndockLock(side) && !PodOf(c, side).state.Docked? ==> Do(c, step) == c
  {
  }

  lemma {:induction false} UndockHolds(states: seq<Case>, steps: seq<Step>, i: nat, l: nat, side: Side) returns (k: nat)
    requires IsRun(states, steps) && i < l <= |steps| && steps[i] == UndockLock(side)
    requires PodOf(states[i], side).state.Docked?
    requires forall n :: i < n < l ==> steps[n] != UndockWrite(side)
    ensures PodOf(states[l], side).holder.Undocking?
            || (i < k < l && steps[k] == UndockRead(side)
                && PodOf(states[l], side).holder == Read(states[k].btConnected))
  {
    k := i;
    if l > i + 1 {
      k := UndockHolds(states, steps, i, l - 1, side);
      if steps[l - 1] == UndockRead(side) {
        k := l - 1;
      }
    }
  }

  /** An undocking of a docked pod keeps it docked until its last statement, which makes it
      Connected exactly if the phone was connected at the moment the flag was read. */
  lemma UndockOutcome(states: seq<Case>, steps: seq<Step>, i: nat, j: nat, side: Side) returns (k: nat)
    requires IsRun(states, steps) && states[0] == NEW_CASE && i < j < |steps|
    requires steps[i] == UndockLock(side) && PodOf(states[i], side).state.Docked?
    requires steps[j] == UndockWrite(side) && forall n :: i < n < j ==> steps[n] != UndockWrite(side)
    ensures i < k < j && steps[k] == UndockRead(side)
    ensures forall l :: i <= l <= j ==> PodOf(states[l], side).state.Docked?
    ensures PodOf(states[j + 1], side).state == if states[k].btConnected then Connected else Disconnected
  {
    NewCaseInv();
    forall l: nat | i < l <= j ensures PodOf(states[l], side).state.Docked? {
      var _ := UndockHolds(states, steps, i, l, side);
      RunKeepsInv(states, steps, l);
      InvMeansPodOk(states[l], side);
    }
    k := UndockHolds(states, steps, i, j, side);
  }

  ghost predicate NotYetConnected(c: Case, side: Side) {
    !c.btConnected ==> !PodOf(c, side).state.Connected? && PodOf(c, side).holder != Read(true)
  }

  /** Before a phone has connected no pod is Connected. */
  lemma {:induction false} NeverConnectedBefore(states: seq<Case>, steps: seq<Step>, n: nat, side: Side)
    requires IsRun(states, steps) && states[0] == NEW_CASE && n <= |steps|
    ensures NotYetConnected(states[n], side)
  {
    if n > 0 {
      NeverConnectedBefore(states, steps, n - 1, side);
      hide IsRun, Inv, Do, Enabled;
      StepOf(states, steps, n);
      NotYetKept(states[n - 1], steps[n - 1], side);
    }
  }

  lemma NotYetKept(c: Case, step: Step, side: Side)
    requires Inv(c) && Enabled(c, step) && NotYetConnected(c, side)
    ensures NotYetConnected(Do(c, step), side)
  {
    hide StreamOk, PodOk;
  }

  lemma LookSees(c: Case, step: Step, side: Side)
    requires Inv(c) && Enabled(c, step)
    ensures PodOf(Do(c, step), side).seen ==
              PodOf(c, side).seen + if step == Look(side) then [PodOf(c, side).state.Connected?] else []
    ensures step == Look(side) ==> c.taken == |PodOf(c, side).seen| + 1
  {
    hide PodOk, Trues;
    assert StreamOk(c, side);
  }

  /** What the forwarder saw for byte b is the state the pod had when the forwarder, with that
      byte in hand, looked at it. */
  lemma {:induction false} SeenIsState(states: seq<Case>, steps: seq<Step>, n: nat, side: Side, b: nat) returns (k: nat)
    requires IsRun(states, steps) && states[0] == NEW_CASE && n <= |steps|
    requires b < |PodOf(states[n], side).seen|
    ensures k < n && steps[k] == Look(side) && states[k].taken == b + 1
    ensures PodOf(states[n], side).seen[b] <==> PodOf(states[k], side).state.Connected?
  {
    hide *;
    StartsUnseen(states, steps, side);
    StepOf(states, steps, n);
    LookSees(states[n - 1], steps[n - 1], side);
    var before := PodOf(states[n - 1], side).seen;
    if b < |before| {
      k := SeenIsState(states, steps, n - 1, side, b);
    } else {
      k := n - 1;
    }
  }

  lemma StartsUnseen(states: seq<Case>, steps: seq<Step>, side: Side)
    requires IsRun(states, steps) && states[0] == NEW_CASE
    ensures |states| == |steps| + 1 && PodOf(states[0], side).seen == []
  {
  }

  /** In every run: once a byte has been forwarded, it is in a pod's stream exactly if the pod was
      Connected when the forwarder, with that byte in hand, looked at it. */
  lemma ForwardedIfConnected(states: seq<Case>, steps: seq<Step>, side: Side, b: nat) returns (k: nat)
    requires IsRun(states, steps) && states[0] == NEW_CASE
    requires states[|steps|].forwarder.Idle? && b < states[|steps|].taken
    ensures k < |steps| && steps[k] == Look(side) && states[k].taken == b + 1
    ensures b in PodOf(states[|steps|], side).sent <==> PodOf(states[k], side).state.Connected?
  {
    var end := states[|steps|];
    NewCaseInv();
    RunKeepsInv(states, steps, |steps|);
    assert StreamOk(end, side);
    StreamInOrder(end, side);
    hide Inv, StreamOk;
    k := SeenIsState(states, steps, |steps|, side, b);
  }

  // ---------- No deadlock ----------

  predicate Internal(step: Step) {
    step.UndockRead? || step.UndockWrite? || step.ConnectPod? || step.Take? || step.Look? || step.Forward?
  }

  /** The forwarder waits for the listener of a full channel. */
  predicate WaitsForListener(c: Case) {
    || (c.forwarder.LookedTwice? && c.forwarder.left && c.left.queued == 1024)
    || (c.forwarder.LeftServed? && c.forwarder.right && c.right.queued == 1024)
  }

  /** Nobody is undocking or connecting, and the forwarder has sent on all bytes there are, or
      would have to put one into a full channel. */
  predicate AtRest(c: Case) {
    && c.left.holder.Free? && c.right.holder.Free?
    && !c.connecting.AtLeft? && !c.connecting.AtRight?
    && (WaitsForListener(c) || (c.forwarder.Idle? && (c.connecting.Forwarding? ==> c.taken == |c.phone|)))
  }

  /** Whatever is unfinished can go on, except for sends into a full channel. */
  lemma SomeoneCanMove(c: Case) returns (step: Step)
    requires Inv(c) && !AtRest(c)
    ensures Internal(step) && Enabled(c, step)
  {
    step :=
      if c.left.holder.Undocking? then UndockRead(Left) else if c.left.holder.Read? then UndockWrite(Left)
      else if c.right.holder.Undocking? then UndockRead(Right) else if c.right.holder.Read? then UndockWrite(Right)
      else if c.connecting.AtLeft? then ConnectPod(Left) else if c.connecting.AtRight? then ConnectPod(Right)
      else
        match c.forwarder
        case Idle => Take
        case Have(_) => Look(Left)
        case Looked(_, _) => Look(Right)
        case LookedTwice(_, _, _) => Forward(Left)
        case LeftServed(_, _) => Forward(Right);
  }

  // ---------- Everything comes to an end ----------

  function LockWork(holder: Holder): nat {
    match holder
    case Free => 0
    case Undocking => 2
    case Read(_) => 1
  }

  function ConnectWork(connecting: Connecting): nat {
    match connecting
    case AtLeft => 2
    case AtRight => 1
    case _ => 0
  }

  function ByteWork(forwarder: Forwarder): nat {
    match forwarder
    case Idle => 0
    case Have(_) => 4
    case Looked(_, _) => 3
    case LookedTwice(_, _, _) => 2
    case LeftServed(_, _) => 1
  }

  /** The internal steps still to be taken: undockings, the connect, five for each byte. */
  function ToDo(c: Case): nat
    requires c.taken <= |c.phone|
  {
    LockWork(c.left.holder) + LockWork(c.right.holder) + ConnectWork(c.connecting)
    + 5 * (|c.phone| - c.taken) + ByteWork(c.forwarder)
  }

  lemma InternalStepDecreases(c: Case, step: Step)
    requires Inv(c) && Internal(step) && Enabled(c, step)
    ensures c.taken <= |c.phone| && Do(c, step).taken <= |Do(c, step).phone|
    ensures ToDo(Do(c, step)) == ToDo(c) - 1
    ensures Do(c, step).phone == c.phone
  {
    hide PodOk, StreamOk, Trues;
  }

  ghost predicate InternalNext(c: Case, c': Case) {
    exists step :: Internal(step) && Enabled(c, step) && c' == Do(c, step)
  }

  /** A schedule: as long as anybody can take an internal step, somebody does. */
  ghost predicate Moves(c: Case, c': Case) {
    InternalNext(c, c') || (c' == c && forall d :: !InternalNext(c, d))
  }

  lemma MoveOn(c: Case) returns (c': Case)
    requires Inv(c) && !AtRest(c)
    ensures InternalNext(c, c')
  {
    hide Inv, AtRest, Enabled, Do;
    var step := SomeoneCanMove(c);
    c' := Do(c, step);
  }

  lemma {:induction false} ScheduleSettles(run: nat -> Case, i: nat) returns (j: nat)
    requires Inv(run(i)) && forall k: nat :: Moves(run(k), run(k + 1))
    ensures i <= j && Inv(run(j)) && AtRest(run(j)) && run(j).phone == run(i).phone
    decreases if run(i).taken <= |run(i).phone| then ToDo(run(i)) else 0
  {
    hide Enabled, Do, ToDo, AtRest;
    assert Moves(run(i), run(i + 1));
    if InternalNext(run(i), run(i + 1)) {
      var step :| Internal(step) && Enabled(run(i), step) && run(i + 1) == Do(run(i), step);
      InternalStepDecreases(run(i), step);
      StepKeepsInv(run(i), step);
      j := ScheduleSettles(run, i + 1);
    } else {
      j := i;
      if !AtRest(run(i)) {
        var c' := MoveOn(run(i));
      }
    }
  }

  /** Under every schedule without new calls, undocking and connecting end, and forwarding ends
      with every byte sent on unless a listener lets his channel fill up. */
  lemma EveryScheduleSettles(run: nat -> Case)
    requires Inv(run(0)) && forall k: nat :: Moves(run(k), run(k + 1))
    ensures exists j: nat :: Inv(run(j)) && AtRest(run(j)) && run(j).phone == run(0).phone
  {
    hide Inv, Moves, AtRest;
    var j := ScheduleSettles(run, 0);
  }
}
