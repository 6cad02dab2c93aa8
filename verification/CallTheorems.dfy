/** What a call on the game amounts to from its first statement to its last, whatever the other
    goroutines do in between: switching maps, and sending a message. game-server/main.go. */
module CallTheorems {
  import opened Basics
  import opened GameServer

  // ---------- SwitchPlayerMap ----------

  /** Between calls: which error the checks give, read off the map the player points to. */
  lemma ChecksAreExact(g: Game, key: Key, target: MapId)
    requires Inv(g) && g.switch.Idle?
    ensures CheckSwitch(g, key, target) == Some(MapNotFound) <==> target !in g.rooms
    ensures CheckSwitch(g, key, target) == Some(PlayerNotFound) <==> target in g.rooms && key !in g.players
    ensures CheckSwitch(g, key, target) == Some(AlreadyThere) <==>
              target in g.rooms && key in g.players && g.players[key].m == Some(target)
    ensures CheckSwitch(g, key, target) == Some(AlreadyThere) <==>
              target in g.rooms && key in g.players && key in g.rooms[target].players
  {
    hide LocksOk, FansOk, InboxesOk, QueuesOk, RosterOk;
    if target in g.rooms && key in g.players {
      assert RecordOk(g, key);
      assert key in g.rooms[target].players <==> Placed(g, key, target);
    }
  }

  /** Everybody but `key` is connected, placed and recorded as before. */
  ghost predicate OthersUnmoved(g0: Game, g: Game, key: Key) {
    && g.players.Keys == g0.players.Keys && g.rooms.Keys == g0.rooms.Keys
    && (forall k :: k in g0.players && k != key ==>
          g.players[k].zone == g0.players[k].zone && g.players[k].m == g0.players[k].m)
    && forall m :: m in g0.rooms ==> g.rooms[m].players - {key} == g0.rooms[m].players - {key}
  }

  /** The player has left every other map for the target, and both his records say so. */
  ghost predicate Moved(g0: Game, g: Game, key: Key, target: MapId) {
    && OthersUnmoved(g0, g, key) && key in g.players && target in g.rooms
    && g.players[key].zone == target && g.players[key].m == Some(target)
    && forall m :: m in g0.rooms ==>
         g.rooms[m].players == if m == target then g0.rooms[m].players + {key} else g0.rooms[m].players - {key}
  }

  /** In the middle of the call. */
  ghost predicate Underway(g0: Game, g: Game, key: Key, target: MapId) {
    && OthersUnmoved(g0, g, key) && g.switch.Active?
    && g.switch.key == key && g.switch.target == target
  }

  lemma CallBegins(g: Game, key: Key, target: MapId)
    requires g.switch.Idle? && CheckSwitch(g, key, target).None?
    ensures Underway(g, Do(g, BeginSwitch(key, target)), key, target)
  {
  }

  lemma StepLeavesOthers(g: Game, step: Step, key: Key)
    requires Enabled(g, step) && g.switch.Active? && g.switch.key == key
    ensures OthersUnmoved(g, Do(g, step), key)
  {
    hide Parse, MakePacket;
    match step {
      case SwitchOn =>
        match g.switch.pc {
          case Lock1 =>
          case Lock2 =>
          case _ =>
        }
      case _ =>
    }
  }

  lemma UnmovedOn(g0: Game, g: Game, g': Game, key: Key)
    requires OthersUnmoved(g0, g, key) && OthersUnmoved(g, g', key)
    ensures OthersUnmoved(g0, g', key)
  {
  }

  /** The statement that ends the call leaves the records as the call has set them. */
  lemma LastStatement(g: Game, step: Step)
    requires SwitchOk(g) && RecordsOk(g) && Enabled(g, step)
    requires g.switch.Active? && !Do(g, step).switch.Active?
    ensures var g', key := Do(g, step), g.switch.key;
      key in g'.players && g'.players[key].zone == g.switch.target && g'.players[key].m == Some(g.switch.target)
  {
    hide Parse, MakePacket;
    assert RecordOk(g, g.switch.key);
  }

  lemma WhereHeIs(g0: Game, g: Game, key: Key, target: MapId)
    requires OthersUnmoved(g0, g, key) && MembersOk(g) && g.switch.Idle?
    requires key in g.players && g.players[key].m == Some(target)
    ensures forall m :: m in g0.rooms ==>
      g.rooms[m].players == if m == target then g0.rooms[m].players + {key} else g0.rooms[m].players - {key}
  {
    forall m | m in g0.rooms
      ensures g.rooms[m].players == if m == target then g0.rooms[m].players + {key} else g0.rooms[m].players - {key}
    {
      assert key in g.rooms[m].players <==> Placed(g, key, m);
      var now, was := g.rooms[m].players, g0.rooms[m].players;
      assert now - {key} == was - {key};
      assert now == if m == target then (now - {key}) + {key} else now - {key};
    }
  }

  lemma CallGoesOn(g0: Game, g: Game, step: Step, key: Key, target: MapId)
    requires Inv(g) && Underway(g0, g, key, target) && Enabled(g, step)
    ensures var g' := Do(g, step);
      if g'.switch.Active? then Underway(g0, g', key, target) else Moved(g0, g', key, target)
  {
    StepKeepsInv(g, step);
    InvParts(g);
    InvParts(Do(g, step));
    StepLeavesOthers(g, step, key);
    UnmovedOn(g0, g, Do(g, step), key);
    hide Inv, Do, Enabled, OthersUnmoved, MembersOk, RecordsOk, SwitchOk;
    if Do(g, step).switch.Active? {
      SwitchStays(g, step);
    } else {
      LastStatement(g, step);
      WhereHeIs(g0, Do(g, step), key, target);
    }
  }

  lemma SwitchStays(g: Game, step: Step)
    requires Enabled(g, step) && g.switch.Active? && Do(g, step).switch.Active?
    ensures Do(g, step).switch.key == g.switch.key && Do(g, step).switch.target == g.switch.target
  {
    hide Parse, MakePacket;
  }

  lemma {:induction false} CallUntil(
      states: seq<Game>, steps: seq<Step>, i: nat, l: nat, key: Key, target: MapId)
    requires IsRun(states, steps) && Inv(states[0]) && i < l <= |steps| && steps[i] == BeginSwitch(key, target)
    requires CheckSwitch(states[i], key, target).None?
    requires forall k :: i < k < l ==> states[k].switch.Active?
    ensures if states[l].switch.Active? then Underway(states[i], states[l], key, target)
            else Moved(states[i], states[l], key, target)
  {
    hide Inv, Do, Underway, Moved, CheckSwitch;
    if l == i + 1 {
      CallBegins(states[i], key, target);
    } else {
      CallUntil(states, steps, i, l - 1, key, target);
      RunKeepsInv(states, steps, l - 1);
      CallGoesOn(states[i], states[l - 1], steps[l - 1], key, target);
    }
  }

  /** A call for a known player and a known map that he is not in ends with him in that map and in
      no other, both his records naming it, and everybody else where they were; any other call
      changes nothing and returns the error named. */
  lemma SwitchTakesEffect(states: seq<Game>, steps: seq<Step>, i: nat, j: nat, key: Key, target: MapId)
    requires IsRun(states, steps) && Inv(states[0]) && i < j <= |steps| && steps[i] == BeginSwitch(key, target)
    requires states[j].switch.Idle? && forall k :: i < k < j ==> states[k].switch.Active?
    ensures var g := states[i];
      if target !in g.rooms then CheckSwitch(g, key, target) == Some(MapNotFound) && j == i + 1 && states[j] == g
      else if key !in g.players then CheckSwitch(g, key, target) == Some(PlayerNotFound) && j == i + 1 && states[j] == g
      else if g.players[key].m == Some(target) then
        CheckSwitch(g, key, target) == Some(AlreadyThere) && j == i + 1 && states[j] == g
      else Moved(g, states[j], key, target)
  {
    RunKeepsInv(states, steps, i);
    assert Enabled(states[i], steps[i]);
    ChecksAreExact(states[i], key, target);
    hide Inv, Moved;
    if CheckSwitch(states[i], key, target).Some? {
      assert states[i + 1] == states[i];
    } else {
      hide Do, CheckSwitch;
      CallUntil(states, steps, i, j, key, target);
    }
  }

  // ---------- SendMessage ----------

  /** Unless its channel is full, the map a player is in gets exactly his message at the end of
      the channel; without a map, or into a full channel, nothing is sent. */
  lemma SendStores(g: Game, key: Key, raw: string)
    requires Enabled(g, Send(key, raw))
    ensures var g' := Do(g, Send(key, raw));
      match g.players[key].m
      case None => g' == g
      case Some(m) =>
        && m in g.rooms
        && if |g.rooms[m].queue| >= 100 then g' == g
           else g' == g.(rooms := g.rooms[m := g.rooms[m].(
             queue := g.rooms[m].queue + [Message(key, raw)], sent := g.rooms[m].sent + [Message(key, raw)])])
  {
  }

  lemma SentGrows(g: Game, step: Step, m: MapId)
    requires Enabled(g, step) && m in g.rooms
    ensures m in Do(g, step).rooms && g.rooms[m].sent <= Do(g, step).rooms[m].sent
  {
    hide Parse, MakePacket, DoSwitch, CanSwitch, DoDeliver;
    match step
    case SwitchOn => SwitchEffect(g, m);
    case Deliver(n, key) => DeliverEffect(g, n, key, m);
    case _ =>
  }

  lemma {:induction false} SentGrowsFrom(states: seq<Game>, steps: seq<Step>, i: nat, j: nat, m: MapId)
    requires IsRun(states, steps) && i <= j <= |steps| && m in states[i].rooms
    ensures m in states[j].rooms && states[i].rooms[m].sent <= states[j].rooms[m].sent
  {
    hide Do, Enabled;
    if i < j {
      SentGrowsFrom(states, steps, i, j - 1, m);
      SentGrows(states[j - 1], steps[j - 1], m);
    }
  }

  lemma {:induction false} FannedSomewhere(sessions: seq<Session>, m: MapId, message: Message) returns (n: nat)
    requires message in Fanned(sessions, m)
    ensures n < |sessions| && sessions[n].m == m && sessions[n].message == message
  {
    var last := |sessions| - 1;
    if sessions[last].m == m && sessions[last].message == message {
      n := last;
    } else {
      n := FannedSomewhere(sessions[..last], m, message);
    }
  }

  /** A message that found room in the channel of its sender's map has, whenever nobody can move
      any more, been fanned out in that map to everybody who was in it then. */
  lemma MessageArrives(
      states: seq<Game>, steps: seq<Step>, i: nat, j: nat, key: Key, raw: string, m: MapId) returns (n: nat)
    requires IsRun(states, steps) && Inv(states[0]) && i < j <= |steps| && steps[i] == Send(key, raw)
    requires key in states[i].players && states[i].players[key].m == Some(m)
    requires m in states[i].rooms && |states[i].rooms[m].queue| < CAPACITY
    requires !Busy(states[j])
    ensures n < |states[j].sessions| && states[j].sessions[n].m == m
    ensures states[j].sessions[n].message == Message(key, raw)
    ensures forall k :: k in states[j].sessions[n].roster ==> Served(states[j], n, k)
  {
    RunKeepsInv(states, steps, i);
    RunKeepsInv(states, steps, j);
    SendStores(states[i], key, raw);
    SentGrowsFrom(states, steps, i + 1, j, m);
    IdleMeansFannedOut(states[j]);
    hide Inv, Do, Enabled, Served, Busy;
    assert states[j].rooms[m].sent[|states[i].rooms[m].sent|] == Message(key, raw);
    n := FannedSomewhere(states[j].sessions, m, Message(key, raw));
  }

  // ---------- Players' channels ----------

  ghost predicate ChannelOk(p: Player) {
    p.unread <= |p.inbox| && p.unread <= 100
  }

  /** What is in a player's channel, oldest first. */
  function Channel(p: Player): seq<Mail>
    requires p.unread <= |p.inbox|
  {
    p.inbox[|p.inbox| - p.unread..]
  }

  /** A player's channel is a queue of at most 100 mails: reading takes the oldest, a fan-out's
      delivery may add one at the end if there is room, and nothing else touches it. */
  lemma ChannelIsQueue(g: Game, step: Step, key: Key)
    requires Enabled(g, step) && key in g.players && ChannelOk(g.players[key])
    ensures key in Do(g, step).players
    ensures var p, p' := g.players[key], Do(g, step).players[key];
      && ChannelOk(p')
      && if step == Read(key) then Channel(p) != [] && Channel(p') == Channel(p)[1..]
         else Channel(p') == Channel(p)
              || (step.Deliver? && step.key == key && |Channel(p)| < 100
                  && Channel(p') == Channel(p) + [p'.inbox[|p'.inbox| - 1]])
  {
    ChannelChanges(g, step, key);
    var p, p' := g.players[key], Do(g, step).players[key];
    hide Do, Enabled;
    if step == Read(key) {
      LastAfterTaking(p.inbox, p.unread);
    } else if p'.inbox != p.inbox {
      LastAfterAdding(p.inbox, p.unread, p'.inbox[|p.inbox|]);
    }
  }

  lemma ChannelChanges(g: Game, step: Step, key: Key)
    requires Enabled(g, step) && key in g.players
    ensures key in Do(g, step).players
    ensures var p, p' := g.players[key], Do(g, step).players[key];
      if step == Read(key) then p.unread > 0 && p'.unread == p.unread - 1 && p'.inbox == p.inbox
      else (p'.unread == p.unread && p'.inbox == p.inbox)
           || (step.Deliver? && step.key == key && p.unread < 100 && p'.unread == p.unread + 1
               && |p'.inbox| == |p.inbox| + 1 && p'.inbox == p.inbox + [p'.inbox[|p.inbox|]])
  {
    hide Parse, MakePacket;
  }

  lemma {:induction false} ChannelsStayQueues(
      states: seq<Game>, steps: seq<Step>, ids: seq<MapId>, n: nat, key: Key)
    requires IsRun(states, steps) && IsInitial(states[0], ids) && n <= |steps|
    ensures key in states[n].players ==> ChannelOk(states[n].players[key])
  {
    if n > 0 {
      ChannelsStayQueues(states, steps, ids, n - 1, key);
      var g, step := states[n - 1], steps[n - 1];
      if key in g.players {
        ChannelIsQueue(g, step, key);
      } else {
        NewcomerIsNew(g, step, key);
      }
    }
  }

  /** A player comes in by connecting, in no map and with an empty channel; connecting under a name
      that is taken changes nothing. */
  lemma NewcomerIsNew(g: Game, step: Step, key: Key)
    requires Enabled(g, step)
    ensures key !in g.players && key in Do(g, step).players ==> step == Connect(key)
    ensures step == Connect(key) ==>
      if key in g.players then Do(g, step) == g
      else Do(g, step) == g.(players := g.players[key := Player(-1, None, [], 0, {})])
  {
    hide Parse, MakePacket;
  }
}
