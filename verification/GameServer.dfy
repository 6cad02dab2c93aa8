/** Map chat of game-server/main.go: players switch maps under two levels of locks while one
    goroutine per map fans messages out. Every access to shared state is one step. */
module GameServer {
  import opened Basics

  /** The lower-cased name under which a player is filed. */
  type Key = string

  type MapId = int

  const CAPACITY: nat := 100
  const ZERO: char := '\0'

  // ---------- Packets ----------

  datatype Parsed = Malformed | Parsed(sender: Key, raw: string)

  function MakePacket(key: Key, raw: string): string {
    key + [ZERO] + raw
  }

  /** The first zero byte ends the sender's key. */
  function Parse(packet: string): Parsed {
    if packet == "" then Malformed
    else if packet[0] == ZERO then Parsed("", packet[1..])
    else
      match Parse(packet[1..])
      case Malformed => Malformed
      case Parsed(sender, raw) => Parsed([packet[0]] + sender, raw)
  }

  /** A packet is read back as it was meant exactly if the key has no zero byte, and it is
      never malformed. */
  lemma {:induction false} ParseMake(key: Key, raw: string)
    ensures var p := Parse(MakePacket(key, raw));
      && p.Parsed?
      && (p == Parsed(key, raw) <==> ZERO !in key)
      && (p.sender == key <==> ZERO !in key)
  {
    var packet := MakePacket(key, raw);
    if key == "" {
      assert packet[1..] == raw;
    } else if key[0] == ZERO {
      assert packet[0] == ZERO;
    } else {
      assert packet[1..] == MakePacket(key[1..], raw);
      ParseMake(key[1..], raw);
      assert key == [key[0]] + key[1..];
    }
  }

  // ---------- State ----------

  /** What was sent into a map's channel, and by whom. */
  datatype Message = Message(from: Key, raw: string)

  /** One fan-out: the packet, and who was in the map when its lock was taken. */
  datatype Session = Session(m: MapId, message: Message, roster: set<Key>)

  datatype Mail = Mail(session: nat, raw: string)

  /** `inbox` is everything ever put into the player's channel, `unread` what is still in it, and
      `dropped` lists the fan-outs that found it full. */
  datatype Player = Player(zone: int, m: Option<MapId>, inbox: seq<Mail>, unread: nat, dropped: set<nat>)

  const NEW_PLAYER := Player(-1, None, [], 0, {})

  datatype Holder = Free | BySwitch | ByFan

  datatype Fan = Waiting | Got(message: Message) | Sending(session: nat, todo: set<Key>)

  /** `sent` is everything ever put into the map's channel, `queue` what is still in it. */
  datatype Room = Room(players: set<Key>, held: Holder, fan: Fan, queue: seq<Message>, sent: seq<Message>)

  datatype SwitchPc = Lock1 | Lock2 | Remove | Insert | SetZone | SetMap | UnlockNew | UnlockOld

  /** The call of SwitchPlayerMap that holds the game's lock. */
  datatype Switch = Idle | Active(key: Key, target: MapId, prior: Option<MapId>, pc: SwitchPc)

  datatype Game = Game(
    players: map<Key, Player>, rooms: map<MapId, Room>, switch: Switch, sessions: seq<Session>)

  datatype Step =
    | Connect(key: Key)
    | BeginSwitch(key: Key, target: MapId)
    | SwitchOn
    | Send(key: Key, raw: string)
    | Receive(m: MapId)
    | FanLock(m: MapId)
    | Deliver(m: MapId, key: Key)
    | FanUnlock(m: MapId)
    | Read(key: Key)

  /** Locks are taken in the order of the map ids. */
  function First(sw: Switch): MapId
    requires sw.Active?
  {
    if sw.prior.Some? && sw.prior.value < sw.target then sw.prior.value else sw.target
  }

  function Second(sw: Switch): MapId
    requires sw.Active? && sw.prior.Some?
  {
    if sw.prior.value < sw.target then sw.target else sw.prior.value
  }

  predicate CanSwitch(g: Game) {
    && g.switch.Active? && g.switch.target in g.rooms && g.switch.key in g.players
    && (g.switch.prior.Some? ==> g.switch.prior.value in g.rooms)
    && match g.switch.pc
       case Lock1 => g.rooms[First(g.switch)].held.Free?
       case Lock2 => g.switch.prior.Some? && g.rooms[Second(g.switch)].held.Free?
       case Remove => g.switch.prior.Some?
       case UnlockOld => g.switch.prior.Some?
       case _ => true
  }

  predicate Enabled(g: Game, step: Step) {
    match step
    case Connect(_) => g.switch.Idle?
    case BeginSwitch(_, _) => g.switch.Idle?
    case SwitchOn => CanSwitch(g)
    case Send(key, _) => key in g.players && (g.players[key].m.Some? ==> g.players[key].m.value in g.rooms)
    case Receive(m) => m in g.rooms && g.rooms[m].fan.Waiting? && g.rooms[m].queue != []
    case FanLock(m) => m in g.rooms && g.rooms[m].fan.Got? && g.rooms[m].held.Free?
    case Deliver(m, key) =>
      m in g.rooms && g.rooms[m].fan.Sending? && key in g.rooms[m].fan.todo && key in g.players
      && g.rooms[m].fan.session < |g.sessions|
    case FanUnlock(m) => m in g.rooms && g.rooms[m].fan.Sending? && g.rooms[m].fan.todo == {}
    case Read(key) => key in g.players && g.players[key].unread > 0
  }

  function SetRoom(g: Game, m: MapId, room: Room): Game {
    g.(rooms := g.rooms[m := room])
  }

  function SetHeld(g: Game, m: MapId, held: Holder): Game
    requires m in g.rooms
  {
    SetRoom(g, m, g.rooms[m].(held := held))
  }

  function SetPlayer(g: Game, key: Key, p: Player): Game {
    g.(players := g.players[key := p])
  }

  function SwitchTo(g: Game, pc: SwitchPc): Game
    requires g.switch.Active?
  {
    g.(switch := g.switch.(pc := pc))
  }

  /** The next statement of SwitchPlayerMap, once its checks have passed. */
  function DoSwitch(g: Game): Game
    requires CanSwitch(g)
  {
    var sw := g.switch;
    match sw.pc
    case Lock1 => SwitchTo(SetHeld(g, First(sw), BySwitch), if sw.prior.Some? then Lock2 else Insert)
    case Lock2 => SwitchTo(SetHeld(g, Second(sw), BySwitch), Remove)
    case Remove =>
      var room := g.rooms[sw.prior.value];
      SwitchTo(SetRoom(g, sw.prior.value, room.(players := room.players - {sw.key})), Insert)
    case Insert =>
      var room := g.rooms[sw.target];
      SwitchTo(SetRoom(g, sw.target, room.(players := room.players + {sw.key})), SetZone)
    case SetZone => SwitchTo(SetPlayer(g, sw.key, g.players[sw.key].(zone := sw.target)), SetMap)
    case SetMap => SwitchTo(SetPlayer(g, sw.key, g.players[sw.key].(m := Some(sw.target))), UnlockNew)
    case UnlockNew =>
      var g' := SetHeld(g, sw.target, Free);
      if sw.prior.Some? then SwitchTo(g', UnlockOld) else g'.(switch := Idle)
    case UnlockOld => SetHeld(g, sw.prior.value, Free).(switch := Idle)
  }

  /** The checks of SwitchPlayerMap; when one fails the call returns its error at once. */
  datatype SwitchError = MapNotFound | PlayerNotFound | AlreadyThere

  function CheckSwitch(g: Game, key: Key, target: MapId): Option<SwitchError> {
    if target !in g.rooms then Some(MapNotFound)
    else if key !in g.players then Some(PlayerNotFound)
    else if g.players[key].zone == target then Some(AlreadyThere)
    else None
  }

  /** One receiver of a fan-out: not the sender, still in this map, and with room in the channel. */
  function DoDeliver(g: Game, m: MapId, key: Key): Game
    requires Enabled(g, Deliver(m, key))
  {
    var room, p := g.rooms[m], g.players[key];
    var n := room.fan.session;
    var message := g.sessions[n].message;
    var parsed := Parse(MakePacket(message.from, message.raw));
    var g' := SetRoom(g, m, room.(fan := Sending(n, room.fan.todo - {key})));
    if parsed.Parsed? && key != parsed.sender && p.m == Some(m) then
      if p.unread < CAPACITY
      then SetPlayer(g', key, p.(inbox := p.inbox + [Mail(n, parsed.raw)], unread := p.unread + 1))
      else SetPlayer(g', key, p.(dropped := p.dropped + {n}))
    else g'
  }

  function Do(g: Game, step: Step): Game
    requires Enabled(g, step)
  {
    match step
    case Connect(key) => if key in g.players then g else SetPlayer(g, key, NEW_PLAYER)
    case BeginSwitch(key, target) =>
      if CheckSwitch(g, key, target).Some? then g
      else
        var zone := g.players[key].zone;
        g.(switch := Active(key, target, if zone == -1 then None else Some(zone), Lock1))
    case SwitchOn => DoSwitch(g)
    case Send(key, raw) =>
      if g.players[key].m.None? then g
      else
        var m := g.players[key].m.value;
        var room := g.rooms[m];
        if |room.queue| >= CAPACITY then g
        else SetRoom(g, m, room.(queue := room.queue + [Message(key, raw)], sent := room.sent + [Message(key, raw)]))
    case Receive(m) =>
      var room := g.rooms[m];
      var message := room.queue[0];
      var fan := if Parse(MakePacket(message.from, message.raw)).Malformed? then Waiting else Got(message);
      SetRoom(g, m, room.(queue := room.queue[1..], fan := fan))
    case FanLock(m) =>
      var room := g.rooms[m];
      var g' := SetRoom(g, m, room.(held := ByFan, fan := Sending(|g.sessions|, room.players)));
      g'.(sessions := g.sessions + [Session(m, room.fan.message, room.players)])
    case Deliver(m, key) => DoDeliver(g, m, key)
    case FanUnlock(m) => SetRoom(g, m, g.rooms[m].(held := Free, fan := Waiting))
    case Read(key) => SetPlayer(g, key, g.players[key].(unread := g.players[key].unread - 1))
  }

  // ---------- The invariant ----------

  /** Which map holds the player, given how far his switch has come. */
  ghost predicate Placed(g: Game, key: Key, m: MapId) {
    key in g.players &&
    if g.switch.Active? && g.switch.key == key then
      match g.switch.pc {
        case Lock1 | Lock2 | Remove => g.switch.prior == Some(m)
        case Insert => false
        case _ => m == g.switch.target
      }
    else g.players[key].m == Some(m)
  }

  ghost predicate MembersOk(g: Game) {
    forall m, key :: m in g.rooms ==> (key in g.rooms[m].players <==> Placed(g, key, m))
  }

  function ZoneOf(m: Option<MapId>): int {
    if m.Some? then m.value else -1
  }

  /** The player's two records of his map agree outside his own switch. */
  ghost predicate RecordOk(g: Game, key: Key)
    requires key in g.players
  {
    var p, sw := g.players[key], g.switch;
    && (p.m.Some? ==> p.m.value in g.rooms)
    && if sw.Active? && sw.key == key then
         match sw.pc
         case SetMap => p.zone == sw.target && p.m == sw.prior
         case UnlockNew | UnlockOld => p.zone == sw.target && p.m == Some(sw.target)
         case _ => p.zone == ZoneOf(sw.prior) && p.m == sw.prior
       else p.zone == ZoneOf(p.m)
  }

  ghost predicate RecordsOk(g: Game) {
    forall key :: key in g.players ==> RecordOk(g, key)
  }

  ghost predicate SwitchOk(g: Game) {
    && (forall m :: m in g.rooms ==> m > 0)
    && (g.switch.Active? ==>
          && g.switch.key in g.players && g.switch.target in g.rooms
          && (g.switch.prior.Some? ==> g.switch.prior.value in g.rooms && g.switch.prior.value != g.switch.target)
          && (g.switch.prior.None? ==> !(g.switch.pc.Lock2? || g.switch.pc.Remove? || g.switch.pc.UnlockOld?)))
  }

  /** Which maps' locks the switching call holds. */
  predicate Holds(sw: Switch, m: MapId) {
    sw.Active? &&
    match sw.pc
    case Lock1 => false
    case Lock2 => m == First(sw)
    case UnlockOld => sw.prior == Some(m)
    case _ => m == sw.target || sw.prior == Some(m)
  }

  ghost predicate LocksOk(g: Game) {
    forall m :: m in g.rooms ==>
      && (g.rooms[m].held.BySwitch? <==> Holds(g.switch, m))
      && (g.rooms[m].held.ByFan? <==> g.rooms[m].fan.Sending?)
  }

  /** All mail of the player is from before session n. */
  predicate Before(inbox: seq<Mail>, n: nat) {
    inbox != [] ==> inbox[|inbox| - 1].session < n
  }

  /** The running fan-outs: the roster has not changed, and those still to be served have no
      mail from this or a later session. */
  ghost predicate FanOk(g: Game, m: MapId)
    requires m in g.rooms
  {
    var room := g.rooms[m];
    room.fan.Sending? ==>
      && room.fan.session < |g.sessions| && g.sessions[room.fan.session].m == m
      && g.sessions[room.fan.session].roster == room.players
      && room.fan.todo <= room.players
      && forall key :: key in room.fan.todo ==> key in g.players && Before(g.players[key].inbox, room.fan.session)
  }

  ghost predicate FansOk(g: Game) {
    forall m :: m in g.rooms ==> FanOk(g, m)
  }

  /** A mail is what the session says, to somebody on its roster other than the parsed sender. */
  ghost predicate MailOk(g: Game, key: Key, mail: Mail) {
    && mail.session < |g.sessions|
    && var s := g.sessions[mail.session];
       var parsed := Parse(MakePacket(s.message.from, s.message.raw));
       key in s.roster && parsed.Parsed? && mail.raw == parsed.raw && key != parsed.sender
  }

  ghost predicate InboxOk(g: Game, key: Key)
    requires key in g.players
  {
    var inbox := g.players[key].inbox;
    && (forall i :: 0 <= i < |inbox| ==> MailOk(g, key, inbox[i]))
    && (forall i, j :: 0 <= i < j < |inbox| ==> inbox[i].session < inbox[j].session)
  }

  ghost predicate InboxesOk(g: Game) {
    forall key :: key in g.players ==> InboxOk(g, key)
  }

  /** What a session's packet says. */
  function Packet(s: Session): Parsed {
    Parse(MakePacket(s.message.from, s.message.raw))
  }

  /** The n-th fan-out is over for this player: he is the named sender, has the mail, or his
      channel was full. */
  ghost predicate Served(g: Game, n: nat, key: Key)
    requires n < |g.sessions|
  {
    && key in g.players
    && (|| (Packet(g.sessions[n]).Parsed? && key == Packet(g.sessions[n]).sender)
        || (exists i :: 0 <= i < |g.players[key].inbox| && g.players[key].inbox[i].session == n)
        || n in g.players[key].dropped)
  }

  /** The n-th fan-out is running and has yet to come to this player. */
  predicate Waits(g: Game, n: nat, key: Key)
    requires n < |g.sessions|
  {
    var m := g.sessions[n].m;
    m in g.rooms && g.rooms[m].fan.Sending? && g.rooms[m].fan.session == n && key in g.rooms[m].fan.todo
  }

  ghost predicate RosterOk(g: Game) {
    forall n, key :: 0 <= n < |g.sessions| && key in g.sessions[n].roster ==> Served(g, n, key) || Waits(g, n, key)
  }

  /** The messages fanned out by map m, in order. */
  function Fanned(sessions: seq<Session>, m: MapId): seq<Message> {
    if sessions == [] then []
    else
      var last := sessions[|sessions| - 1];
      Fanned(sessions[..|sessions| - 1], m) + if last.m == m then [last.message] else []
  }

  /** Nothing is lost or reordered between a map's channel and its fan-outs. */
  ghost predicate QueueOk(g: Game, m: MapId)
    requires m in g.rooms
  {
    var room := g.rooms[m];
    room.sent == Fanned(g.sessions, m) + (if room.fan.Got? then [room.fan.message] else []) + room.queue
  }

  ghost predicate QueuesOk(g: Game) {
    forall m :: m in g.rooms ==> QueueOk(g, m)
  }

  ghost predicate Inv(g: Game) {
    && SwitchOk(g) && MembersOk(g) && RecordsOk(g) && LocksOk(g)
    && FansOk(g) && InboxesOk(g) && QueuesOk(g) && RosterOk(g)
  }

  // ---------- Every step keeps the invariant ----------

  /** A switching call touches locks, membership and the player's records, nothing else. */
  lemma SwitchEffect(g: Game, m: MapId)
    requires CanSwitch(g) && m in g.rooms
    ensures var g', sw := DoSwitch(g), g.switch;
      && g'.sessions == g.sessions && g'.players.Keys == g.players.Keys && g'.rooms.Keys == g.rooms.Keys
      && (forall key :: key in g.players ==> g'.players[key].inbox == g.players[key].inbox)
      && g'.rooms[m].(held := g.rooms[m].held, players := g.rooms[m].players) == g.rooms[m]
      && (g'.rooms[m].players != g.rooms[m].players ==> sw.pc in {Remove, Insert} && Holds(sw, m))
  {
  }

  lemma SwitchKept(g: Game, step: Step)
    requires SwitchOk(g) && RecordsOk(g) && Enabled(g, step)
    ensures SwitchOk(Do(g, step))
  {
    match step
    case BeginSwitch(key, target) =>
      if CheckSwitch(g, key, target).None? {
        assert RecordOk(g, key);
      }
    case SwitchOn =>
      match g.switch.pc {
        case Lock1 =>
        case Lock2 =>
        case _ =>
      }
    case _ =>
  }

  lemma RecordsKept(g: Game, step: Step)
    requires SwitchOk(g) && RecordsOk(g) && Enabled(g, step)
    ensures RecordsOk(Do(g, step))
  {
    var g' := Do(g, step);
    forall key | key in g'.players ensures RecordOk(g', key) {
      RecordKept(g, step, key);
    }
  }

  lemma RecordKept(g: Game, step: Step, key: Key)
    requires SwitchOk(g) && RecordsOk(g) && Enabled(g, step)
    requires key in Do(g, step).players
    ensures RecordOk(Do(g, step), key)
  {
    hide Parse, MakePacket;
    if key in g.players {
      assert RecordOk(g, key);
    }
    match step
    case SwitchOn =>
      match g.switch.pc {
        case Lock1 =>
        case SetZone =>
        case SetMap =>
        case _ =>
      }
    case _ =>
  }

  lemma MembersKept(g: Game, step: Step)
    requires SwitchOk(g) && RecordsOk(g) && MembersOk(g) && Enabled(g, step)
    ensures MembersOk(Do(g, step))
  {
    var g' := Do(g, step);
    forall m, key | m in g'.rooms ensures key in g'.rooms[m].players <==> Placed(g', key, m) {
      MemberKept(g, step, m, key);
    }
  }

  lemma MemberKept(g: Game, step: Step, m: MapId, key: Key)
    requires SwitchOk(g) && RecordsOk(g) && MembersOk(g) && Enabled(g, step)
    requires m in Do(g, step).rooms
    ensures key in Do(g, step).rooms[m].players <==> Placed(Do(g, step), key, m)
  {
    hide Parse, MakePacket;
    assert key in g.rooms[m].players <==> Placed(g, key, m);
    if key in g.players {
      assert RecordOk(g, key);
    }
    if step.SwitchOn? {
      MemberSwitched(g, m, key);
    } else {
      hide DoSwitch;
    }
  }

  lemma MemberSwitched(g: Game, m: MapId, key: Key)
    requires SwitchOk(g) && CanSwitch(g) && m in g.rooms
    requires key in g.players ==> RecordOk(g, key)
    requires key in g.rooms[m].players <==> Placed(g, key, m)
    ensures m in DoSwitch(g).rooms && (key in DoSwitch(g).rooms[m].players <==> Placed(DoSwitch(g), key, m))
  {
    match g.switch.pc
    case Remove =>
    case Insert =>
    case SetMap =>
    case _ =>
  }

  lemma LocksKept(g: Game, step: Step)
    requires SwitchOk(g) && LocksOk(g) && Enabled(g, step)
    ensures LocksOk(Do(g, step))
  {
    hide Parse, MakePacket;
    match step
    case SwitchOn =>
      match g.switch.pc {
        case Lock1 =>
        case Lock2 =>
        case UnlockNew =>
        case UnlockOld =>
        case _ =>
      }
    case _ =>
  }

  /** Nobody is in two maps. */
  lemma OneMap(g: Game, key: Key, m: MapId, n: MapId)
    requires MembersOk(g) && m in g.rooms && n in g.rooms
    requires key in g.rooms[m].players && key in g.rooms[n].players
    ensures m == n
  {
    assert Placed(g, key, m) && Placed(g, key, n);
  }

  lemma FansKept(g: Game, step: Step)
    requires SwitchOk(g) && MembersOk(g) && LocksOk(g) && FansOk(g) && InboxesOk(g) && Enabled(g, step)
    ensures FansOk(Do(g, step))
  {
    var g' := Do(g, step);
    forall m | m in g'.rooms ensures FanOk(g', m) {
      FanKept(g, step, m);
    }
  }

  lemma FanKept(g: Game, step: Step, m: MapId)
    requires SwitchOk(g) && MembersOk(g) && LocksOk(g) && FansOk(g) && InboxesOk(g) && Enabled(g, step)
    requires m in g.rooms
    ensures m in Do(g, step).rooms && FanOk(Do(g, step), m)
  {
    assert FanOk(g, m);
    hide Parse, MakePacket, Fanned, DoSwitch, CanSwitch;
    match step
    case Deliver(n, key) =>
      assert FanOk(g, n);
      if n != m && g.rooms[m].fan.Sending? && key in g.rooms[m].fan.todo {
        OneMap(g, key, m, n);
      }
    case FanLock(n) =>
      if n == m {
        forall key | key in g.rooms[m].players
          ensures key in g.players && Before(g.players[key].inbox, |g.sessions|)
        {
          MailIsOld(g, m, key);
        }
      }
    case SwitchOn => SwitchEffect(g, m);
    case _ =>
  }

  lemma MailIsOld(g: Game, m: MapId, key: Key)
    requires MembersOk(g) && InboxesOk(g) && m in g.rooms && key in g.rooms[m].players
    ensures key in g.players && Before(g.players[key].inbox, |g.sessions|)
  {
    assert Placed(g, key, m);
    assert InboxOk(g, key);
    var inbox := g.players[key].inbox;
    if inbox != [] {
      assert MailOk(g, key, inbox[|inbox| - 1]);
    }
  }

  lemma InboxesKept(g: Game, step: Step)
    requires FansOk(g) && InboxesOk(g) && Enabled(g, step)
    ensures InboxesOk(Do(g, step))
  {
    var g' := Do(g, step);
    forall key | key in g'.players ensures InboxOk(g', key) {
      InboxKept(g, step, key);
    }
  }

  lemma InboxKept(g: Game, step: Step, key: Key)
    requires FansOk(g) && InboxesOk(g) && Enabled(g, step)
    requires key in Do(g, step).players
    ensures InboxOk(Do(g, step), key)
  {
    hide Parse, MakePacket;
    SessionsGrow(g, step);
    if key in g.players {
      assert InboxOk(g, key);
      if step.Deliver? && step.key == key {
        DeliveredInboxOk(g, step.m, key);
      } else {
        assert Do(g, step).players[key].inbox == g.players[key].inbox;
        MailKept(g, Do(g, step), key);
      }
    }
  }

  lemma SessionsGrow(g: Game, step: Step)
    requires Enabled(g, step)
    ensures g.sessions <= Do(g, step).sessions
  {
    hide Parse, MakePacket;
  }

  /** Old mail stays in order: sessions are only added. */
  lemma MailKept(g: Game, g': Game, key: Key)
    requires key in g.players && InboxOk(g, key) && g.sessions <= g'.sessions
    ensures forall i :: 0 <= i < |g.players[key].inbox| ==> MailOk(g', key, g.players[key].inbox[i])
  {
    hide Parse, MakePacket;
    var inbox := g.players[key].inbox;
    forall i | 0 <= i < |inbox| ensures MailOk(g', key, inbox[i]) {
      assert MailOk(g, key, inbox[i]);
    }
  }

  lemma DeliveredInboxOk(g: Game, m: MapId, key: Key)
    requires FansOk(g) && InboxesOk(g) && Enabled(g, Deliver(m, key))
    ensures InboxOk(Do(g, Deliver(m, key)), key)
  {
    hide Parse, MakePacket;
    var g' := Do(g, Deliver(m, key));
    assert FanOk(g, m) && InboxOk(g, key);
    MailKept(g, g', key);
    var inbox, inbox' := g.players[key].inbox, g'.players[key].inbox;
    if inbox' != inbox {
      assert inbox' == inbox + [inbox'[|inbox|]];
      assert MailOk(g', key, inbox'[|inbox|]);
    }
  }

  lemma FannedNext(sessions: seq<Session>, s: Session, m: MapId)
    ensures Fanned(sessions + [s], m) == Fanned(sessions, m) + if s.m == m then [s.message] else []
  {
    assert (sessions + [s])[..|sessions|] == sessions;
  }

  lemma QueuesKept(g: Game, step: Step)
    requires QueuesOk(g) && LocksOk(g) && Enabled(g, step)
    ensures QueuesOk(Do(g, step))
  {
    var g' := Do(g, step);
    forall m | m in g'.rooms ensures QueueOk(g', m) {
      QueueKept(g, step, m);
    }
  }

  lemma QueueKept(g: Game, step: Step, m: MapId)
    requires QueuesOk(g) && LocksOk(g) && Enabled(g, step) && m in g.rooms
    ensures m in Do(g, step).rooms && QueueOk(Do(g, step), m)
  {
    assert QueueOk(g, m);
    if step.Send? && g.players[step.key].m == Some(m) {
      QueueAfterSend(g, step.key, step.raw, m);
    } else if step.Receive? && step.m == m {
      QueueAfterReceive(g, m);
    } else if step.FanLock? {
      QueueAfterLock(g, step.m, m);
    } else {
      QueueUntouched(g, step, m);
    }
  }

  lemma QueueAfterSend(g: Game, key: Key, raw: string, m: MapId)
    requires m in g.rooms && QueueOk(g, m) && key in g.players && g.players[key].m == Some(m)
    ensures m in Do(g, Send(key, raw)).rooms && QueueOk(Do(g, Send(key, raw)), m)
  {
    hide Fanned;
    var room := g.rooms[m];
    var taken := Fanned(g.sessions, m) + if room.fan.Got? then [room.fan.message] else [];
    Pushed(room.sent, taken, room.queue, Message(key, raw));
  }

  lemma QueueAfterReceive(g: Game, m: MapId)
    requires m in g.rooms && QueueOk(g, m) && Enabled(g, Receive(m))
    ensures QueueOk(Do(g, Receive(m)), m)
  {
    var room := g.rooms[m];
    ParseMake(room.queue[0].from, room.queue[0].raw);
    hide Parse, MakePacket, Fanned;
    Pulled(room.sent, Fanned(g.sessions, m), room.queue);
  }

  lemma QueueAfterLock(g: Game, n: MapId, m: MapId)
    requires m in g.rooms && QueueOk(g, m) && Enabled(g, FanLock(n))
    ensures m in Do(g, FanLock(n)).rooms && QueueOk(Do(g, FanLock(n)), m)
  {
    hide Fanned;
    var s := Session(n, g.rooms[n].fan.message, g.rooms[n].players);
    FannedNext(g.sessions, s, m);
    if n == m {
      Taken(Fanned(g.sessions, m), s.message, g.rooms[m].queue);
    }
  }

  lemma Taken<T>(fanned: seq<T>, x: T, queue: seq<T>)
    ensures fanned + [x] + queue == (fanned + [x]) + [] + queue
  {
  }

  /** All other steps leave what has been sent, received and fanned out alone. */
  lemma QueueUntouched(g: Game, step: Step, m: MapId)
    requires m in g.rooms && QueueOk(g, m) && Enabled(g, step) && !step.FanLock?
    requires step.Send? ==> g.players[step.key].m != Some(m)
    requires step.Receive? ==> step.m != m
    ensures m in Do(g, step).rooms && QueueOk(Do(g, step), m)
  {
    hide Parse, MakePacket, Fanned, DoSwitch, CanSwitch, DoDeliver;
    match step
    case SwitchOn => SwitchEffect(g, m);
    case Deliver(n, key) => DeliverEffect(g, n, key, m);
    case _ =>
  }

  lemma DeliverEffect(g: Game, n: MapId, key: Key, m: MapId)
    requires Enabled(g, Deliver(n, key)) && m in g.rooms
    ensures var g' := DoDeliver(g, n, key);
      && m in g'.rooms && g'.sessions == g.sessions && g'.rooms[m].(fan := g.rooms[m].fan) == g.rooms[m]
      && (g'.rooms[m].fan.Got? || g.rooms[m].fan.Got? ==> g'.rooms[m] == g.rooms[m])
  {
    hide Parse, MakePacket;
  }

  lemma Pushed<T>(sent: seq<T>, front: seq<T>, queue: seq<T>, x: T)
    requires sent == front + queue
    ensures sent + [x] == front + (queue + [x])
  {
  }

  lemma Pulled<T>(sent: seq<T>, fanned: seq<T>, queue: seq<T>)
    requires sent == fanned + [] + queue && queue != []
    ensures sent == fanned + [queue[0]] + queue[1..]
  {
  }

  lemma PlayerGrows(g: Game, step: Step, key: Key)
    requires Enabled(g, step) && key in g.players
    ensures key in Do(g, step).players
    ensures g.players[key].inbox <= Do(g, step).players[key].inbox
    ensures g.players[key].dropped <= Do(g, step).players[key].dropped
  {
    hide Parse, MakePacket;
  }

  lemma ServedStays(g: Game, step: Step, n: nat, key: Key)
    requires Enabled(g, step) && n < |g.sessions| && Served(g, n, key)
    ensures n < |Do(g, step).sessions| && Served(Do(g, step), n, key)
  {
    hide Enabled, Do, Packet;
    SessionsGrow(g, step);
    PlayerGrows(g, step, key);
    var inbox := g.players[key].inbox;
    if i :| 0 <= i < |inbox| && inbox[i].session == n {
      assert Do(g, step).players[key].inbox[i] == inbox[i];
    }
  }

  /** The receiver whose turn it is has been served after the step. */
  lemma DeliveryServes(g: Game, m: MapId, key: Key)
    requires SwitchOk(g) && MembersOk(g) && RecordsOk(g) && LocksOk(g) && FansOk(g)
    requires Enabled(g, Deliver(m, key))
    ensures Served(Do(g, Deliver(m, key)), g.rooms[m].fan.session, key)
  {
    var n := g.rooms[m].fan.session;
    ParseMake(g.sessions[n].message.from, g.sessions[n].message.raw);
    hide Parse, MakePacket;
    assert FanOk(g, m);
    assert Placed(g, key, m) && RecordOk(g, key);
    assert Holds(g.switch, m) <==> g.rooms[m].held.BySwitch?;
    var g', inbox := Do(g, Deliver(m, key)), g.players[key].inbox;
    if |g'.players[key].inbox| > |inbox| {
      assert g'.players[key].inbox[|inbox|].session == n;
    }
  }

  lemma WaitsOn(g: Game, step: Step, n: nat, key: Key)
    requires SwitchOk(g) && MembersOk(g) && RecordsOk(g) && LocksOk(g) && FansOk(g)
    requires Enabled(g, step) && n < |g.sessions| && Waits(g, n, key)
    ensures n < |Do(g, step).sessions| && (Served(Do(g, step), n, key) || Waits(Do(g, step), n, key))
  {
    SessionsGrow(g, step);
    var m := g.sessions[n].m;
    hide Parse, MakePacket, DoSwitch, CanSwitch;
    if step == Deliver(m, key) {
      DeliveryServes(g, m, key);
    } else if step.SwitchOn? {
      SwitchEffect(g, m);
    } else {
      hide Served;
    }
  }

  lemma RosterKept(g: Game, step: Step)
    requires SwitchOk(g) && MembersOk(g) && RecordsOk(g) && LocksOk(g) && FansOk(g) && RosterOk(g)
    requires Enabled(g, step)
    ensures RosterOk(Do(g, step))
  {
    var g' := Do(g, step);
    forall n, key | 0 <= n < |g'.sessions| && key in g'.sessions[n].roster
      ensures Served(g', n, key) || Waits(g', n, key)
    {
      RosterMemberKept(g, step, n, key);
    }
  }

  lemma RosterMemberKept(g: Game, step: Step, n: nat, key: Key)
    requires SwitchOk(g) && MembersOk(g) && RecordsOk(g) && LocksOk(g) && FansOk(g) && RosterOk(g)
    requires Enabled(g, step) && n < |Do(g, step).sessions| && key in Do(g, step).sessions[n].roster
    ensures Served(Do(g, step), n, key) || Waits(Do(g, step), n, key)
  {
    hide Served, Parse, MakePacket, DoSwitch, DoDeliver;
    SessionsGrow(g, step);
    if n < |g.sessions| {
      if Served(g, n, key) {
        ServedStays(g, step, n, key);
      } else {
        WaitsOn(g, step, n, key);
      }
    } else {
      OnlyLocksAddSessions(g, step);
    }
  }

  lemma OnlyLocksAddSessions(g: Game, step: Step)
    requires Enabled(g, step)
    ensures step.FanLock? || Do(g, step).sessions == g.sessions
  {
    hide Parse, MakePacket;
  }

  lemma StepKeepsInv(g: Game, step: Step)
    requires Inv(g) && Enabled(g, step)
    ensures Inv(Do(g, step))
  {
    hide *;
    InvParts(g);
    SwitchKept(g, step);
    RecordsKept(g, step);
    MembersKept(g, step);
    LocksKept(g, step);
    FansKept(g, step);
    InboxesKept(g, step);
    QueuesKept(g, step);
    RosterKept(g, step);
    InvFromParts(Do(g, step));
  }

  lemma InvParts(g: Game)
    requires Inv(g)
    ensures SwitchOk(g) && MembersOk(g) && RecordsOk(g) && LocksOk(g)
    ensures FansOk(g) && InboxesOk(g) && QueuesOk(g) && RosterOk(g)
  {
  }

  lemma InvFromParts(g: Game)
    requires SwitchOk(g) && MembersOk(g) && RecordsOk(g) && LocksOk(g)
    requires FansOk(g) && InboxesOk(g) && QueuesOk(g) && RosterOk(g)
    ensures Inv(g)
  {
  }

  // ---------- The start and whole runs ----------

  datatype NewGameError = InvalidMapId | DuplicateMapId

  datatype NewGameResult = Ok(game: Game) | Err(error: NewGameError)

  const EMPTY_ROOM := Room({}, Free, Waiting, [], [])

  /** Nobody connected, every map empty and idle. */
  ghost predicate IsInitial(g: Game, ids: seq<MapId>) {
    && g.players == map[] && g.switch.Idle? && g.sessions == []
    && (forall m :: m in g.rooms <==> m in ids)
    && forall m :: m in g.rooms ==> g.rooms[m] == EMPTY_ROOM
  }

  /** A game is made exactly if all ids are positive and different; the error is that of the
      first id that is not. */
  method NewGame(mapIds: seq<int>) returns (r: NewGameResult)
    ensures r.Ok? <==> GoodIds(mapIds, |mapIds|)
    ensures r.Ok? ==> IsInitial(r.game, mapIds) && Inv(r.game)
    ensures r.Err? ==>
      exists i :: 0 <= i < |mapIds| && GoodIds(mapIds, i) && !GoodIds(mapIds, i + 1)
                  && r.error == if mapIds[i] <= 0 then InvalidMapId else DuplicateMapId
  {
    hide Inv;
    var maps: map<MapId, Room> := map[];
    for i := 0 to |mapIds|
      invariant forall m :: m in maps <==> m in mapIds[..i]
      invariant forall m :: m in maps ==> maps[m] == EMPTY_ROOM
      invariant GoodIds(mapIds, i)
    {
      var id := mapIds[i];
      assert mapIds[..i + 1] == mapIds[..i] + [id];
      if id <= 0 {
        assert !GoodIds(mapIds, i + 1);
        return Err(InvalidMapId);
      }
      if id in maps {
        var j :| 0 <= j < i && mapIds[j] == id;
        assert !GoodIds(mapIds, i + 1);
        return Err(DuplicateMapId);
      }
      maps := maps[id := EMPTY_ROOM];
    }
    assert mapIds[..|mapIds|] == mapIds;
    r := Ok(Game(map[], maps, Idle, []));
    forall m | m in maps ensures m > 0 {
      var j :| 0 <= j < |mapIds| && mapIds[j] == m;
    }
    InitialInv(r.game, mapIds);
  }

  lemma InitialInv(g: Game, ids: seq<MapId>)
    requires IsInitial(g, ids) && forall m :: m in g.rooms ==> m > 0
    ensures Inv(g)
  {
  }

  ghost predicate GoodIds(ids: seq<int>, n: int)
    requires 0 <= n <= |ids|
  {
    && (forall i :: 0 <= i < n ==> ids[i] > 0)
    && forall i, j :: 0 <= i < j < n ==> ids[i] != ids[j]
  }

  /** states[i + 1] is what the i-th step makes of states[i], whoever takes it. */
  ghost predicate IsRun(states: seq<Game>, steps: seq<Step>) {
    && |states| == |steps| + 1
    && forall i :: 0 <= i < |steps| ==> Enabled(states[i], steps[i]) && states[i + 1] == Do(states[i], steps[i])
  }

  lemma {:induction false} RunKeepsInv(states: seq<Game>, steps: seq<Step>, n: nat)
    requires IsRun(states, steps) && Inv(states[0]) && n <= |steps|
    ensures Inv(states[n])
  {
    if n > 0 {
      RunKeepsInv(states, steps, n - 1);
      StepKeepsInv(states[n - 1], steps[n - 1]);
    }
  }

  // ---------- What holds in every reachable state ----------

  /** Whenever a map's lock is free, the three records of who is in it agree. */
  lemma MembershipWhenFree(g: Game, m: MapId, key: Key)
    requires Inv(g) && m in g.rooms && g.rooms[m].held.Free?
    ensures key in g.rooms[m].players ==> key in g.players
    ensures key in g.players ==>
      && (key in g.rooms[m].players <==> g.players[key].m == Some(m))
      && (key in g.rooms[m].players <==> g.players[key].zone == m)
  {
    hide FansOk, InboxesOk, QueuesOk;
    assert key in g.rooms[m].players <==> Placed(g, key, m);
    assert !Holds(g.switch, m);
    if key in g.players {
      assert RecordOk(g, key);
    }
  }

  lemma NobodyInTwoMaps(g: Game, m: MapId, n: MapId)
    requires Inv(g) && m in g.rooms && n in g.rooms && m != n
    ensures g.rooms[m].players !! g.rooms[n].players
  {
    if key :| key in g.rooms[m].players && key in g.rooms[n].players {
      OneMap(g, key, m, n);
    }
  }

  /** A fan-out's roster is exactly who was in the map when its lock was taken. */
  lemma RosterIsMembership(g: Game, m: MapId, key: Key)
    requires Inv(g) && Enabled(g, FanLock(m)) && key in g.players
    ensures var s := Do(g, FanLock(m)).sessions[|g.sessions|];
      s.m == m && s.message == g.rooms[m].fan.message && (key in s.roster <==> g.players[key].m == Some(m))
  {
    MembershipWhenFree(g, m, key);
  }

  /** Nobody on the roster leaves the map before he is served, so a delivery is skipped only
      for the sender the packet names, or when the channel is full. */
  lemma DeliveryReaches(g: Game, m: MapId, key: Key)
    requires Inv(g) && Enabled(g, Deliver(m, key))
    ensures var g', n := Do(g, Deliver(m, key)), g.rooms[m].fan.session;
      var packet := Parse(MakePacket(g.sessions[n].message.from, g.sessions[n].message.raw));
      var p, p' := g.players[key], g'.players[key];
      && packet.Parsed?
      && p'.inbox == (if key == packet.sender || p.unread >= CAPACITY then p.inbox
                      else p.inbox + [Mail(n, packet.raw)])
      && p'.dropped == if key != packet.sender && p.unread >= CAPACITY then p.dropped + {n} else p.dropped
  {
    var message := g.sessions[g.rooms[m].fan.session].message;
    ParseMake(message.from, message.raw);
    assert FanOk(g, m);
    assert Placed(g, key, m) && RecordOk(g, key);
    assert Holds(g.switch, m) <==> g.rooms[m].held.BySwitch?;
  }

  /** The sender is skipped exactly if his key has no zero byte. */
  lemma OwnPacketSkipped(g: Game, m: MapId, key: Key)
    requires Inv(g) && Enabled(g, Deliver(m, key)) && g.players[key].unread < CAPACITY
    requires g.sessions[g.rooms[m].fan.session].message.from == key
    ensures Do(g, Deliver(m, key)).players[key].inbox == g.players[key].inbox <==> ZERO !in key
  {
    var message := g.sessions[g.rooms[m].fan.session].message;
    hide Inv, Enabled, Do;
    DeliveryReaches(g, m, key);
    ParseMake(message.from, message.raw);
  }

  /** Nobody whose key has no zero byte ever holds a packet of his own. */
  lemma NoEcho(g: Game, key: Key, i: nat)
    requires Inv(g) && key in g.players && i < |g.players[key].inbox| && ZERO !in key
    ensures g.players[key].inbox[i].session < |g.sessions|
    ensures g.sessions[g.players[key].inbox[i].session].message.from != key
  {
    assert InboxOk(g, key);
    var mail := g.players[key].inbox[i];
    assert MailOk(g, key, mail);
    ParseMake(g.sessions[mail.session].message.from, g.sessions[mail.session].message.raw);
  }

  /** Some mail of the player is a message he sent himself. */
  ghost predicate Echoed(g: Game, key: Key) {
    key in g.players && exists mail :: mail in g.players[key].inbox && mail.session < |g.sessions|
                                       && g.sessions[mail.session].message.from == key
  }

  /** A run that ends in `end`, one step longer or just begun. */
  ghost predicate RunTo(states: seq<Game>, steps: seq<Step>, end: Game) {
    && IsRun(states, steps) && states[|steps|] == end
    && exists ids: seq<MapId> :: GoodIds(ids, |ids|) && IsInitial(states[0], ids)
  }

  lemma RunOn(states: seq<Game>, steps: seq<Step>, g: Game, step: Step, g': Game)
    returns (states': seq<Game>, steps': seq<Step>)
    requires RunTo(states, steps, g) && Enabled(g, step) && g' == Do(g, step)
    ensures RunTo(states', steps', g')
  {
    hide Enabled, Do;
    states', steps' := states + [g'], steps + [step];
  }

  /** One player and one map. */
  function World(key: Key, p: Player, room: Room, sw: Switch, sessions: seq<Session>): Game {
    Game(map[key := p], map[1 := room], sw, sessions)
  }

  lemma WorldChanges(key: Key, p: Player, room: Room, sw: Switch, sessions: seq<Session>, p': Player, room': Room)
    ensures SetPlayer(World(key, p, room, sw, sessions), key, p') == World(key, p', room, sw, sessions)
    ensures SetRoom(World(key, p, room, sw, sessions), 1, room') == World(key, p, room', sw, sessions)
  {
    assert map[key := p][key := p'] == map[key := p'];
    assert map[1 as MapId := room][1 := room'] == map[1 := room'];
  }

  /** The player connects and switches to the map, statement by statement. */
  lemma EnterRun(key: Key) returns (states: seq<Game>, steps: seq<Step>)
    ensures var inside := NEW_PLAYER.(zone := 1, m := Some(1));
      RunTo(states, steps, World(key, inside, EMPTY_ROOM.(players := {key}), Idle, []))
  {
    hide RunTo;
    var outside, inside := NEW_PLAYER, NEW_PLAYER.(zone := 1, m := Some(1));
    var sw := Active(key, 1, None, Lock1);
    var locked := EMPTY_ROOM.(held := BySwitch);
    var entered := locked.(players := {key});
    states, steps := ConnectRun(key);
    var g := World(key, outside, EMPTY_ROOM, Idle, []);
    var g1 := World(key, outside, EMPTY_ROOM, sw, []);
    states, steps := RunOn(states, steps, g, BeginSwitch(key, 1), g1);
    WorldChanges(key, outside, EMPTY_ROOM, sw, [], outside, locked);
    var g2 := World(key, outside, locked, sw.(pc := Insert), []);
    states, steps := RunOn(states, steps, g1, SwitchOn, g2);
    WorldChanges(key, outside, locked, sw.(pc := Insert), [], outside, entered);
    assert locked.players + {key} == {key};
    var g3 := World(key, outside, entered, sw.(pc := SetZone), []);
    states, steps := RunOn(states, steps, g2, SwitchOn, g3);
    WorldChanges(key, outside, entered, sw.(pc := SetZone), [], outside.(zone := 1), entered);
    var g4 := World(key, outside.(zone := 1), entered, sw.(pc := SetMap), []);
    states, steps := RunOn(states, steps, g3, SwitchOn, g4);
    WorldChanges(key, outside.(zone := 1), entered, sw.(pc := SetMap), [], inside, entered);
    var g5 := World(key, inside, entered, sw.(pc := UnlockNew), []);
    states, steps := RunOn(states, steps, g4, SwitchOn, g5);
    WorldChanges(key, inside, entered, sw.(pc := UnlockNew), [], inside, entered.(held := Free));
    states, steps := RunOn(states, steps, g5, SwitchOn, World(key, inside, entered.(held := Free), Idle, []));
  }

  lemma ConnectRun(key: Key) returns (states: seq<Game>, steps: seq<Step>)
    ensures RunTo(states, steps, World(key, NEW_PLAYER, EMPTY_ROOM, Idle, []))
  {
    var start := Game(map[], map[1 := EMPTY_ROOM], Idle, []);
    assert GoodIds([1], 1) && IsInitial(start, [1]);
    assert RunTo([start], [], start);
    hide RunTo;
    var nobody: map<Key, Player> := map[];
    assert nobody[key := NEW_PLAYER] == map[key := NEW_PLAYER];
    states, steps := RunOn([start], [], start, Connect(key), World(key, NEW_PLAYER, EMPTY_ROOM, Idle, []));
  }

  /** The map's goroutine has taken the player's message and holds the lock. */
  function Fanning(key: Key, message: Message): Game {
    var room := Room({key}, ByFan, Sending(0, {key}), [], [message]);
    World(key, NEW_PLAYER.(zone := 1, m := Some(1)), room, Idle, [Session(1, message, {key})])
  }

  lemma FanningRun(key: Key, raw: string) returns (states: seq<Game>, steps: seq<Step>)
    ensures RunTo(states, steps, Fanning(key, Message(key, raw)))
  {
    ParseMake(key, raw);
    hide RunTo, Parse, MakePacket;
    var p, room := NEW_PLAYER.(zone := 1, m := Some(1)), EMPTY_ROOM.(players := {key});
    var message := Message(key, raw);
    states, steps := EnterRun(key);
    var g := World(key, p, room, Idle, []);
    var sent := room.(queue := [message], sent := [message]);
    WorldChanges(key, p, room, Idle, [], p, sent);
    assert room.queue + [message] == [message] && room.sent + [message] == [message] && [message][1..] == [];
    states, steps := RunOn(states, steps, g, Send(key, raw), World(key, p, sent, Idle, []));
    var got := sent.(queue := [], fan := Got(message));
    WorldChanges(key, p, sent, Idle, [], p, got);
    states, steps := RunOn(states, steps, World(key, p, sent, Idle, []), Receive(1), World(key, p, got, Idle, []));
    WorldChanges(key, p, got, Idle, [], p, got.(held := ByFan, fan := Sending(0, {key})));
    states, steps := RunOn(states, steps, World(key, p, got, Idle, []), FanLock(1), Fanning(key, message));
  }

  /** Every key with a zero byte gets its own message back in some run. */
  lemma EchoRun(key: Key, raw: string) returns (states: seq<Game>, steps: seq<Step>, end: Game)
    requires ZERO in key
    ensures RunTo(states, steps, end) && Echoed(end, key)
  {
    ParseMake(key, raw);
    hide RunTo, Parse, MakePacket;
    var g := Fanning(key, Message(key, raw));
    states, steps := FanningRun(key, raw);
    end := Do(g, Deliver(1, key));
    states, steps := RunOn(states, steps, g, Deliver(1, key), end);
    var mail := Mail(0, Parse(MakePacket(key, raw)).raw);
    assert end.players[key].inbox == [mail];
    assert mail in end.players[key].inbox;
  }

  lemma InitialRun(states: seq<Game>, steps: seq<Step>, end: Game)
    requires RunTo(states, steps, end)
    ensures Inv(end)
  {
    hide Inv, Enabled, Do;
    var ids: seq<MapId> :| GoodIds(ids, |ids|) && IsInitial(states[0], ids);
    forall m | m in states[0].rooms ensures m > 0 {
      var i :| 0 <= i < |ids| && ids[i] == m;
    }
    InitialInv(states[0], ids);
    RunKeepsInv(states, steps, |steps|);
  }

  /** A player can get his own message back exactly if his key has a zero byte. */
  lemma EchoExactly(key: Key)
    ensures (exists states: seq<Game>, steps: seq<Step>, end: Game :: RunTo(states, steps, end) && Echoed(end, key))
            <==> ZERO in key
  {
    hide RunTo, Inv;
    if ZERO in key {
      var states, steps, end := EchoRun(key, "");
    } else {
      forall states: seq<Game>, steps: seq<Step>, end: Game | RunTo(states, steps, end) ensures !Echoed(end, key) {
        InitialRun(states, steps, end);
        NeverEchoed(end, key);
      }
    }
  }

  /** For one, a player who calls himself "a" and a zero byte. */
  lemma EchoHappens()
    ensures exists states: seq<Game>, steps: seq<Step>, end: Game :: RunTo(states, steps, end) && Echoed(end, "a\0")
  {
    hide RunTo;
    assert "a\0"[1] == ZERO;
    var states, steps, end := EchoRun("a\0", "hello");
  }

  lemma NeverEchoed(g: Game, key: Key)
    requires Inv(g) && ZERO !in key
    ensures !Echoed(g, key)
  {
    hide Inv;
    if key in g.players {
      forall mail | mail in g.players[key].inbox && mail.session < |g.sessions|
        ensures g.sessions[mail.session].message.from != key
      {
        var i :| 0 <= i < |g.players[key].inbox| && g.players[key].inbox[i] == mail;
        NoEcho(g, key, i);
      }
    }
  }

  /** Inboxes are in-order selections from the fan-outs the player was on the roster of, with
      the text as it was sent. */
  lemma InboxInOrder(g: Game, key: Key)
    requires Inv(g) && key in g.players
    ensures var inbox := g.players[key].inbox;
      && (forall i, j :: 0 <= i < j < |inbox| ==> inbox[i].session < inbox[j].session)
      && forall i :: 0 <= i < |inbox| ==>
           && inbox[i].session < |g.sessions| && key in g.sessions[inbox[i].session].roster
           && (ZERO !in g.sessions[inbox[i].session].message.from ==>
                 inbox[i].raw == g.sessions[inbox[i].session].message.raw)
  {
    hide SwitchOk, MembersOk, RecordsOk, LocksOk, FansOk, QueuesOk;
    assert InboxOk(g, key);
    var inbox := g.players[key].inbox;
    forall i | 0 <= i < |inbox|
      ensures inbox[i].session < |g.sessions| && key in g.sessions[inbox[i].session].roster
      ensures ZERO !in g.sessions[inbox[i].session].message.from ==>
                inbox[i].raw == g.sessions[inbox[i].session].message.raw
    {
      assert MailOk(g, key, inbox[i]);
      ParseMake(g.sessions[inbox[i].session].message.from, g.sessions[inbox[i].session].message.raw);
    }
  }

  /** When a map's goroutine waits on an empty channel, everything sent there was fanned out once, in order. */
  lemma AllFannedOut(g: Game, m: MapId)
    requires Inv(g) && m in g.rooms && g.rooms[m].queue == [] && !g.rooms[m].fan.Got?
    ensures Fanned(g.sessions, m) == g.rooms[m].sent
  {
    hide SwitchOk, MembersOk, RecordsOk, LocksOk, FansOk, InboxesOk, Fanned;
    assert QueueOk(g, m);
    assert Fanned(g.sessions, m) + [] + [] == Fanned(g.sessions, m);
  }

  /** Whoever is on a roster and not waiting his turn is the named sender, has the mail, or had a
      full channel: no fan-out skips anybody else. */
  lemma FanOutComplete(g: Game, n: nat, key: Key)
    requires Inv(g) && n < |g.sessions| && key in g.sessions[n].roster
    requires !Waits(g, n, key)
    ensures Served(g, n, key)
  {
  }

  /** Everything ever sent has been fanned out, once and in order, to its whole roster. */
  ghost predicate EverythingFannedOut(g: Game) {
    && (forall m :: m in g.rooms ==> Fanned(g.sessions, m) == g.rooms[m].sent)
    && forall n, key :: 0 <= n < |g.sessions| && key in g.sessions[n].roster ==> Served(g, n, key)
  }

  // ---------- No deadlock ----------

  predicate Internal(step: Step) {
    step.SwitchOn? || step.Receive? || step.FanLock? || step.Deliver? || step.FanUnlock?
  }

  ghost predicate Busy(g: Game) {
    g.switch.Active? || exists m :: m in g.rooms && (!g.rooms[m].fan.Waiting? || g.rooms[m].queue != [])
  }

  /** While a switch, a fan-out or a queued packet is unfinished, somebody can take a step. */
  lemma SomeoneCanMove(g: Game) returns (step: Step)
    requires Inv(g) && Busy(g)
    ensures Internal(step) && Enabled(g, step)
  {
    hide InboxesOk, QueuesOk, RecordsOk;
    if m :| m in g.rooms && g.rooms[m].fan.Sending? {
      assert FanOk(g, m);
      if key :| key in g.rooms[m].fan.todo {
        step := Deliver(m, key);
      } else {
        step := FanUnlock(m);
      }
    } else if g.switch.Active? {
      SwitchCanMove(g);
      step := SwitchOn;
    } else {
      var m :| m in g.rooms && (!g.rooms[m].fan.Waiting? || g.rooms[m].queue != []);
      assert !Holds(g.switch, m);
      step := if g.rooms[m].fan.Got? then FanLock(m) else Receive(m);
    }
  }

  /** Only a fan-out can stand in the way of the switching call. */
  lemma SwitchCanMove(g: Game)
    requires SwitchOk(g) && LocksOk(g) && g.switch.Active?
    requires forall m :: m in g.rooms ==> !g.rooms[m].fan.Sending?
    ensures CanSwitch(g)
  {
  }

  lemma IdleMeansFannedOut(g: Game)
    requires Inv(g) && !Busy(g)
    ensures EverythingFannedOut(g)
  {
    hide SwitchOk, MembersOk, RecordsOk, LocksOk, FansOk, InboxesOk, Fanned, Served;
    forall m | m in g.rooms ensures Fanned(g.sessions, m) == g.rooms[m].sent {
      AllFannedOut(g, m);
    }
  }

  // ---------- Everything settles ----------

  ghost function Total(work: map<MapId, nat>): nat
    decreases |work|
  {
    if m :| m in work then work[m] + Total(work - {m}) else 0
  }

  lemma {:induction false} TotalSplit(work: map<MapId, nat>, m: MapId)
    requires m in work
    ensures Total(work) == work[m] + Total(work - {m})
    decreases |work|
  {
    var n :| n in work.Keys && Total(work) == work[n] + Total(work - {n});
    if n != m {
      TotalSplit(work - {n}, m);
      TotalSplit(work - {m}, n);
      assert work - {n} - {m} == work - {m} - {n};
    }
  }

  lemma TotalUpdate(work: map<MapId, nat>, m: MapId, x: nat)
    requires m in work
    ensures Total(work[m := x]) == Total(work) - work[m] + x
  {
    TotalSplit(work, m);
    TotalSplit(work[m := x], m);
    assert work[m := x] - {m} == work - {m};
  }

  /** Packets to be fanned out: two for each in the channel, one for the one in hand. */
  function Packets(room: Room): nat {
    2 * |room.queue| + if room.fan.Got? then 1 else 0
  }

  /** Receivers to be served by the running fan-out, and its unlock. */
  function Receivers(room: Room): nat {
    if room.fan.Sending? then |room.fan.todo| + 1 else 0
  }

  function PacketsOf(rooms: map<MapId, Room>): map<MapId, nat> {
    map m | m in rooms :: Packets(rooms[m])
  }

  function ReceiversOf(rooms: map<MapId, Room>): map<MapId, nat> {
    map m | m in rooms :: Receivers(rooms[m])
  }

  /** The statements the switching call has before it. */
  function Ahead(sw: Switch): nat {
    if sw.Idle? then 0
    else
      match sw.pc
      case Lock1 => 8
      case Lock2 => 7
      case Remove => 6
      case Insert => 5
      case SetZone => 4
      case SetMap => 3
      case UnlockNew => 2
      case UnlockOld => 1
  }

  ghost function Pending(g: Game): nat {
    Ahead(g.switch) + Total(PacketsOf(g.rooms))
  }

  ghost function Serving(g: Game): nat {
    Total(ReceiversOf(g.rooms))
  }

  /** Replacing one room changes the totals by that room's share. */
  lemma RoomChange(g: Game, g': Game, m: MapId)
    requires m in g.rooms && m in g'.rooms && g'.rooms == g.rooms[m := g'.rooms[m]]
    ensures Total(PacketsOf(g'.rooms)) == Total(PacketsOf(g.rooms)) - Packets(g.rooms[m]) + Packets(g'.rooms[m])
    ensures Total(ReceiversOf(g'.rooms)) == Total(ReceiversOf(g.rooms)) - Receivers(g.rooms[m]) + Receivers(g'.rooms[m])
  {
    TotalUpdate(PacketsOf(g.rooms), m, Packets(g'.rooms[m]));
    TotalUpdate(ReceiversOf(g.rooms), m, Receivers(g'.rooms[m]));
    assert PacketsOf(g'.rooms) == PacketsOf(g.rooms)[m := Packets(g'.rooms[m])];
    assert ReceiversOf(g'.rooms) == ReceiversOf(g.rooms)[m := Receivers(g'.rooms[m])];
  }

  lemma SwitchAdvances(g: Game)
    requires SwitchOk(g) && CanSwitch(g)
    ensures Ahead(DoSwitch(g).switch) < Ahead(g.switch)
    ensures PacketsOf(DoSwitch(g).rooms) == PacketsOf(g.rooms)
  {
    forall m | m in g.rooms ensures m in DoSwitch(g).rooms && Packets(DoSwitch(g).rooms[m]) == Packets(g.rooms[m]) {
      SwitchEffect(g, m);
    }
    SwitchKeys(g);
  }

  lemma SwitchKeys(g: Game)
    requires CanSwitch(g)
    ensures DoSwitch(g).rooms.Keys == g.rooms.Keys
  {
  }

  lemma DeliverLowers(g: Game, m: MapId, key: Key)
    requires Enabled(g, Deliver(m, key))
    ensures var g' := DoDeliver(g, m, key);
      && g'.switch == g.switch && m in g'.rooms && g'.rooms == g.rooms[m := g'.rooms[m]]
      && Packets(g'.rooms[m]) == Packets(g.rooms[m]) && Receivers(g'.rooms[m]) < Receivers(g.rooms[m])
  {
    hide Parse, MakePacket;
    assert |g.rooms[m].fan.todo - {key}| == |g.rooms[m].fan.todo| - 1;
  }

  /** Every step that nobody has to ask for lowers a lexicographic measure, so under every
      schedule switches, packets and fan-outs come to an end. */
  lemma InternalStepDecreases(g: Game, step: Step)
    requires Inv(g) && Internal(step) && Enabled(g, step)
    ensures var g' := Do(g, step);
      Pending(g') < Pending(g) || (Pending(g') == Pending(g) && Serving(g') < Serving(g))
  {
    hide Inv, Parse, MakePacket, DoSwitch, CanSwitch, DoDeliver, Total, PacketsOf, ReceiversOf;
    var g' := Do(g, step);
    match step
    case SwitchOn =>
      InvParts(g);
      SwitchAdvances(g);
    case Receive(m) => RoomChange(g, g', m);
    case FanLock(m) => RoomChange(g, g', m);
    case FanUnlock(m) => RoomChange(g, g', m);
    case Deliver(m, key) =>
      DeliverLowers(g, m, key);
      RoomChange(g, g', m);
  }

  ghost predicate InternalNext(g: Game, g': Game) {
    exists step :: Internal(step) && Enabled(g, step) && g' == Do(g, step)
  }

  /** n internal steps, taken by anyone in any order, lead from g to g'. */
  ghost predicate Leads(g: Game, g': Game, n: nat)
    decreases n
  {
    if n == 0 then g == g' else exists h :: InternalNext(g, h) && Leads(h, g', n - 1)
  }

  /** The same maps, with the same messages sent. */
  ghost predicate SameSent(g: Game, g': Game) {
    g'.rooms.Keys == g.rooms.Keys && forall m :: m in g.rooms ==> g'.rooms[m].sent == g.rooms[m].sent
  }

  lemma InternalKeepsSent(g: Game, step: Step)
    requires Enabled(g, step) && Internal(step)
    ensures SameSent(g, Do(g, step))
  {
    hide Parse, MakePacket, DoSwitch, CanSwitch, DoDeliver;
    forall m | m in g.rooms ensures m in Do(g, step).rooms && Do(g, step).rooms[m].sent == g.rooms[m].sent {
      match step
      case SwitchOn => SwitchEffect(g, m);
      case Deliver(n, key) => DeliverEffect(g, n, key, m);
      case _ =>
    }
    assert Do(g, step).rooms.Keys == g.rooms.Keys by {
      match step
      case SwitchOn => SwitchKeys(g);
      case Deliver(n, key) => DeliverLowers(g, n, key);
      case _ =>
    }
  }

  /** From every reachable state the game can settle: the switch done, every packet fanned out
      to everybody on its roster. */
  lemma {:induction false} GameSettles(g: Game) returns (n: nat, end: Game)
    requires Inv(g)
    ensures Leads(g, end, n) && Inv(end) && !Busy(end)
    ensures SameSent(g, end) && EverythingFannedOut(end)
    decreases Pending(g), Serving(g)
  {
    hide Inv, Busy, Enabled, Do, Pending, Serving, EverythingFannedOut;
    if !Busy(g) {
      n, end := 0, g;
      IdleMeansFannedOut(g);
    } else {
      var step := SomeoneCanMove(g);
      InternalStepDecreases(g, step);
      StepKeepsInv(g, step);
      InternalKeepsSent(g, step);
      assert InternalNext(g, Do(g, step));
      n, end := GameSettles(Do(g, step));
      n := n + 1;
    }
  }

  lemma MoveOn(g: Game) returns (g': Game)
    requires Inv(g) && Busy(g)
    ensures InternalNext(g, g')
  {
    hide Inv, Busy, Enabled, Do;
    var step := SomeoneCanMove(g);
    g' := Do(g, step);
  }

  /** A schedule: as long as anybody can take an internal step, somebody does. */
  ghost predicate Moves(g: Game, g': Game) {
    InternalNext(g, g') || (g' == g && forall h :: !InternalNext(g, h))
  }

  lemma {:induction false} ScheduleSettles(run: nat -> Game, i: nat) returns (j: nat)
    requires Inv(run(i)) && forall k: nat :: Moves(run(k), run(k + 1))
    ensures i <= j && Inv(run(j)) && !Busy(run(j)) && SameSent(run(i), run(j))
    decreases Pending(run(i)), Serving(run(i))
  {
    hide Inv, Busy, Enabled, Do, Pending, Serving;
    assert Moves(run(i), run(i + 1));
    if InternalNext(run(i), run(i + 1)) {
      var step :| Internal(step) && Enabled(run(i), step) && run(i + 1) == Do(run(i), step);
      InternalStepDecreases(run(i), step);
      StepKeepsInv(run(i), step);
      InternalKeepsSent(run(i), step);
      j := ScheduleSettles(run, i + 1);
    } else {
      j := i;
      if Busy(run(i)) {
        var g' := MoveOn(run(i));
      }
    }
  }

  /** Under every schedule without new requests the game comes to rest, with everything that was
      sent fanned out to everybody on its roster. */
  lemma EveryScheduleSettles(run: nat -> Game)
    requires Inv(run(0)) && forall k: nat :: Moves(run(k), run(k + 1))
    ensures exists j: nat :: !Busy(run(j)) && EverythingFannedOut(run(j)) && SameSent(run(0), run(j))
  {
    hide Inv, Busy, Moves, EverythingFannedOut, SameSent;
    var j := ScheduleSettles(run, 0);
    IdleMeansFannedOut(run(j));
  }
}
