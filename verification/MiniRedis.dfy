/** The capacity-bounded cache of mini-redis/main.go: entries expire lazily and the least
    read entry is evicted. It behaves like a cache whose entries vanish on time. */
module MiniRedis {
  import opened Basics

  type Key = string
  type Value = string

  /** `expireAt` is None for the zero time. Instants are in nanoseconds. */
  datatype Rec = Rec(value: Value, expireAt: Option<int>, gets: nat, inserted: nat)
  type Items = map<Key, Rec>
  datatype State = State(cap: nat, seqNo: nat, items: Items)

  const SECOND := 1_000_000_000

  predicate Expired(r: Rec, now: int) {
    r.expireAt.Some? && now > r.expireAt.value
  }

  function Live(items: Items, now: int): Items {
    map k | k in items && !Expired(items[k], now) :: items[k]
  }

  function Deadline(ttl: int, now: int): Option<int> {
    if ttl <= 0 then None else Some(now + ttl * SECOND)
  }

  // ---------- Eviction ----------

  predicate EvictedBefore(a: Rec, b: Rec) {
    a.gets < b.gets || (a.gets == b.gets && a.inserted < b.inserted)
  }

  ghost predicate IsVictim(items: Items, k: Key) {
    k in items && forall j :: j in items && j != k ==> EvictedBefore(items[k], items[j])
  }

  ghost predicate DistinctStamps(items: Items) {
    forall j, k {:trigger items[j].inserted, items[k].inserted} :: j in items && k in items && j != k ==>
      items[j].inserted != items[k].inserted
  }

  ghost predicate Stamped(s: State) {
    (forall k :: k in s.items ==> s.items[k].inserted <= s.seqNo) && DistinctStamps(s.items)
  }

  ghost predicate Inv(s: State) {
    s.cap >= 1 && |s.items| <= s.cap && Stamped(s)
  }

  /** The victim is unique, so the order in which a map range meets the keys is irrelevant. */
  ghost function EvictOne(items: Items): (r: Items)
    ensures forall k :: IsVictim(items, k) ==> r == items - {k}
  {
    if k :| IsVictim(items, k) then items - {k} else items
  }

  // ---------- The operations, as the code does them and as the specification has them ----------

  datatype Op =
    | Get(key: Key)
    | Set(key: Key, value: Value, ttl: int, later: int)   // `later`: the second clock reading
    | Size
    | Clear
    | Evict

  datatype Reply = Hit(value: Value) | Miss | Count(n: nat) | Done

  ghost function Insert(s: State, key: Key, value: Value, deadline: Option<int>): State {
    if key in s.items then
      s.(items := s.items[key := s.items[key].(value := value, expireAt := deadline)])
    else
      var room := if |s.items| >= s.cap then EvictOne(s.items) else s.items;
      s.(seqNo := s.seqNo + 1, items := room[key := Rec(value, deadline, 0, s.seqNo + 1)])
  }

  function Read(s: State, key: Key): State {
    if key in s.items then s.(items := s.items[key := s.items[key].(gets := s.items[key].gets + 1)]) else s
  }

  function Find(s: State, key: Key): Reply {
    if key in s.items then Hit(s.items[key].value) else Miss
  }

  /** The code: only Set, Size and Evict clean up; Get drops the one key it finds expired. */
  ghost function Lazy(s: State, op: Op, now: int): (State, Reply) {
    var clean := s.(items := Live(s.items, now));
    match op
    case Get(k) =>
      if k in s.items && Expired(s.items[k], now) then (s.(items := s.items - {k}), Miss)
      else (Read(s, k), Find(s, k))
    case Set(k, v, ttl, later) => (Insert(clean, k, v, Deadline(ttl, later)), Done)
    case Size => (clean, Count(|clean.items|))
    case Clear => (s.(seqNo := 0, items := map[]), Done)
    case Evict => (clean.(items := EvictOne(clean.items)), Done)
  }

  /** The specification: an entry is gone once the clock has passed its deadline. */
  ghost function Eager(s0: State, op: Op, now: int): (State, Reply) {
    var s := s0.(items := Live(s0.items, now));
    match op
    case Get(k) => (Read(s, k), Find(s, k))
    case Set(k, v, ttl, later) => (Insert(s, k, v, Deadline(ttl, later)), Done)
    case Size => (s, Count(|s.items|))
    case Clear => (s.(seqNo := 0, items := map[]), Done)
    case Evict => (s.(items := EvictOne(s.items)), Done)
  }

  /** `e` is `s` with everything expired by `now` left out. */
  ghost predicate Matches(s: State, e: State, now: int) {
    e.cap == s.cap && e.seqNo == s.seqNo && Live(e.items, now) == Live(s.items, now)
  }

  lemma LiveLater(items: Items, t: int, now: int)
    requires t <= now
    ensures Live(Live(items, t), now) == Live(items, now)
  {
  }

  lemma MatchesLater(s: State, e: State, t: int, now: int)
    requires Matches(s, e, t) && t <= now
    ensures Matches(s, e, now)
  {
    LiveLater(s.items, t, now);
    LiveLater(e.items, t, now);
  }

  /** One operation: same reply, and still indistinguishable. */
  lemma LazyMatchesEager(s: State, e: State, op: Op, now: int)
    requires Matches(s, e, now) && (op.Set? ==> now <= op.later)
    ensures Lazy(s, op, now).1 == Eager(e, op, now).1
    ensures Matches(Lazy(s, op, now).0, Eager(e, op, now).0, now)
  {
    LiveLater(s.items, now, now);
    match op {
      case Get(k) =>
        assert k in Live(s.items, now) <==> k in s.items && !Expired(s.items[k], now);
        var s', e' := Lazy(s, op, now).0, Eager(e, op, now).0;
        assert Live(e'.items, now) == Live(s'.items, now);
      case _ =>
    }
  }

  datatype Timed = Timed(op: Op, now: int)

  ghost predicate ClockRuns(ops: seq<Timed>, start: int) {
    ops != [] ==>
      && start <= ops[0].now && (ops[0].op.Set? ==> ops[0].now <= ops[0].op.later)
      && ClockRuns(ops[1..], ops[0].now)
  }

  ghost function LazyReplies(s: State, ops: seq<Timed>): seq<Reply>
    decreases |ops|
  {
    if ops == [] then []
    else
      var (s', reply) := Lazy(s, ops[0].op, ops[0].now);
      [reply] + LazyReplies(s', ops[1..])
  }

  ghost function EagerReplies(s: State, ops: seq<Timed>): seq<Reply>
    decreases |ops|
  {
    if ops == [] then []
    else
      var (s', reply) := Eager(s, ops[0].op, ops[0].now);
      [reply] + EagerReplies(s', ops[1..])
  }

  /** No sequence of operations under a running clock tells the lazy cache from the eager one. */
  lemma {:induction false} LazyRefinesEager(s: State, e: State, ops: seq<Timed>, start: int)
    requires Matches(s, e, start) && ClockRuns(ops, start)
    ensures LazyReplies(s, ops) == EagerReplies(e, ops)
    decreases |ops|
  {
    if ops != [] {
      var op, now := ops[0].op, ops[0].now;
      MatchesLater(s, e, start, now);
      LazyMatchesEager(s, e, op, now);
      LazyRefinesEager(Lazy(s, op, now).0, Eager(e, op, now).0, ops[1..], now);
    }
  }

  // ---------- Invariants ----------

  /** Comparing the victim of all but j with j gives the victim of all. */
  lemma VictimWith(items: Items, j: Key, i: Key) returns (k: Key)
    requires DistinctStamps(items) && j in items && IsVictim(items - {j}, i)
    ensures IsVictim(items, k)
  {
    k := if EvictedBefore(items[j], items[i]) then j else i;
    forall l | l in items && l != k ensures EvictedBefore(items[k], items[l]) {
      if l != j && l != i {
        assert l in items - {j};
      }
    }
  }

  /** Distinct stamps give every non-empty cache a victim. */
  lemma {:induction false} VictimExists(items: Items) returns (k: Key)
    requires DistinctStamps(items) && items != map[]
    ensures IsVictim(items, k)
    decreases |items|
  {
    var j :| j in items;
    if items - {j} == map[] {
      k := j;
      assert forall i :: i in items ==> i == j || i in items - {j};
    } else {
      assert |items - {j}| < |items|;
      var i := VictimExists(items - {j});
      k := VictimWith(items, j, i);
    }
  }

  /** Dropping keys loses no invariant. */
  lemma FewerKeepsInv(s: State, items: Items)
    requires Inv(s) && items.Keys <= s.items.Keys && forall k :: k in items ==> items[k] == s.items[k]
    ensures Inv(s.(items := items)) && |items| <= |s.items|
  {
    SubsetSize(items.Keys, s.items.Keys);
    assert |items| == |items.Keys| && |s.items| == |s.items.Keys|;
  }

  lemma StampsOfLive(s: State, now: int)
    requires Stamped(s)
    ensures Stamped(s.(items := Live(s.items, now)))
  {
  }

  /** Rewriting one entry but for its stamp loses no invariant. */
  lemma RewriteKeepsInv(s: State, key: Key, r: Rec)
    requires Inv(s) && key in s.items && r.inserted == s.items[key].inserted
    ensures Inv(s.(items := s.items[key := r]))
  {
    var items := s.items[key := r];
    assert items.Keys == s.items.Keys && |items| == |items.Keys| && |s.items| == |s.items.Keys|;
    assert forall k :: k in s.items ==> items[k].inserted == s.items[k].inserted;
  }

  lemma RoomIsMade(s: State)
    requires Inv(s)
    ensures var room := if |s.items| >= s.cap then EvictOne(s.items) else s.items;
      && |room| < s.cap && Inv(s.(items := room)) && room.Keys <= s.items.Keys
  {
    if |s.items| >= s.cap {
      assert s.items != map[];
      var k := VictimExists(s.items);
      assert (s.items - {k}).Keys == s.items.Keys - {k};
      FewerKeepsInv(s, s.items - {k});
    }
  }

  lemma StoreKeepsInv(s: State, key: Key, r: Rec)
    requires Inv(s) && key !in s.items && |s.items| < s.cap && r.inserted == s.seqNo + 1
    ensures Inv(s.(seqNo := s.seqNo + 1, items := s.items[key := r]))
  {
    assert s.items[key := r].Keys == s.items.Keys + {key};
    assert |s.items[key := r]| == |s.items[key := r].Keys| && |s.items| == |s.items.Keys|;
  }

  lemma InsertKeepsInv(s: State, key: Key, value: Value, deadline: Option<int>)
    requires Inv(s)
    ensures Inv(Insert(s, key, value, deadline))
  {
    if key in s.items {
      RewriteKeepsInv(s, key, s.items[key].(value := value, expireAt := deadline));
    } else {
      var room := if |s.items| >= s.cap then EvictOne(s.items) else s.items;
      RoomIsMade(s);
      assert Insert(s, key, value, deadline).items == room[key := Rec(value, deadline, 0, s.seqNo + 1)];
      StoreKeepsInv(s.(items := room), key, Rec(value, deadline, 0, s.seqNo + 1));
    }
  }

  lemma EvictKeepsInv(s: State)
    requires Inv(s)
    ensures Inv(s.(items := EvictOne(s.items)))
  {
    if s.items != map[] {
      var k := VictimExists(s.items);
      FewerKeepsInv(s, s.items - {k});
    }
  }

  lemma GetKeepsInv(s: State, k: Key, now: int)
    requires Inv(s)
    ensures Inv(Lazy(s, Get(k), now).0)
  {
    if k in s.items {
      if Expired(s.items[k], now) {
        FewerKeepsInv(s, s.items - {k});
      } else {
        RewriteKeepsInv(s, k, s.items[k].(gets := s.items[k].gets + 1));
      }
    }
  }

  lemma CleanKeepsInv(s: State, now: int)
    requires Inv(s)
    ensures Inv(s.(items := Live(s.items, now)))
  {
    FewerKeepsInv(s, Live(s.items, now));
  }

  /** Keys never exceed the capacity and stamps stay distinct, whatever is done. */
  lemma LazyKeepsInv(s: State, op: Op, now: int)
    requires Inv(s)
    ensures Inv(Lazy(s, op, now).0)
  {
    match op {
      case Get(k) => GetKeepsInv(s, k, now);
      case Set(k, v, ttl, later) =>
        CleanKeepsInv(s, now);
        InsertKeepsInv(s.(items := Live(s.items, now)), k, v, Deadline(ttl, later));
      case Size => CleanKeepsInv(s, now);
      case Clear =>
      case Evict =>
        CleanKeepsInv(s, now);
        EvictKeepsInv(s.(items := Live(s.items, now)));
    }
  }

  // ---------- What the operations do to single keys ----------

  /** `k` is there and the clock has not passed its deadline. */
  predicate Alive(s: State, k: Key, now: int) {
    k in s.items && match s.items[k].expireAt case None => true case Some(t) => now <= t
  }

  /** A Set stores the value and the deadline. A key that was alive keeps its count and its stamp,
      any other starts at no reads with a stamp above all others. */
  lemma SetStores(s: State, key: Key, value: Value, ttl: int, later: int, now: int)
    requires Inv(s)
    ensures var s' := Lazy(s, Set(key, value, ttl, later), now).0;
      && key in s'.items && s'.items[key].value == value
      && s'.items[key].expireAt == (if ttl <= 0 then None else Some(later + ttl * 1_000_000_000))
      && (if Alive(s, key, now)
          then s'.items[key].gets == s.items[key].gets && s'.items[key].inserted == s.items[key].inserted
          else s'.items[key].gets == 0 && s'.items[key].inserted == s'.seqNo == s.seqNo + 1
               && forall k :: k in s'.items && k != key ==> s'.items[k].inserted < s'.items[key].inserted)
  {
    var clean := s.(items := Live(s.items, now));
    assert Alive(s, key, now) <==> key in clean.items;
    CleanKeepsInv(s, now);
    RoomIsMade(clean);
  }

  /** A Get of a key that is alive answers its value and counts one more read of it; any other
      Get is a miss. Every other key stays what it was. */
  lemma GetReads(s: State, key: Key, now: int)
    ensures var (s', reply) := Lazy(s, Get(key), now);
      && (if Alive(s, key, now)
          then key in s'.items && reply == Hit(s.items[key].value)
               && s'.items[key] == s.items[key].(gets := s.items[key].gets + 1)
          else key !in s'.items && reply == Miss)
      && forall k :: k != key ==> (k in s'.items <==> k in s.items) && (k in s.items ==> s'.items[k] == s.items[k])
  {
  }

  /** No operation on other keys touches an entry as long as it stays in the cache. */
  lemma OthersStay(s: State, op: Op, now: int, k: Key)
    requires Inv(s) && k in Lazy(s, op, now).0.items && (op.Get? || op.Set? ==> op.key != k)
    ensures k in s.items && Lazy(s, op, now).0.items[k] == s.items[k]
  {
    var clean := s.(items := Live(s.items, now));
    CleanKeepsInv(s, now);
    if clean.items != map[] {
      var v := VictimExists(clean.items);
    }
  }

  lemma EvictedIsVictim(items: Items, k: Key)
    requires DistinctStamps(items) && k in items && k !in EvictOne(items)
    ensures IsVictim(items, k)
  {
    var v := VictimExists(items);
  }

  lemma LiveAreAlive(s: State, now: int)
    ensures forall j :: Alive(s, j, now) <==> j in Live(s.items, now)
    ensures forall j :: Alive(s, j, now) ==> Live(s.items, now)[j] == s.items[j]
    ensures |Live(s.items, now)| == |set j | j in s.items && Alive(s, j, now)|
  {
    assert Live(s.items, now).Keys == set j | j in s.items && Alive(s, j, now);
  }

  lemma SetLeavesOthers(s: State, key: Key, value: Value, ttl: int, later: int, now: int)
    requires Inv(s)
    ensures var items := Lazy(s, Set(key, value, ttl, later), now).0.items;
      forall k :: k in items && k != key ==> k in s.items && items[k] == s.items[k]
  {
    hide Lazy;
    forall k | k in Lazy(s, Set(key, value, ttl, later), now).0.items && k != key
      ensures k in s.items && Lazy(s, Set(key, value, ttl, later), now).0.items[k] == s.items[k]
    {
      OthersStay(s, Set(key, value, ttl, later), now, k);
    }
  }

  /** Who loses a living entry: without a Clear only the one that was read least and, among
      those, stored first, and only to an Evict or to a Set of a key the full cache does not hold. */
  lemma WhoIsEvicted(s: State, op: Op, now: int, k: Key)
    requires Inv(s) && !op.Clear? && Alive(s, k, now) && k !in Lazy(s, op, now).0.items
    ensures op.Evict? || (op.Set? && !Alive(s, op.key, now) && s.cap <= |set j | j in s.items && Alive(s, j, now)|)
    ensures forall j :: j != k && Alive(s, j, now) ==>
              s.items[k].gets < s.items[j].gets
              || (s.items[k].gets == s.items[j].gets && s.items[k].inserted < s.items[j].inserted)
  {
    var clean := s.(items := Live(s.items, now));
    CleanKeepsInv(s, now);
    LiveAreAlive(s, now);
    assert k in clean.items && k !in EvictOne(clean.items);
    EvictedIsVictim(clean.items, k);
    hide Live, Inv, EvictOne, Insert;
    forall j | j != k && Alive(s, j, now)
      ensures s.items[k].gets < s.items[j].gets
        || (s.items[k].gets == s.items[j].gets && s.items[k].inserted < s.items[j].inserted)
    {
      assert j in clean.items;
    }
  }

  /** An Evict drops every expired entry and, if one is alive, exactly the living one that was read
      least and, among those, stored first; Size counts the living ones. */
  lemma EvictAndSize(s: State, now: int) returns (k: Key)
    requires Inv(s)
    ensures Lazy(s, Size, now).1 == Count(|set j | j in s.items && Alive(s, j, now)|)
    ensures (exists j :: Alive(s, j, now)) ==> Alive(s, k, now)
    ensures forall j :: j in Lazy(s, Evict, now).0.items <==> Alive(s, j, now) && j != k
    ensures forall j :: j != k && Alive(s, j, now) && Alive(s, k, now) ==>
              s.items[k].gets < s.items[j].gets
              || (s.items[k].gets == s.items[j].gets && s.items[k].inserted < s.items[j].inserted)
  {
    var live := Live(s.items, now);
    CleanKeepsInv(s, now);
    LiveAreAlive(s, now);
    if live != map[] {
      k := VictimExists(live);
    } else {
      k := "";
    }
  }

  // ---------- What a client reads back ----------

  /** The state before the n-th operation. */
  ghost function After(s: State, ops: seq<Timed>, n: nat): State
    requires n <= |ops|
  {
    if n == 0 then s else Lazy(After(s, ops, n - 1), ops[n - 1].op, ops[n - 1].now).0
  }

  lemma {:induction false} AfterKeepsInv(s: State, ops: seq<Timed>, n: nat)
    requires Inv(s) && n <= |ops|
    ensures Inv(After(s, ops, n))
  {
    hide Inv, Lazy;
    if n > 0 {
      AfterKeepsInv(s, ops, n - 1);
      LazyKeepsInv(After(s, ops, n - 1), ops[n - 1].op, ops[n - 1].now);
    }
  }

  lemma {:induction false} AfterTail(s: State, ops: seq<Timed>, n: nat)
    requires 0 < n <= |ops|
    ensures After(s, ops, n) == After(Lazy(s, ops[0].op, ops[0].now).0, ops[1..], n - 1)
  {
    hide Lazy;
    if n > 1 {
      AfterTail(s, ops, n - 1);
    }
  }

  lemma {:induction false} ReplyAt(s: State, ops: seq<Timed>, j: nat)
    requires j < |ops|
    ensures |LazyReplies(s, ops)| == |ops|
    ensures LazyReplies(s, ops)[j] == Lazy(After(s, ops, j), ops[j].op, ops[j].now).1
    decreases |ops|
  {
    hide Lazy;
    var s' := Lazy(s, ops[0].op, ops[0].now).0;
    if j > 0 {
      ReplyAt(s', ops[1..], j - 1);
      AfterTail(s, ops, j);
    } else if |ops| > 1 {
      ReplyAt(s', ops[1..], 0);
    }
  }

  lemma {:induction false} ClockIsMonotone(ops: seq<Timed>, start: int, i: nat, j: nat)
    requires ClockRuns(ops, start) && i <= j < |ops|
    ensures start <= ops[i].now <= ops[j].now
    decreases |ops|
  {
    if j > 0 {
      ClockIsMonotone(ops[1..], ops[0].now, if i == 0 then 0 else i - 1, j - 1);
    }
  }

  /** Between i and j nobody sets k or clears the cache, and k is not evicted while alive. */
  ghost predicate LeftAlone(s: State, ops: seq<Timed>, k: Key, i: nat, j: nat)
    requires i <= j <= |ops|
  {
    forall l :: i < l < j ==>
      && !ops[l].op.Clear? && !(ops[l].op.Set? && ops[l].op.key == k)
      && (Alive(After(s, ops, l), k, ops[l].now) ==> k in After(s, ops, l + 1).items)
  }

  /** What a key's entry still says after the Set at i. */
  ghost predicate Holds(s: State, k: Key, value: Value, deadline: Option<int>) {
    k in s.items ==> s.items[k].value == value && s.items[k].expireAt == deadline
  }

  lemma HoldsOn(s: State, op: Op, now: int, k: Key, value: Value, deadline: Option<int>)
    requires Inv(s) && Holds(s, k, value, deadline) && !(op.Set? && op.key == k)
    ensures Holds(Lazy(s, op, now).0, k, value, deadline)
  {
    if op.Get? && op.key == k {
      GetReads(s, k, now);
    } else if k in Lazy(s, op, now).0.items {
      OthersStay(s, op, now, k);
    }
  }

  lemma {:induction false} HeldUntil(
      s: State, ops: seq<Timed>, start: int, i: nat, l: nat, j: nat, deadline: Option<int>)
    requires Inv(s) && ClockRuns(ops, start) && i < l <= j < |ops| && ops[i].op.Set?
    requires LeftAlone(s, ops, ops[i].op.key, i, j)
    requires deadline == if ops[i].op.ttl <= 0 then None else Some(ops[i].op.later + ops[i].op.ttl * 1_000_000_000)
    ensures Holds(After(s, ops, l), ops[i].op.key, ops[i].op.value, deadline)
    ensures deadline.None? || ops[j].now <= deadline.value ==> ops[i].op.key in After(s, ops, l).items
  {
    hide Inv, Lazy, ClockRuns;
    var k := ops[i].op.key;
    AfterKeepsInv(s, ops, l - 1);
    if l == i + 1 {
      SetStores(After(s, ops, i), k, ops[i].op.value, ops[i].op.ttl, ops[i].op.later, ops[i].now);
    } else {
      HeldUntil(s, ops, start, i, l - 1, j, deadline);
      HoldsOn(After(s, ops, l - 1), ops[l - 1].op, ops[l - 1].now, k, ops[i].op.value, deadline);
      ClockIsMonotone(ops, start, l - 1, j);
    }
  }

  /** Reading one's writes. As long as a key is neither set again nor cleared nor evicted, every
      Get answers the value last set until its time to live is over, and misses from then on. */
  lemma LastSetAnswers(s: State, ops: seq<Timed>, start: int, i: nat, j: nat)
    requires Inv(s) && ClockRuns(ops, start) && i < j < |ops|
    requires ops[i].op.Set? && ops[j].op == Get(ops[i].op.key) && LeftAlone(s, ops, ops[i].op.key, i, j)
    ensures |LazyReplies(s, ops)| == |ops|
    ensures var Set(_, value, ttl, later) := ops[i].op;
      LazyReplies(s, ops)[j] ==
        if ttl <= 0 || ops[j].now <= later + ttl * 1_000_000_000 then Hit(value) else Miss
  {
    hide Inv, Lazy, ClockRuns, LeftAlone;
    var Set(k, value, ttl, later) := ops[i].op;
    var deadline := if ttl <= 0 then None else Some(later + ttl * 1_000_000_000);
    HeldUntil(s, ops, start, i, j, j, deadline);
    ReplyAt(s, ops, j);
    GetReads(After(s, ops, j), k, ops[j].now);
  }

  // ---------- The object ----------

  class Entry {
    var value: Value
    var expireAt: Option<int>
    var gets: nat
    const inserted: nat

    constructor (value: Value, expireAt: Option<int>, inserted: nat)
      ensures View() == Rec(value, expireAt, 0, inserted)
    {
      this.value, this.expireAt, this.gets, this.inserted := value, expireAt, 0, inserted;
    }

    function View(): Rec
      reads this
    {
      Rec(value, expireAt, gets, inserted)
    }
  }

  datatype GetResult = Ok(value: Value) | NotFound | HasExpired

  /** What the map of entry objects amounts to. */
  ghost function Contents(items: map<Key, Entry>): Items
    reads items.Values
  {
    map k | k in items :: items[k].View()
  }

  lemma SizeOfContents(items: map<Key, Entry>)
    ensures |Contents(items)| == |items|
  {
    assert Contents(items).Keys == items.Keys;
    assert |Contents(items)| == |Contents(items).Keys| && |items| == |items.Keys|;
  }

  ghost predicate OwnEntries(items: map<Key, Entry>) {
    forall j, k :: j in items && k in items && j != k ==> items[j] != items[k]
  }

  lemma HasKey(items: map<Key, Entry>, key: Key)
    ensures key in Contents(items) <==> key in items
  {
  }

  class DB {
    const cap: nat
    var seqNo: nat
    var items: map<Key, Entry>

    ghost function View(): State
      reads this, items.Values
    {
      State(cap, seqNo, Contents(items))
    }

    /** Every key has an entry object of its own. */
    ghost predicate Valid()
      reads this
    {
      OwnEntries(items)
    }

    constructor (capacity: int)
      ensures items == map[] && Valid() && Inv(View())
      ensures View() == State(if capacity < 1 then 1 else capacity, 0, map[])
    {
      cap := if capacity < 1 then 1 else capacity;
      seqNo, items := 0, map[];
    }

    method Get(key: Key, now: int) returns (r: GetResult)
      requires Valid()
      modifies this, items.Values
      ensures Valid() && items.Keys <= old(items.Keys) && items.Values <= old(items.Values)
      ensures View() == Lazy(old(View()), Op.Get(key), now).0
      ensures Lazy(old(View()), Op.Get(key), now).1 == if r.Ok? then Hit(r.value) else Miss
      ensures r.HasExpired? <==> key in old(items) && Expired(old(View()).items[key], now)
      ensures r.NotFound? <==> key !in old(items)
      ensures r.Ok? <==> key in old(items)
                         && (old(items[key].expireAt).None? || now <= old(items[key].expireAt).value)
      ensures r.Ok? ==> key in items && r.value == items[key].value == old(items[key].value)
                        && items[key].gets == old(items[key].gets) + 1
    {
      if key !in items {
        return NotFound;
      }
      ghost var before := View();
      var e := items[key];
      if e.expireAt.Some? && now > e.expireAt.value {
        items := items - {key};
        assert View().items == before.items - {key};
        return HasExpired;
      }
      e.gets := e.gets + 1;
      assert View().items == Read(before, key).items;
      return Ok(e.value);
    }

    method Set(key: Key, value: Value, ttl: int, now: int, later: int)
      requires Valid() && Inv(View())
      modifies this, items.Values
      ensures Valid()
      ensures fresh(items.Values - old(items.Values))
      ensures View() == Lazy(old(View()), Op.Set(key, value, ttl, later), now).0
      ensures key in items && items[key].value == value
      ensures items[key].expireAt == if ttl <= 0 then None else Some(later + ttl * 1_000_000_000)
      ensures key in View().items &&
        (var before, e := old(View()), View().items[key];
         if Alive(before, key, now)
         then e.gets == before.items[key].gets && e.inserted == before.items[key].inserted
         else e.gets == 0 && forall k :: k in View().items && k != key ==> View().items[k].inserted < e.inserted)
      ensures forall k :: k in View().items && k != key ==>
        k in old(View()).items && View().items[k] == old(View()).items[k]
    {
      SetStores(View(), key, value, ttl, later, now);
      SetLeavesOthers(View(), key, value, ttl, later, now);
      hide OwnEntries, Stamped, Contents, Expired;
      StampsOfLive(View(), now);
      CleanupExpired(now);
      if key in items {
        Rewrite(key, value, Deadline(ttl, later));
      } else {
        InsertNew(key, value, Deadline(ttl, later));
      }
    }

    method MakeRoom()
      requires Valid() && Stamped(View())
      modifies this
      ensures Valid() && seqNo == old(seqNo) && items.Values <= old(items.Values) && items.Keys <= old(items.Keys)
      ensures View() == old(View()).(items :=
                if |old(View()).items| >= cap then EvictOne(old(View()).items) else old(View()).items)
    {
      SizeOfContents(items);
      if |items| >= cap {
        EvictOneLocked();
      }
    }

    /** Set on a new key: make room if need be, then store a fresh entry. */
    method InsertNew(key: Key, value: Value, deadline: Option<int>)
      requires Valid() && Stamped(View()) && key !in items
      modifies this
      ensures Valid() && fresh(items.Values - old(items.Values))
      ensures View() == Insert(old(View()), key, value, deadline)
    {
      hide OwnEntries, Stamped, EvictOne, Contents;
      ghost var known, before := items.Values, View();
      HasKey(items, key);
      MakeRoom();
      ghost var room := View().items;
      seqNo := seqNo + 1;
      assert View() == before.(seqNo := seqNo, items := room);
      StoreFresh(key, value, deadline);
      assert View() == Insert(before, key, value, deadline);
    }

    method StoreFresh(key: Key, value: Value, deadline: Option<int>)
      requires Valid() && key !in items
      modifies this`items
      ensures Valid() && fresh(items.Values - old(items.Values))
      ensures View() == old(View()).(items := old(View()).items[key := Rec(value, deadline, 0, seqNo)])
    {
      ghost var room := Contents(items);
      var e := new Entry(value, deadline, seqNo);
      items := items[key := e];
      assert Contents(items) == room[key := e.View()];
    }

    /** Set on a key that is there: the entry is updated in place and keeps count and stamp. */
    method Rewrite(key: Key, value: Value, deadline: Option<int>)
      requires Valid() && key in items
      modifies items[key]
      ensures Valid() && View() == Insert(old(View()), key, value, deadline)
    {
      ghost var before := View();
      var e := items[key];
      e.value := value;
      e.expireAt := deadline;
      assert View().items == Insert(before, key, value, deadline).items;
    }

    method CleanupExpired(now: int)
      requires Valid()
      modifies this
      ensures Valid() && seqNo == old(seqNo) && items.Values <= old(items.Values)
      ensures View() == old(View()).(items := Live(old(View()).items, now))
    {
      ghost var all, recs := items, Contents(items);
      var rest := items.Keys;
      while rest != {}
        invariant rest <= items.Keys <= all.Keys && seqNo == old(seqNo)
        invariant forall k :: k in all ==> (k in items <==> k in rest || !Expired(recs[k], now))
        invariant forall k :: k in items ==> items[k] == all[k]
        decreases rest
      {
        var k :| k in rest;
        rest := rest - {k};
        var e := items[k];
        assert e.View() == recs[k];
        if e.expireAt.Some? && now > e.expireAt.value {
          items := items - {k};
        }
      }
      assert Contents(items) == Live(recs, now);
    }

    method EvictOneLocked()
      requires Valid() && Stamped(View())
      modifies this
      ensures Valid() && seqNo == old(seqNo) && items.Values <= old(items.Values) && items.Keys <= old(items.Keys)
      ensures View() == old(View()).(items := EvictOne(old(View()).items))
    {
      if |items| == 0 {
        assert Contents(items) == map[];
        return;
      }
      ghost var recs := Contents(items);
      var victim := FindVictim();
      items := items - {victim};
      assert Contents(items) == recs - {victim};
    }

    /** The range over the map, in whatever order, keeping the best candidate so far. */
    method FindVictim() returns (victim: Key)
      requires Stamped(View()) && |items| > 0
      ensures IsVictim(Contents(items), victim)
      ensures forall k :: k in items && k != victim ==>
        items[victim].gets < items[k].gets
        || (items[victim].gets == items[k].gets && items[victim].inserted < items[k].inserted)
    {
      ghost var recs := Contents(items);
      victim :| victim in items;
      var rest := items.Keys - {victim};
      while rest != {}
        invariant victim in items && rest <= items.Keys
        invariant forall k :: k in recs && k !in rest && k != victim ==> EvictedBefore(recs[victim], recs[k])
        decreases rest
      {
        var k :| k in rest;
        rest := rest - {k};
        var e, v := items[k], items[victim];
        assert e.View() == recs[k] && v.View() == recs[victim];
        assert k != victim ==> recs[k].inserted != recs[victim].inserted;
        if e.gets < v.gets || (e.gets == v.gets && e.inserted < v.inserted) {
          victim := k;
        }
      }
      forall k | k in items && k != victim
        ensures items[victim].gets < items[k].gets
          || (items[victim].gets == items[k].gets && items[victim].inserted < items[k].inserted)
      {
        assert recs[k] == items[k].View() && recs[victim] == items[victim].View();
      }
    }

    method Size(now: int) returns (n: nat)
      requires Valid()
      modifies this
      ensures items.Values <= old(items.Values)
      ensures Valid() && View() == Lazy(old(View()), Op.Size, now).0
      ensures Count(n) == Lazy(old(View()), Op.Size, now).1
    {
      CleanupExpired(now);
      n := |items|;
      SizeOfContents(items);
    }

    method Clear(now: int)
      requires Valid()
      modifies this
      ensures Valid() && items == map[] && View() == Lazy(old(View()), Op.Clear, now).0
    {
      items := map[];
      seqNo := 0;
    }

    method Evict(now: int)
      requires Valid() && Inv(View())
      modifies this
      ensures items.Values <= old(items.Values)
      ensures Valid() && View() == Lazy(old(View()), Op.Evict, now).0
    {
      StampsOfLive(View(), now);
      CleanupExpired(now);
      EvictOneLocked();
    }
  }

  // ---------- Whole sessions on the object ----------

  method Perform(db: DB, op: Op, now: int) returns (reply: Reply)
    requires db.Valid() && Inv(db.View())
    modifies db, db.items.Values
    ensures db.Valid() && Inv(db.View()) && fresh(db.items.Values - old(db.items.Values))
    ensures (db.View(), reply) == Lazy(old(db.View()), op, now)
  {
    LazyKeepsInv(db.View(), op, now);
    hide Inv, OwnEntries, Stamped, Contents, Live, Insert, EvictOne, Read, Deadline;
    match op
    case Get(key) =>
      var r := db.Get(key, now);
      reply := if r.Ok? then Hit(r.value) else Miss;
    case Set(key, value, ttl, later) =>
      db.Set(key, value, ttl, now, later);
      reply := Done;
    case Size =>
      var n := db.Size(now);
      reply := Count(n);
    case Clear =>
      db.Clear(now);
      reply := Done;
    case Evict =>
      db.Evict(now);
      reply := Done;
  }

  /** A new cache answers every sequence of operations under a running clock as if entries
      vanished on time. */
  method PerformAll(capacity: int, ops: seq<Timed>, start: int) returns (replies: seq<Reply>)
    requires ClockRuns(ops, start)
    ensures replies == EagerReplies(State(if capacity < 1 then 1 else capacity, 0, map[]), ops)
    ensures replies == LazyReplies(State(if capacity < 1 then 1 else capacity, 0, map[]), ops)
  {
    var db := new DB(capacity);
    ghost var s := db.View();
    LazyRefinesEager(s, s, ops, start);
    assert ops[0..] == ops && [] + LazyReplies(s, ops) == LazyReplies(s, ops);
    hide Inv, Lazy, ClockRuns, Contents, OwnEntries;
    replies := [];
    hide LazyReplies, EagerReplies;
    for i := 0 to |ops|
      invariant db.Valid() && Inv(db.View()) && fresh(db) && fresh(db.items.Values)
      invariant LazyReplies(s, ops) == replies + LazyReplies(db.View(), ops[i..])
    {
      RepliesNext(db.View(), ops, i, replies);
      var reply := Perform(db, ops[i].op, ops[i].now);
      replies := replies + [reply];
    }
    NoMoreReplies(db.View(), ops, replies);
  }

  lemma RepliesNext(s: State, ops: seq<Timed>, i: nat, replies: seq<Reply>)
    requires i < |ops|
    ensures var (s', reply) := Lazy(s, ops[i].op, ops[i].now);
      replies + LazyReplies(s, ops[i..]) == (replies + [reply]) + LazyReplies(s', ops[i + 1..])
  {
    hide Lazy;
    var (s', reply) := Lazy(s, ops[i].op, ops[i].now);
    var rest := LazyReplies(s', ops[i + 1..]);
    assert LazyReplies(s, ops[i..]) == [reply] + rest by {
      assert ops[i..][1..] == ops[i + 1..];
    }
    hide LazyReplies;
    assert replies + ([reply] + rest) == (replies + [reply]) + rest;
  }

  lemma NoMoreReplies(s: State, ops: seq<Timed>, replies: seq<Reply>)
    ensures replies + LazyReplies(s, ops[|ops|..]) == replies
  {
  }
}
