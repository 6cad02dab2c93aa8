/** The greedy small-world walk of milgram-experiment/main.go, with Go's 64-bit arithmetic. */
module Milgram {

  /** `friends` are indices into the list of people. */
  datatype Person = Person(x: int, y: int, friends: seq<nat>)

  /** A run-time panic is an outcome: indexing people[-1] stops the program. */
  datatype Outcome = Done(delivered: bool, intermediates: nat) | Panic

  const MAX_INT64: int := 0x7FFF_FFFF_FFFF_FFFF

  /** Reduction of a result to a signed 64-bit integer. */
  function Wrap64(z: int): (r: int)
    ensures -MAX_INT64 - 1 <= r <= MAX_INT64 && (r - z) % 0x1_0000_0000_0000_0000 == 0
  {
    (z + 0x8000_0000_0000_0000) % 0x1_0000_0000_0000_0000 - 0x8000_0000_0000_0000
  }

  ghost predicate InRange(friends: seq<nat>, n: nat) {
    forall i :: 0 <= i < |friends| ==> friends[i] < n
  }

  ghost predicate Valid(people: seq<Person>) {
    forall i :: 0 <= i < |people| ==> InRange(people[i].friends, |people|)
  }

  function Dist(a: Person, b: Person): (r: int)
    ensures r <= MAX_INT64
  {
    var dx, dy := Wrap64(a.x - b.x), Wrap64(a.y - b.y);
    Wrap64(Wrap64(dx * dx) + Wrap64(dy * dy))
  }

  /** The chosen friend among `friends`, or -1. A later friend has to be strictly nearer. */
  function Choice(people: seq<Person>, friends: seq<nat>, dst: nat): (r: int)
    requires dst < |people| && InRange(friends, |people|)
    ensures -1 <= r < |people| && (r == -1 || r in friends)
  {
    if friends == [] then -1
    else
      var n := |friends| - 1;
      var best := Choice(people, friends[..n], dst);
      if Dist(people[friends[n]], people[dst]) < BestDist(people, best, dst) then friends[n] else best
  }

  function BestDist(people: seq<Person>, best: int, dst: nat): int
    requires dst < |people| && -1 <= best < |people|
  {
    if best == -1 then MAX_INT64 else Dist(people[best], people[dst])
  }

  function Next(people: seq<Person>, current: nat, dst: nat): (r: int)
    requires Valid(people) && current < |people| && dst < |people|
    ensures -1 <= r < |people|
  {
    Choice(people, people[current].friends, dst)
  }

  // ---------- The walk ----------

  /** For every person the next one on the way to a fixed addressee, or -1. */
  type Choices = seq<int>

  ghost predicate Legal(next: Choices) {
    forall i :: 0 <= i < |next| ==> -1 <= next[i] < |next|
  }

  ghost function Table(people: seq<Person>, dst: nat): (r: Choices)
    requires Valid(people) && dst < |people|
    ensures |r| == |people| && Legal(r)
  {
    seq(|people|, i requires 0 <= i < |people| => Next(people, i, dst))
  }

  /** Where the message is after n hops; -1 once nobody was chosen. */
  ghost function At(next: Choices, src: nat, n: nat): (r: int)
    requires Legal(next) && src < |next|
    ensures -1 <= r < |next|
  {
    if n == 0 then src
    else
      var before := At(next, src, n - 1);
      if before == -1 then -1 else next[before]
  }

  ghost predicate FirstHit(next: Choices, src: nat, dst: nat, h: nat)
    requires Legal(next) && src < |next|
  {
    At(next, src, h) == dst && forall n: nat :: n < h ==> At(next, src, n) != dst
  }

  /** How many of the first n hops ended at somebody other than sender and addressee. */
  ghost function Strangers(next: Choices, src: nat, dst: nat, n: nat): nat
    requires Legal(next) && src < |next|
  {
    if n == 0 then 0
    else
      var p := At(next, src, n);
      Strangers(next, src, dst, n - 1) + if p != src && p != dst then 1 else 0
  }

  function Hops(money: int): nat {
    if money > 0 then money else 0
  }

  /** What the answer means in terms of the walk. */
  ghost predicate Answers(next: Choices, src: nat, dst: nat, money: int, r: Outcome)
    requires Legal(next) && src < |next|
  {
    match r
    case Done(true, i) =>
      exists h: nat :: h <= Hops(money) && FirstHit(next, src, dst, h) && i == Strangers(next, src, dst, h)
    case Done(false, i) =>
      && (forall n: nat :: n <= Hops(money) ==> At(next, src, n) != dst)
      && (forall n: nat :: n < Hops(money) ==> At(next, src, n) != -1)
      && i == Strangers(next, src, dst, Hops(money))
    case Panic =>
      && (forall n: nat :: n <= Hops(money) ==> At(next, src, n) != dst)
      && exists n: nat :: n < Hops(money) && At(next, src, n) == -1
  }

  // ---------- The program ----------

  method ChooseNextFriend(current: nat, dst: nat, people: seq<Person>) returns (nearestFriend: int)
    requires Valid(people) && current < |people| && dst < |people|
    ensures nearestFriend == Next(people, current, dst)
  {
    hide Wrap64, Choice, InRange;
    var friends := people[current].friends;
    NobodyYet(people, friends, dst);
    var minDist := MAX_INT64;
    nearestFriend := -1;
    for i := 0 to |friends|
      invariant InRange(friends[..i], |people|)
      invariant nearestFriend == Choice(people, friends[..i], dst)
      invariant minDist == BestDist(people, nearestFriend, dst)
    {
      ChoiceNext(people, friends, i, dst);
      var friendIdx := friends[i];
      var dx := Wrap64(people[friendIdx].x - people[dst].x);
      var dy := Wrap64(people[friendIdx].y - people[dst].y);
      var dist := Wrap64(Wrap64(dx * dx) + Wrap64(dy * dy));
      if dist < minDist {
        minDist := dist;
        nearestFriend := friendIdx;
      }
    }
  }

  lemma NobodyYet(people: seq<Person>, friends: seq<nat>, dst: nat)
    requires dst < |people|
    ensures InRange(friends[..0], |people|) && Choice(people, friends[..0], dst) == -1
    ensures friends[..|friends|] == friends
  {
  }

  lemma ChoiceNext(people: seq<Person>, friends: seq<nat>, i: nat, dst: nat)
    requires dst < |people| && i < |friends| && InRange(friends, |people|)
    ensures friends[i] < |people| && InRange(friends[..i], |people|) && InRange(friends[..i + 1], |people|)
    ensures var best := Choice(people, friends[..i], dst);
      Choice(people, friends[..i + 1], dst) ==
      if Dist(people[friends[i]], people[dst]) < BestDist(people, best, dst) then friends[i] else best
  {
    hide Dist;
    assert friends[..i + 1][..i] == friends[..i];
  }

  method MilgramSimulator(people: seq<Person>, src: nat, dst: nat, money: int) returns (r: Outcome)
    requires Valid(people) && src < |people| && dst < |people|
    ensures Answers(Table(people, dst), src, dst, money, r)
  {
    hide Next, Valid;
    ghost var choices := Table(people, dst);
    var current: int := src;
    var intermediates := 0;
    if src == dst {
      assert FirstHit(choices, src, dst, 0);
      return Done(true, 0);
    }
    var left := money;
    ghost var n := 0;
    while left > 0
      invariant n <= Hops(money) && Hops(left) == Hops(money) - n
      invariant current == At(choices, src, n)
      invariant intermediates == Strangers(choices, src, dst, n)
      invariant forall m: nat :: m < n ==> At(choices, src, m) != dst && At(choices, src, m) != -1
    {
      if current == dst {
        assert FirstHit(choices, src, dst, n);
        return Done(true, intermediates);
      }
      if current == -1 {
        forall m: nat | n <= m ensures At(choices, src, m) == -1 {
          StaysStuck(choices, src, n, m);
        }
        return Panic;
      }
      var next := ChooseNextFriend(current, dst, people);
      left := left - 1;
      current := next;
      n := n + 1;
      if current != src && current != dst {
        intermediates := intermediates + 1;
      }
    }
    if current == dst {
      assert FirstHit(choices, src, dst, n);
      return Done(true, intermediates);
    }
    return Done(false, intermediates);
  }

  lemma {:induction false} StaysStuck(next: Choices, src: nat, n: nat, m: nat)
    requires Legal(next) && src < |next|
    requires At(next, src, n) == -1 && n <= m
    ensures At(next, src, m) == -1
  {
    if n < m {
      StaysStuck(next, src, n, m - 1);
    }
  }

  ghost function StrangerHops(next: Choices, src: nat, dst: nat, n: nat): set<nat>
    requires Legal(next) && src < |next|
  {
    set h: nat | 1 <= h <= n && At(next, src, h) != src && At(next, src, h) != dst
  }

  /** `intermediates` is the number of hops that ended at neither the sender nor the addressee. */
  lemma {:induction false} StrangersCounted(next: Choices, src: nat, dst: nat, n: nat)
    requires Legal(next) && src < |next|
    ensures Strangers(next, src, dst, n) == |StrangerHops(next, src, dst, n)|
  {
    if n > 0 {
      StrangersCounted(next, src, dst, n - 1);
      hide Legal;
      var counts := At(next, src, n) != src && At(next, src, n) != dst;
      assert n !in StrangerHops(next, src, dst, n - 1);
      assert StrangerHops(next, src, dst, n) == StrangerHops(next, src, dst, n - 1) + if counts then {n} else {};
    } else {
      assert StrangerHops(next, src, dst, n) == {};
    }
  }

  // ---------- The choice ----------

  /** The chosen friend is the first of the nearest, by the wrapped distance; nobody is chosen
      exactly if no friend's distance is below the largest integer. */
  lemma {:induction false} ChoiceIsNearest(people: seq<Person>, friends: seq<nat>, dst: nat)
    requires dst < |people| && InRange(friends, |people|)
    ensures var r := Choice(people, friends, dst);
      && (r == -1 <==> forall i :: 0 <= i < |friends| ==> Dist(people[friends[i]], people[dst]) == MAX_INT64)
      && (r != -1 ==> exists j :: FirstNearest(people, friends, dst, j) && friends[j] == r)
  {
    hide Dist;
    if friends != [] {
      var n := |friends| - 1;
      var front := friends[..n];
      assert friends == front + [friends[n]];
      ChoiceIsNearest(people, front, dst);
      var best := Choice(people, front, dst);
      if best != -1 {
        var j :| FirstNearest(people, front, dst, j) && front[j] == best;
        if Dist(people[friends[n]], people[dst]) < Dist(people[best], people[dst]) {
          assert FirstNearest(people, friends, dst, n);
        } else {
          assert FirstNearest(people, friends, dst, j);
        }
      } else if Dist(people[friends[n]], people[dst]) < MAX_INT64 {
        assert FirstNearest(people, friends, dst, n);
      }
    }
  }

  /** friends[j] is as near as any, and nearer than all before it. */
  ghost predicate FirstNearest(people: seq<Person>, friends: seq<nat>, dst: nat, j: int)
    requires dst < |people| && InRange(friends, |people|)
  {
    && 0 <= j < |friends| && Dist(people[friends[j]], people[dst]) < MAX_INT64
    && forall i :: 0 <= i < |friends| ==>
         if i < j then Dist(people[friends[i]], people[dst]) > Dist(people[friends[j]], people[dst])
         else Dist(people[friends[i]], people[dst]) >= Dist(people[friends[j]], people[dst])
  }

  /** Small coordinates: then nothing wraps. */
  ghost predicate Bounded(people: seq<Person>) {
    forall i :: 0 <= i < |people| ==>
      -0x4000_0000 < people[i].x < 0x4000_0000 && -0x4000_0000 < people[i].y < 0x4000_0000
  }

  function TrueDist(a: Person, b: Person): int {
    (a.x - b.x) * (a.x - b.x) + (a.y - b.y) * (a.y - b.y)
  }

  lemma SquareBound(d: int, limit: int)
    requires -limit <= d <= limit
    ensures 0 <= d * d <= limit * limit
  {
    var a := if d < 0 then -d else d;
    assert d * d == a * a;
    assert a * a <= a * limit;
    assert a * limit <= limit * limit;
  }

  lemma SmallIsKept(z: int)
    requires -MAX_INT64 - 1 <= z <= MAX_INT64
    ensures Wrap64(z) == z
  {
  }

  lemma NothingWraps(people: seq<Person>, a: nat, b: nat)
    requires Bounded(people) && a < |people| && b < |people|
    ensures Dist(people[a], people[b]) == TrueDist(people[a], people[b]) < MAX_INT64
  {
    hide Wrap64;
    var dx, dy := people[a].x - people[b].x, people[a].y - people[b].y;
    SquareBound(dx, 0x7FFF_FFFF);
    SquareBound(dy, 0x7FFF_FFFF);
    var p, q := dx * dx, dy * dy;
    SmallIsKept(dx);
    SmallIsKept(dy);
    SmallIsKept(p);
    SmallIsKept(q);
    SmallIsKept(p + q);
  }

  /** Somebody is chosen, and nobody in the list is truly nearer. */
  ghost predicate ChoosesNearest(people: seq<Person>, friends: seq<nat>, dst: nat)
    requires dst < |people| && InRange(friends, |people|)
  {
    var r := Choice(people, friends, dst);
    r != -1 && forall i :: 0 <= i < |friends| ==>
                 TrueDist(people[r], people[dst]) <= TrueDist(people[friends[i]], people[dst])
  }

  /** Seen from dst, wrapping puts nobody at the largest integer and turns no two people round. */
  ghost predicate OrderKept(people: seq<Person>, dst: nat)
    requires dst < |people|
  {
    && (forall a :: 0 <= a < |people| ==> Dist(people[a], people[dst]) < MAX_INT64)
    && forall a, b :: 0 <= a < |people| && 0 <= b < |people| ==>
         TrueDist(people[a], people[dst]) < TrueDist(people[b], people[dst]) ==>
           Dist(people[a], people[dst]) < Dist(people[b], people[dst])
  }

  /** Exactly when the nearest friend is chosen whatever friends one has. */
  lemma NearestExactly(people: seq<Person>, dst: nat)
    requires dst < |people|
    ensures (forall friends: seq<nat> :: friends != [] && InRange(friends, |people|) ==>
              ChoosesNearest(people, friends, dst)) <==> OrderKept(people, dst)
  {
    hide Dist, TrueDist, Choice, OrderKept, ChoosesNearest;
    if OrderKept(people, dst) {
      forall friends: seq<nat> | friends != [] && InRange(friends, |people|)
        ensures ChoosesNearest(people, friends, dst)
      {
        OrderMeansNearest(people, friends, dst);
      }
    } else {
      var friends := DisorderShows(people, dst);
    }
  }

  lemma OrderMeansNearest(people: seq<Person>, friends: seq<nat>, dst: nat)
    requires dst < |people| && OrderKept(people, dst) && friends != [] && InRange(friends, |people|)
    ensures ChoosesNearest(people, friends, dst)
  {
    hide Dist, TrueDist, Choice;
    ChoiceIsNearest(people, friends, dst);
    assert Dist(people[friends[0]], people[dst]) < MAX_INT64;
    var r := Choice(people, friends, dst);
    var j :| FirstNearest(people, friends, dst, j) && friends[j] == r;
    forall i | 0 <= i < |friends|
      ensures TrueDist(people[r], people[dst]) <= TrueDist(people[friends[i]], people[dst])
    {
      assert Dist(people[friends[i]], people[dst]) >= Dist(people[r], people[dst]);
    }
  }

  /** Otherwise some list of one or two friends is served wrongly. */
  lemma DisorderShows(people: seq<Person>, dst: nat) returns (friends: seq<nat>)
    requires dst < |people| && !OrderKept(people, dst)
    ensures friends != [] && InRange(friends, |people|) && !ChoosesNearest(people, friends, dst)
  {
    hide Dist, TrueDist, Choice;
    if a :| 0 <= a < |people| && Dist(people[a], people[dst]) >= MAX_INT64 {
      friends := [a];
      ChoiceIsNearest(people, friends, dst);
    } else {
      var a, b :| 0 <= a < |people| && 0 <= b < |people|
        && TrueDist(people[a], people[dst]) < TrueDist(people[b], people[dst])
        && Dist(people[a], people[dst]) >= Dist(people[b], people[dst]);
      friends := [b, a];
      ChoiceIsNearest(people, friends, dst);
      assert friends[0] == b && friends[1] == a;
      assert Choice(people, friends, dst) == b;
    }
  }

  lemma BoundedKeepsOrder(people: seq<Person>, dst: nat)
    requires Bounded(people) && dst < |people|
    ensures OrderKept(people, dst)
  {
    hide Dist, TrueDist, Bounded;
    forall a | 0 <= a < |people|
      ensures Dist(people[a], people[dst]) == TrueDist(people[a], people[dst]) < MAX_INT64
    {
      NothingWraps(people, a, dst);
    }
  }

  /** With small coordinates and a friend to turn to, somebody truly nearest is chosen. */
  lemma ChoosesTrulyNearest(people: seq<Person>, current: nat, dst: nat)
    requires Valid(people) && Bounded(people) && current < |people| && dst < |people|
    requires people[current].friends != []
    ensures Next(people, current, dst) in people[current].friends
    ensures ChoosesNearest(people, people[current].friends, dst)
  {
    hide Dist, TrueDist, Choice, Bounded;
    BoundedKeepsOrder(people, dst);
    OrderMeansNearest(people, people[current].friends, dst);
  }

  /** An input on which the far one is chosen: 2^32 squared wraps to 0. */
  lemma FarFriendLooksNear()
    ensures var people := [Person(5, 0, [1, 2]), Person(1, 0, []), Person(0x1_0000_0000, 0, []), Person(0, 0, [])];
      && Choice(people, people[0].friends, 3) == 2
      && TrueDist(people[2], people[3]) > TrueDist(people[1], people[3])
  {
    var people := [Person(5, 0, [1, 2]), Person(1, 0, []), Person(0x1_0000_0000, 0, []), Person(0, 0, [])];
    hide Dist, Choice, Wrap64, TrueDist;
    FarDistances();
    NearerSecond(people, 1, 2, 3);
  }

  lemma NearerSecond(people: seq<Person>, a: nat, b: nat, dst: nat)
    requires a < |people| && b < |people| && dst < |people|
    requires Dist(people[b], people[dst]) < Dist(people[a], people[dst])
    ensures Choice(people, [a, b], dst) == b
  {
    hide Dist, Choice;
    var friends := [a, b];
    ChoiceIsNearest(people, friends, dst);
    assert friends[0] == a && friends[1] == b;
  }

  lemma FarDistances()
    ensures Dist(Person(1, 0, []), Person(0, 0, [])) == 1 == TrueDist(Person(1, 0, []), Person(0, 0, []))
    ensures Dist(Person(0x1_0000_0000, 0, []), Person(0, 0, [])) == 0
    ensures TrueDist(Person(0x1_0000_0000, 0, []), Person(0, 0, [])) == 0x1_0000_0000_0000_0000
  {
    hide Dist, TrueDist;
    OnTheAxis(1, 1, 1);
    OnTheAxis(0x1_0000_0000, 0x1_0000_0000_0000_0000, 0);
  }

  lemma OnTheAxis(x: int, square: int, wrapped: int)
    requires 0 <= x <= MAX_INT64 && square == x * x && wrapped == Wrap64(square)
    ensures Dist(Person(x, 0, []), Person(0, 0, [])) == wrapped
    ensures TrueDist(Person(x, 0, []), Person(0, 0, [])) == square
  {
    hide Wrap64;
    SmallIsKept(0);
    SmallIsKept(x);
    SmallIsKept(wrapped);
    var zero := 0;
    assert zero * zero == 0;
  }

  // ---------- Facts about the walk ----------

  lemma {:induction false} AtShift(next: Choices, src: nat, i: nat, j: nat, d: nat)
    requires Legal(next) && src < |next|
    requires At(next, src, i) == At(next, src, j)
    ensures At(next, src, i + d) == At(next, src, j + d)
  {
    hide Legal;
    if d > 0 {
      AtShift(next, src, i, j, d - 1);
    }
  }

  /** A walk that arrives never visits anybody twice. */
  lemma NoRevisit(next: Choices, src: nat, dst: nat, h: nat, i: nat, j: nat)
    requires Legal(next) && src < |next| && dst < |next|
    requires FirstHit(next, src, dst, h) && i < j <= h
    ensures At(next, src, i) != At(next, src, j) && At(next, src, i) != -1
  {
    hide At;
    if At(next, src, i) == At(next, src, j) {
      AtShift(next, src, i, j, h - j);
    }
    if At(next, src, i) == -1 {
      StaysStuck(next, src, i, h);
    }
  }

  /** A set of people cannot be larger than the list they come from. */
  lemma {:induction false} AtMost(s: set<int>, limit: nat)
    requires forall x :: x in s ==> 0 <= x < limit
    ensures |s| <= limit
  {
    if limit > 0 {
      var rest := s - {limit - 1};
      AtMost(rest, limit - 1);
      assert s <= rest + {limit - 1};
      assert |s| <= |rest + {limit - 1}|;
    } else {
      assert forall x :: x !in s;
      assert s == {};
    }
  }

  ghost function Visited(next: Choices, src: nat, n: nat): set<int>
    requires Legal(next) && src < |next|
  {
    (if n == 0 then {} else Visited(next, src, n - 1)) + {At(next, src, n)}
  }

  lemma {:induction false} VisitedDistinct(next: Choices, src: nat, dst: nat, h: nat, n: nat)
    requires Legal(next) && src < |next| && dst < |next|
    requires FirstHit(next, src, dst, h) && n <= h
    ensures |Visited(next, src, n)| == n + 1
  {
    hide At, FirstHit;
    if n > 0 {
      VisitedDistinct(next, src, dst, h, n - 1);
      if At(next, src, n) in Visited(next, src, n - 1) {
        var i := WhenVisited(next, src, n - 1, At(next, src, n));
        NoRevisit(next, src, dst, h, i, n);
      }
    }
  }

  lemma {:induction false} WhenVisited(next: Choices, src: nat, n: nat, x: int) returns (i: nat)
    requires Legal(next) && src < |next| && x in Visited(next, src, n)
    ensures i <= n && x == At(next, src, i)
  {
    hide At;
    if x == At(next, src, n) {
      i := n;
    } else {
      i := WhenVisited(next, src, n - 1, x);
    }
  }

  /** Whoever can be reached is reached within |people| - 1 hops. */
  lemma ReachedSoon(next: Choices, src: nat, dst: nat, h: nat)
    requires Legal(next) && src < |next| && dst < |next| && FirstHit(next, src, dst, h)
    ensures h < |next|
  {
    VisitedDistinct(next, src, dst, h, h);
    forall x | x in Visited(next, src, h) ensures 0 <= x < |next| {
      var i := WhenVisited(next, src, h, x);
      if i < h {
        NoRevisit(next, src, dst, h, i, h);
      }
    }
    AtMost(Visited(next, src, h), |next|);
  }

  lemma {:induction false} StrangersOnTheWay(next: Choices, src: nat, dst: nat, h: nat, n: nat)
    requires Legal(next) && src < |next| && dst < |next|
    requires FirstHit(next, src, dst, h) && n <= h
    ensures Strangers(next, src, dst, n) == if n == h && n > 0 then n - 1 else n
  {
    if n > 0 {
      StrangersOnTheWay(next, src, dst, h, n - 1);
      NoRevisit(next, src, dst, h, 0, n);
    }
  }

  lemma FirstHitExists(next: Choices, src: nat, dst: nat, n: nat) returns (h: nat)
    requires Legal(next) && src < |next| && dst < |next|
    requires At(next, src, n) == dst
    ensures h <= n && FirstHit(next, src, dst, h)
  {
    h := 0;
    while At(next, src, h) != dst
      invariant h <= n && forall m: nat :: m < h ==> At(next, src, m) != dst
      decreases n - h
    {
      h := h + 1;
    }
  }

  // ---------- What the simulator's answers mean ----------

  /** The walk decides the answer. */
  lemma OneAnswer(next: Choices, src: nat, dst: nat, money: int, r: Outcome, r': Outcome)
    requires Legal(next) && src < |next| && dst < |next|
    requires Answers(next, src, dst, money, r) && Answers(next, src, dst, money, r')
    ensures r == r'
  {
  }

  lemma SelfAtOnce(next: Choices, src: nat, dst: nat, h: nat)
    requires Legal(next) && src < |next| && dst < |next| && FirstHit(next, src, dst, h)
    ensures src == dst <==> h == 0
  {
    assert At(next, src, 0) == src;
  }

  /** A delivered message took fewer hops than there are people, and `intermediates` is one less
      than the hops unless the sender wrote to himself. */
  lemma DeliveredSoon(next: Choices, src: nat, dst: nat, money: int, i: nat)
    requires Legal(next) && src < |next| && dst < |next|
    requires Answers(next, src, dst, money, Done(true, i))
    ensures exists h: nat :: h < |next| && h <= Hops(money) && FirstHit(next, src, dst, h)
                             && i == if src == dst then 0 else h - 1
  {
    hide At;
    var h: nat :| h <= Hops(money) && FirstHit(next, src, dst, h) && i == Strangers(next, src, dst, h);
    ReachedSoon(next, src, dst, h);
    StrangersOnTheWay(next, src, dst, h, h);
    SelfAtOnce(next, src, dst, h);
  }

  /** More money never changes a delivered result; and with one coin less than there are people
      the result is already that of any budget that delivers. */
  lemma MoneyHardlyMatters(next: Choices, src: nat, dst: nat, money: int, r: Outcome, enough: int, r': Outcome)
    requires Legal(next) && src < |next| && dst < |next|
    requires Answers(next, src, dst, money, r) && Answers(next, src, dst, enough, r')
    ensures money <= enough && r.Done? && r.delivered ==> r' == r
    ensures |next| - 1 <= enough && r.Done? && r.delivered ==> r' == r
  {
    if r.Done? && r.delivered {
      var h: nat :| h <= Hops(money) && FirstHit(next, src, dst, h) && r.intermediates == Strangers(next, src, dst, h);
      ReachedSoon(next, src, dst, h);
      if h <= Hops(enough) {
        assert Answers(next, src, dst, enough, r);
        OneAnswer(next, src, dst, enough, r, r');
      }
    }
  }

  /** With that many coins a message is delivered exactly if the walk ever passes the addressee. */
  lemma DeliveredIfReachable(next: Choices, src: nat, dst: nat, enough: int, r: Outcome)
    requires Legal(next) && src < |next| && dst < |next| && |next| - 1 <= enough
    requires Answers(next, src, dst, enough, r)
    ensures r.Done? && r.delivered <==> exists n: nat :: At(next, src, n) == dst
  {
    hide At;
    if n: nat :| At(next, src, n) == dst {
      var h := FirstHitExists(next, src, dst, n);
      ReachedSoon(next, src, dst, h);
    }
  }

  // ---------- When the program panics ----------

  /** Nobody's message to dst ends in a panic, whatever the budget. */
  ghost predicate NoPanic(next: Choices, dst: nat)
    requires Legal(next)
  {
    forall src: nat, money: int, r: Outcome :: src < |next| && Answers(next, src, dst, money, r) ==> r.Done?
  }

  lemma {:induction false} NeverStuck(next: Choices, src: nat, dst: nat, n: nat)
    requires Legal(next) && src < |next|
    requires forall p :: 0 <= p < |next| && p != dst ==> next[p] != -1
    requires forall m: nat :: m < n ==> At(next, src, m) != dst
    ensures At(next, src, n) != -1
  {
    if n > 0 {
      NeverStuck(next, src, dst, n - 1);
    }
  }

  /** Nobody chosen by the sender: one coin fails quietly, two coins panic. */
  lemma StuckSenderPanics(next: Choices, src: nat, dst: nat)
    requires Legal(next) && src < |next| && dst < |next| && src != dst && next[src] == -1
    ensures Answers(next, src, dst, 1, Done(false, 1)) && Answers(next, src, dst, 2, Panic)
  {
    assert At(next, src, 0) == src && At(next, src, 1) == -1 && At(next, src, 2) == -1;
    assert Strangers(next, src, dst, 0) == 0;
  }

  /** There is no panic exactly if everybody but the addressee chooses somebody. */
  lemma NoPanicExactly(next: Choices, dst: nat)
    requires Legal(next) && dst < |next|
    ensures NoPanic(next, dst) <==> forall p :: 0 <= p < |next| && p != dst ==> next[p] != -1
  {
    if p :| 0 <= p < |next| && p != dst && next[p] == -1 {
      StuckSenderPanics(next, p, dst);
      assert !Outcome.Panic.Done?;
    } else {
      forall src: nat, money: int, r: Outcome | src < |next| && Answers(next, src, dst, money, r) ensures r.Done? {
        NotStuckMeansDone(next, src, dst, money, r);
      }
    }
  }

  lemma NotStuckMeansDone(next: Choices, src: nat, dst: nat, money: int, r: Outcome)
    requires Legal(next) && src < |next| && Answers(next, src, dst, money, r)
    requires forall p :: 0 <= p < |next| && p != dst ==> next[p] != -1
    ensures r.Done?
  {
    if r.Panic? {
      var n: nat :| n < Hops(money) && At(next, src, n) == -1;
      NeverStuck(next, src, dst, n);
    }
  }

  /** Somebody among p's friends is, by the wrapped distance, below the largest integer. */
  ghost predicate HasChoice(people: seq<Person>, p: nat, dst: nat)
    requires Valid(people) && p < |people| && dst < |people|
  {
    exists i :: 0 <= i < |people[p].friends| && Dist(people[people[p].friends[i]], people[dst]) < MAX_INT64
  }

  /** The same on the people given: exactly when no message to dst can panic. With small
      coordinates that is a friend for everybody but the addressee. */
  lemma NeverPanics(people: seq<Person>, dst: nat)
    requires Valid(people) && dst < |people|
    ensures NoPanic(Table(people, dst), dst) <==>
            forall p :: 0 <= p < |people| && p != dst ==> HasChoice(people, p, dst)
    ensures Bounded(people) ==>
              (NoPanic(Table(people, dst), dst) <==>
               forall p :: 0 <= p < |people| && p != dst ==> people[p].friends != [])
  {
    hide NoPanic, HasChoice, Dist, Choice, Bounded, OrderKept;
    var next := Table(people, dst);
    NoPanicExactly(next, dst);
    forall p | 0 <= p < |people| ensures next[p] != -1 <==> HasChoice(people, p, dst) {
      ChosenExactly(people, p, dst);
    }
    if Bounded(people) {
      BoundedKeepsOrder(people, dst);
      forall p | 0 <= p < |people| ensures HasChoice(people, p, dst) <==> people[p].friends != [] {
        OrderMeansChoice(people, p, dst);
      }
    }
  }

  lemma ChosenExactly(people: seq<Person>, p: nat, dst: nat)
    requires Valid(people) && p < |people| && dst < |people|
    ensures Next(people, p, dst) != -1 <==> HasChoice(people, p, dst)
  {
    hide Dist, Choice;
    ChoiceIsNearest(people, people[p].friends, dst);
  }

  lemma OrderMeansChoice(people: seq<Person>, p: nat, dst: nat)
    requires Valid(people) && p < |people| && dst < |people| && OrderKept(people, dst)
    ensures HasChoice(people, p, dst) <==> people[p].friends != []
  {
    hide Dist, TrueDist;
    var friends := people[p].friends;
    if friends != [] {
      assert Dist(people[friends[0]], people[dst]) < MAX_INT64;
    }
  }

  /** An input that panics: the sender has no friends and two coins. */
  lemma LonelySenderPanics()
    ensures var people := [Person(0, 0, []), Person(1, 1, [0])];
      && Valid(people)
      && Answers(Table(people, 1), 0, 1, 1, Done(false, 1)) && Answers(Table(people, 1), 0, 1, 2, Panic)
  {
    hide Dist, Answers;
    var people := [Person(0, 0, []), Person(1, 1, [0])];
    assert Choice(people, [], 1) == -1;
    StuckSenderPanics(Table(people, 1), 0, 1);
  }
}
