/** The runway counter of airport/main.go ("admin" branch): interval construction, event sort
    and sweep, and why the counter is the least number of runways that will do. */
module Airport {
  import opened Basics

  /** `time` is None where the flight's time could not be parsed; times are in minutes. */
  datatype Flight = Flight(time: Option<int>, fromTehran: bool)

  /** A runway is taken at both ends of the interval and in between. */
  datatype Interval = Interval(start: int, end: int)
  datatype Event = Event(t: int, delta: int)

  function Occupies(f: Flight): Interval
    requires f.time.Some?
  {
    Interval(f.time.value - (if f.fromTehran then 5 else 10), f.time.value + 5)
  }

  function Intervals(fs: seq<Flight>): seq<Interval> {
    if fs == [] then []
    else Intervals(fs[..|fs| - 1]) + if fs[|fs| - 1].time.Some? then [Occupies(fs[|fs| - 1])] else []
  }

  function Events(ivs: seq<Interval>): seq<Event> {
    if ivs == [] then []
    else Events(ivs[..|ivs| - 1]) + [Event(ivs[|ivs| - 1].start, 1), Event(ivs[|ivs| - 1].end, -1)]
  }

  /** The comparator: earlier first, and at one instant +1 before -1. */
  predicate Less(a: Event, b: Event) {
    if a.t == b.t then a.delta > b.delta else a.t < b.t
  }

  ghost predicate Sorted(es: seq<Event>) {
    forall i, j :: 0 <= i < j < |es| ==> !Less(es[j], es[i])
  }

  predicate Contains(iv: Interval, x: int) {
    iv.start <= x <= iv.end
  }

  /** How many runways are taken at instant x. */
  function Depth(ivs: seq<Interval>, x: int): nat {
    if ivs == [] then 0
    else Depth(ivs[..|ivs| - 1], x) + if Contains(ivs[|ivs| - 1], x) then 1 else 0
  }

  predicate Touch(a: Interval, b: Interval) {
    a.start <= b.end && b.start <= a.end
  }

  /** `a` gives every flight one of `k` runways, and no two touching flights the same one. */
  ghost predicate Assigns(a: seq<nat>, ivs: seq<Interval>, k: nat) {
    && |a| == |ivs|
    && (forall i :: 0 <= i < |a| ==> a[i] < k)
    && forall i, j :: 0 <= i < j < |ivs| && Touch(ivs[i], ivs[j]) ==> a[i] != a[j]
  }

  ghost predicate Suffices(ivs: seq<Interval>, k: nat) {
    exists a :: Assigns(a, ivs, k)
  }

  // ---------- Counting events ----------

  /** Runways taken minus runways released among the events that satisfy p. */
  function Balance(es: seq<Event>, p: Event -> bool): int {
    if es == [] then 0
    else Balance(es[..|es| - 1], p) + if p(es[|es| - 1]) then es[|es| - 1].delta else 0
  }

  lemma {:induction false} BalanceConcat(a: seq<Event>, b: seq<Event>, p: Event -> bool)
    ensures Balance(a + b, p) == Balance(a, p) + Balance(b, p)
    decreases |b|
  {
    if b == [] {
      assert a + b == a;
    } else {
      assert (a + b)[..|a + b| - 1] == a + b[..|b| - 1];
      BalanceConcat(a, b[..|b| - 1], p);
    }
  }

  lemma {:induction false} BalancePermutation(a: seq<Event>, b: seq<Event>, p: Event -> bool)
    requires multiset(a) == multiset(b)
    ensures Balance(a, p) == Balance(b, p)
    decreases |a|
  {
    if a == [] {
      assert |multiset(b)| == 0;
    } else {
      var e := a[|a| - 1];
      assert e in multiset(b);
      var k :| 0 <= k < |b| && b[k] == e;
      assert a == a[..|a| - 1] + [e];
      assert b == b[..k] + [e] + b[k + 1..];
      assert multiset(a[..|a| - 1]) == multiset(a) - multiset{e} == multiset(b[..k] + b[k + 1..]);
      BalancePermutation(a[..|a| - 1], b[..k] + b[k + 1..], p);
      BalanceConcat(b[..k], b[k + 1..], p);
      BalanceConcat(b[..k], [e], p);
      BalanceConcat(b[..k] + [e], b[k + 1..], p);
    }
  }

  /** The events that have happened once every runway needed at x has been taken. */
  function UpTo(x: int): Event -> bool {
    (e: Event) => e.t < x || (e.t == x && e.delta == 1)
  }

  /** Counting events up to x, in any order, counts the intervals that contain x. */
  lemma {:induction false} BalanceIsDepth(ivs: seq<Interval>, x: int)
    requires forall i :: 0 <= i < |ivs| ==> ivs[i].start <= ivs[i].end
    ensures Balance(Events(ivs), UpTo(x)) == Depth(ivs, x)
  {
    if ivs != [] {
      var n := |ivs| - 1;
      BalanceIsDepth(ivs[..n], x);
      var two := [Event(ivs[n].start, 1), Event(ivs[n].end, -1)];
      BalanceConcat(Events(ivs[..n]), two, UpTo(x));
      assert two[..1] == [two[0]];
      assert Balance([two[0]], UpTo(x)) == if UpTo(x)(two[0]) then 1 else 0;
      assert Balance(two, UpTo(x)) == Balance([two[0]], UpTo(x)) + if UpTo(x)(two[1]) then -1 else 0;
    }
  }

  // ---------- The sweep ----------

  function Running(es: seq<Event>): int {
    Balance(es, (e: Event) => true)
  }

  /** What the sweep's counter shows after n events. */
  function Value(es: seq<Event>, n: nat): int
    requires n <= |es|
  {
    Running(es[..n])
  }

  lemma ValueNext(es: seq<Event>, n: nat)
    requires n < |es|
    ensures Value(es, n + 1) == Value(es, n) + es[n].delta
  {
    assert es[..n + 1][..n] == es[..n];
  }

  lemma {:induction false} BalanceAll(es: seq<Event>, p: Event -> bool)
    requires forall k :: 0 <= k < |es| ==> p(es[k])
    ensures Balance(es, p) == Running(es)
  {
    if es != [] {
      BalanceAll(es[..|es| - 1], p);
    }
  }

  lemma {:induction false} BalanceNone(es: seq<Event>, p: Event -> bool)
    requires forall k :: 0 <= k < |es| ==> !p(es[k])
    ensures Balance(es, p) == 0
  {
    if es != [] {
      BalanceNone(es[..|es| - 1], p);
    }
  }

  /** In sorted order the events up to x come first, so one of the sweep's values is the
      balance up to x. */
  lemma {:induction false} PrefixUpTo(es: seq<Event>, x: int) returns (n: nat)
    requires Sorted(es) && forall k :: 0 <= k < |es| ==> es[k].delta == 1 || es[k].delta == -1
    ensures n <= |es| && Value(es, n) == Balance(es, UpTo(x))
    ensures forall k :: 0 <= k < n ==> UpTo(x)(es[k])
    ensures forall k :: n <= k < |es| ==> !UpTo(x)(es[k])
  {
    n := |es|;
    while n > 0 && !UpTo(x)(es[n - 1])
      invariant 0 <= n <= |es|
      invariant forall k :: n <= k < |es| ==> !UpTo(x)(es[k])
    {
      n := n - 1;
    }
    if n > 0 {
      forall k | 0 <= k < n ensures UpTo(x)(es[k]) {
        assert k < n - 1 ==> !Less(es[n - 1], es[k]);
      }
    }
    BalanceAll(es[..n], UpTo(x));
    BalanceNone(es[n..], UpTo(x));
    BalanceConcat(es[..n], es[n..], UpTo(x));
    assert es == es[..n] + es[n..];
  }

  /** Right after a +1 event at x the sweep's value is at most the balance up to x. */
  lemma {:induction false} ValueAtStart(es: seq<Event>, n: nat)
    requires Sorted(es) && forall k :: 0 <= k < |es| ==> es[k].delta == 1 || es[k].delta == -1
    requires 0 < n <= |es| && es[n - 1].delta == 1
    ensures Value(es, n) <= Balance(es, UpTo(es[n - 1].t))
  {
    var x := es[n - 1].t;
    var m := PrefixUpTo(es, x);
    assert UpTo(x)(es[n - 1]);
    assert n <= m;
    forall k | n <= k < m ensures es[k].delta == 1 {
      assert !Less(es[k], es[n - 1]);
    }
    RunningGrows(es, n, m);
  }

  lemma {:induction false} RunningGrows(es: seq<Event>, n: nat, m: nat)
    requires n <= m <= |es| && forall k :: n <= k < m ==> es[k].delta == 1
    ensures Value(es, n) <= Value(es, m)
    decreases m - n
  {
    if n < m {
      RunningGrows(es, n, m - 1);
      ValueNext(es, m - 1);
    }
  }

  /** sort.Slice with the comparator: some sorted rearrangement. Insertion keeps it short. */
  method SortEvents(es: seq<Event>) returns (r: seq<Event>)
    ensures multiset(r) == multiset(es) && Sorted(r)
  {
    r := [];
    for i := 0 to |es|
      invariant multiset(r) == multiset(es[..i]) && Sorted(r) && |r| == i
    {
      var k := i;
      while k > 0 && Less(es[i], r[k - 1])
        invariant 0 <= k <= i
        invariant forall j :: k <= j < i ==> Less(es[i], r[j])
      {
        k := k - 1;
      }
      InsertedSorted(r, k, es[i]);
      assert r == r[..k] + r[k..] && es[..i + 1] == es[..i] + [es[i]];
      r := r[..k] + [es[i]] + r[k..];
    }
    assert es[..|es|] == es;
  }

  lemma InsertedSorted(r: seq<Event>, k: nat, e: Event)
    requires Sorted(r) && k <= |r|
    requires k > 0 ==> !Less(e, r[k - 1])
    requires forall j :: k <= j < |r| ==> Less(e, r[j])
    ensures Sorted(r[..k] + [e] + r[k..])
  {
    var s := r[..k] + [e] + r[k..];
    forall i, j | 0 <= i < j < |s| ensures !Less(s[j], s[i]) {
      if j == k && i < k - 1 {
        assert !Less(r[k - 1], r[i]);
      }
    }
  }

  /** Two events for every flight whose time is known. */
  method CollectEvents(flights: seq<Flight>) returns (events: seq<Event>)
    ensures events == Events(Intervals(flights))
  {
    events := [];
    for i := 0 to |flights|
      invariant events == Events(Intervals(flights[..i]))
    {
      var fl := flights[i];
      IntervalsNext(flights, i);
      if fl.time.None? {
        continue;
      }
      var start, end;
      if fl.fromTehran {
        start := fl.time.value - 5;
        end := fl.time.value + 5;
      } else {
        start := fl.time.value - 10;
        end := fl.time.value + 5;
      }
      EventsNext(Intervals(flights[..i]), Interval(start, end));
      events := events + [Event(start, 1), Event(end, -1)];
    }
    assert flights[..|flights|] == flights;
  }

  /** The counter shows d right after a runway has been taken. */
  predicate Peak(es: seq<Event>, n: nat, d: int)
    requires 0 < n <= |es|
  {
    Value(es, n) == d && es[n - 1].delta > 0
  }

  /** The sweep over the sorted events: the greatest value the counter ever shows. */
  method Sweep(sorted: seq<Event>) returns (maxRunways: nat)
    ensures forall n :: 0 <= n <= |sorted| ==> Value(sorted, n) <= maxRunways
    ensures maxRunways > 0 ==> exists n :: 0 < n <= |sorted| && Peak(sorted, n, maxRunways)
  {
    var current := 0;
    maxRunways := 0;
    for i := 0 to |sorted|
      invariant current == Value(sorted, i)
      invariant forall n :: 0 <= n <= i ==> Value(sorted, n) <= maxRunways
      invariant maxRunways > 0 ==> exists n :: 0 < n <= i && Peak(sorted, n, maxRunways)
    {
      ValueNext(sorted, i);
      current := current + sorted[i].delta;
      if current > maxRunways {
        maxRunways := current;
        assert Peak(sorted, i + 1, maxRunways);
      }
    }
  }

  /** The counter's greatest value is the greatest depth. */
  lemma SweepIsDepth(ivs: seq<Interval>, sorted: seq<Event>, d: nat)
    requires Sorted(sorted) && multiset(sorted) == multiset(Events(ivs))
    requires forall i :: 0 <= i < |ivs| ==> ivs[i].start <= ivs[i].end
    requires forall n :: 0 <= n <= |sorted| ==> Value(sorted, n) <= d
    requires d > 0 ==> exists n :: 0 < n <= |sorted| && Peak(sorted, n, d)
    ensures forall x :: Depth(ivs, x) <= d
    ensures d > 0 ==> exists x :: Depth(ivs, x) == d
  {
    SortedDeltas(ivs, sorted);
    forall x ensures Depth(ivs, x) <= d {
      var n := PrefixUpTo(sorted, x);
      SortedBalance(ivs, sorted, x);
    }
    if d > 0 {
      var n :| 0 < n <= |sorted| && Peak(sorted, n, d);
      ValueAtStart(sorted, n);
      SortedBalance(ivs, sorted, sorted[n - 1].t);
    }
  }

  lemma SortedBalance(ivs: seq<Interval>, sorted: seq<Event>, x: int)
    requires multiset(sorted) == multiset(Events(ivs))
    requires forall i :: 0 <= i < |ivs| ==> ivs[i].start <= ivs[i].end
    ensures Balance(sorted, UpTo(x)) == Depth(ivs, x)
  {
    BalancePermutation(sorted, Events(ivs), UpTo(x));
    BalanceIsDepth(ivs, x);
  }

  /** The admin branch prints the greatest number of flights that are on a runway in the same
      minute, 5 minutes to either side of a departure, from 10 before to 5 after an arrival;
      and that is the least number of runways on which all flights can be scheduled. */
  method Admin(flights: seq<Flight>) returns (maxRunways: nat)
    ensures forall x :: |Using(flights, x)| <= maxRunways
    ensures forall x ::
      Using(flights, x) == (set i: nat | i < |flights| && flights[i].time.Some?
                              && flights[i].time.value - (if flights[i].fromTehran then 5 else 10) <= x
                              && x <= flights[i].time.value + 5)
    ensures maxRunways > 0 ==> exists x :: |Using(flights, x)| == maxRunways
    ensures exists a :: Schedules(a, flights, maxRunways)
    ensures forall a, k :: Schedules(a, flights, k) ==> maxRunways <= k
  {
    var events := CollectEvents(flights);
    var sorted := SortEvents(events);
    Forwards(flights);
    maxRunways := Sweep(sorted);
    SweepIsDepth(Intervals(flights), sorted, maxRunways);
    RunwaysForFlights(flights, maxRunways);
  }

  // ---------- From intervals to flights ----------

  /** The flights that need a runway in minute x. */
  ghost function Using(fs: seq<Flight>, x: int): set<nat> {
    set i: nat | i < |fs| && fs[i].time.Some? && Contains(Occupies(fs[i]), x)
  }

  /** `a` gives every flight with a known time one of `k` runways, and no two flights that need
      one in the same minute the same one. */
  ghost predicate Schedules(a: seq<nat>, fs: seq<Flight>, k: nat) {
    && |a| == |fs|
    && (forall i :: 0 <= i < |fs| && fs[i].time.Some? ==> a[i] < k)
    && forall x, i, j :: i in Using(fs, x) && j in Using(fs, x) && i != j ==> a[i] != a[j]
  }

  lemma UsingNext(fs: seq<Flight>, x: int)
    requires fs != []
    ensures var n := |fs| - 1;
      && n !in Using(fs[..n], x)
      && Using(fs, x) == Using(fs[..n], x) +
           if fs[n].time.Some? && Contains(Occupies(fs[n]), x) then {n} else {}
  {
  }

  /** How deep the intervals lie at x is how many flights need a runway then. */
  lemma {:induction false} DepthIsUsing(fs: seq<Flight>, x: int)
    ensures Depth(Intervals(fs), x) == |Using(fs, x)|
  {
    if fs != [] {
      var n := |fs| - 1;
      DepthIsUsing(fs[..n], x);
      UsingNext(fs, x);
      var before := Intervals(fs[..n]);
      if fs[n].time.Some? {
        assert (before + [Occupies(fs[n])])[..|before|] == before;
      } else {
        assert before + [] == before;
      }
    }
  }

  /** The interval of the i-th flight stands where the flights before it have left off. */
  lemma {:induction false} IntervalOf(fs: seq<Flight>, i: nat)
    requires i < |fs| && fs[i].time.Some?
    ensures |Intervals(fs[..i])| < |Intervals(fs)| && Intervals(fs)[|Intervals(fs[..i])|] == Occupies(fs[i])
    ensures forall j :: i < j <= |fs| ==> |Intervals(fs[..i])| < |Intervals(fs[..j])|
  {
    var n := |fs| - 1;
    if i < n {
      IntervalOf(fs[..n], i);
      assert fs[..n][..i] == fs[..i];
      forall j | i < j <= |fs| ensures |Intervals(fs[..i])| < |Intervals(fs[..j])| {
        assert j <= n ==> fs[..n][..j] == fs[..j];
      }
    }
    assert fs[..|fs|] == fs;
  }

  lemma ScheduleFrom(a: seq<nat>, fs: seq<Flight>, k: nat) returns (b: seq<nat>)
    requires Assigns(a, Intervals(fs), k)
    ensures Schedules(b, fs, k)
  {
    forall i | 0 <= i < |fs| && fs[i].time.Some? ensures |Intervals(fs[..i])| < |a| {
      IntervalOf(fs, i);
    }
    b := seq(|fs|, i requires 0 <= i < |fs| => if fs[i].time.Some? then a[|Intervals(fs[..i])|] else 0);
    forall x, i, j | i in Using(fs, x) && j in Using(fs, x) && i < j ensures b[i] != b[j] {
      IntervalOf(fs, i);
      IntervalOf(fs, j);
    }
  }

  lemma {:induction false} Injective(b: seq<nat>, s: set<nat>)
    requires forall i :: i in s ==> i < |b|
    requires forall i, j :: i in s && j in s && i != j ==> b[i] != b[j]
    ensures |set i | i in s :: b[i]| == |s|
    decreases |s|
  {
    if s != {} {
      var i :| i in s;
      Injective(b, s - {i});
      assert (set j | j in s :: b[j]) == (set j | j in s - {i} :: b[j]) + {b[i]};
    }
  }

  /** Flights that need a runway in the same minute bound every schedule from below. */
  lemma ScheduleNeeds(b: seq<nat>, fs: seq<Flight>, k: nat, x: int)
    requires Schedules(b, fs, k)
    ensures |Using(fs, x)| <= k
  {
    var s := Using(fs, x);
    Injective(b, s);
    SubsetSize(set i | i in s :: b[i], Below(k));
  }

  lemma RunwaysForFlights(fs: seq<Flight>, d: nat)
    requires forall i :: 0 <= i < |Intervals(fs)| ==> Intervals(fs)[i].start <= Intervals(fs)[i].end
    requires forall x :: Depth(Intervals(fs), x) <= d
    requires d > 0 ==> exists x :: Depth(Intervals(fs), x) == d
    ensures forall x :: |Using(fs, x)| <= d
    ensures d > 0 ==> exists x :: |Using(fs, x)| == d
    ensures exists a :: Schedules(a, fs, d)
    ensures forall a, k :: Schedules(a, fs, k) ==> d <= k
  {
    forall x ensures Depth(Intervals(fs), x) == |Using(fs, x)| {
      DepthIsUsing(fs, x);
    }
    var a := UpperBound(Intervals(fs), d);
    var b := ScheduleFrom(a, fs, d);
    forall b, k | Schedules(b, fs, k) ensures d <= k {
      if d > 0 {
        var x :| Depth(Intervals(fs), x) == d;
        ScheduleNeeds(b, fs, k, x);
      }
    }
  }

  lemma IntervalsNext(fs: seq<Flight>, i: nat)
    requires i < |fs|
    ensures Intervals(fs[..i + 1]) ==
      if fs[i].time.Some? then Intervals(fs[..i]) + [Occupies(fs[i])] else Intervals(fs[..i])
  {
    assert fs[..i + 1][..i] == fs[..i];
    assert Intervals(fs[..i]) + [] == Intervals(fs[..i]);
  }

  lemma EventsNext(ivs: seq<Interval>, iv: Interval)
    ensures Events(ivs + [iv]) == Events(ivs) + [Event(iv.start, 1), Event(iv.end, -1)]
  {
    assert (ivs + [iv])[..|ivs|] == ivs;
  }

  lemma {:induction false} Forwards(fs: seq<Flight>)
    ensures forall i :: 0 <= i < |Intervals(fs)| ==> Intervals(fs)[i].start <= Intervals(fs)[i].end
  {
    if fs != [] {
      Forwards(fs[..|fs| - 1]);
    }
  }

  lemma {:induction false} EventDeltas(ivs: seq<Interval>)
    ensures forall e :: e in Events(ivs) ==> e.delta == 1 || e.delta == -1
  {
    if ivs != [] {
      EventDeltas(ivs[..|ivs| - 1]);
    }
  }

  lemma SortedDeltas(ivs: seq<Interval>, es: seq<Event>)
    requires multiset(es) == multiset(Events(ivs))
    ensures forall k :: 0 <= k < |es| ==> es[k].delta == 1 || es[k].delta == -1
  {
    EventDeltas(ivs);
    forall k | 0 <= k < |es| ensures es[k].delta == 1 || es[k].delta == -1 {
      assert es[k] in multiset(es);
      assert es[k] in Events(ivs);
    }
  }

  // ---------- Depth is the minimum number of runways ----------

  /** The runways that `a` gives to the intervals containing x. */
  ghost function RunwaysAt(a: seq<nat>, ivs: seq<Interval>, x: int): set<nat>
    requires |a| == |ivs|
  {
    set i | 0 <= i < |a| && Contains(ivs[i], x) :: a[i]
  }

  lemma RunwaysAtNext(a: seq<nat>, ivs: seq<Interval>, x: int)
    requires |a| == |ivs| > 0
    ensures var n := |a| - 1;
      RunwaysAt(a, ivs, x) == RunwaysAt(a[..n], ivs[..n], x) + if Contains(ivs[n], x) then {a[n]} else {}
  {
    var n := |a| - 1;
    forall c | c in RunwaysAt(a[..n], ivs[..n], x) ensures c in RunwaysAt(a, ivs, x) {
      var i :| 0 <= i < n && Contains(ivs[..n][i], x) && a[..n][i] == c;
      assert Contains(ivs[i], x) && a[i] == c;
    }
    forall c | c in RunwaysAt(a, ivs, x)
      ensures c in RunwaysAt(a[..n], ivs[..n], x) + if Contains(ivs[n], x) then {a[n]} else {}
    {
      var i :| 0 <= i < |a| && Contains(ivs[i], x) && a[i] == c;
      if i < n {
        assert Contains(ivs[..n][i], x) && a[..n][i] == c;
      }
    }
  }

  lemma {:induction false} RunwaysAtMostDepth(a: seq<nat>, ivs: seq<Interval>, x: int)
    requires |a| == |ivs|
    ensures |RunwaysAt(a, ivs, x)| <= Depth(ivs, x)
  {
    if a != [] {
      RunwaysAtNext(a, ivs, x);
      RunwaysAtMostDepth(a[..|a| - 1], ivs[..|a| - 1], x);
    }
  }

  lemma LastRunwayIsNew(a: seq<nat>, ivs: seq<Interval>, x: int, k: nat)
    requires Assigns(a, ivs, k) && a != [] && Contains(ivs[|a| - 1], x)
    ensures a[|a| - 1] !in RunwaysAt(a[..|a| - 1], ivs[..|a| - 1], x)
  {
    var n := |a| - 1;
    forall i | 0 <= i < n && Contains(ivs[..n][i], x) ensures a[..n][i] != a[n] {
      assert Touch(ivs[i], ivs[n]);
    }
  }

  lemma AssignsPrefix(a: seq<nat>, ivs: seq<Interval>, k: nat)
    requires Assigns(a, ivs, k) && a != []
    ensures Assigns(a[..|a| - 1], ivs[..|a| - 1], k)
  {
  }

  /** Flights that share an instant need different runways. */
  lemma {:induction false} RunwaysAtLeastDepth(a: seq<nat>, ivs: seq<Interval>, x: int, k: nat)
    requires Assigns(a, ivs, k)
    ensures |RunwaysAt(a, ivs, x)| == Depth(ivs, x)
  {
    if a != [] {
      AssignsPrefix(a, ivs, k);
      RunwaysAtNext(a, ivs, x);
      RunwaysAtLeastDepth(a[..|a| - 1], ivs[..|a| - 1], x, k);
      if Contains(ivs[|a| - 1], x) {
        LastRunwayIsNew(a, ivs, x, k);
      }
    }
  }

  ghost function Below(k: nat): (r: set<nat>)
    ensures |r| == k && forall c: nat :: c in r <==> c < k
  {
    if k == 0 then {} else Below(k - 1) + {k - 1}
  }

  lemma LowerBound(a: seq<nat>, ivs: seq<Interval>, x: int, k: nat)
    requires Assigns(a, ivs, k)
    ensures Depth(ivs, x) <= k
  {
    RunwaysAtLeastDepth(a, ivs, x, k);
    SubsetSize(RunwaysAt(a, ivs, x), Below(k));
  }

  function Without<T>(s: seq<T>, m: nat): seq<T>
    requires m < |s|
  {
    s[..m] + s[m + 1..]
  }

  lemma {:induction false} DepthConcat(a: seq<Interval>, b: seq<Interval>, x: int)
    ensures Depth(a + b, x) == Depth(a, x) + Depth(b, x)
    decreases |b|
  {
    if b == [] {
      assert a + b == a;
    } else {
      assert (a + b)[..|a + b| - 1] == a + b[..|b| - 1];
      DepthConcat(a, b[..|b| - 1], x);
    }
  }

  lemma DepthWithout(ivs: seq<Interval>, m: nat, x: int)
    requires m < |ivs|
    ensures Depth(ivs, x) == Depth(Without(ivs, m), x) + if Contains(ivs[m], x) then 1 else 0
  {
    assert ivs == ivs[..m] + [ivs[m]] + ivs[m + 1..];
    DepthConcat(ivs[..m], [ivs[m]], x);
    DepthConcat(ivs[..m] + [ivs[m]], ivs[m + 1..], x);
    DepthConcat(ivs[..m], ivs[m + 1..], x);
    assert [ivs[m]][..0] == [];
  }

  lemma {:induction false} LatestStart(ivs: seq<Interval>) returns (m: nat)
    requires ivs != []
    ensures m < |ivs| && forall i :: 0 <= i < |ivs| ==> ivs[i].start <= ivs[m].start
  {
    if |ivs| == 1 {
      m := 0;
    } else {
      m := LatestStart(ivs[..|ivs| - 1]);
      if ivs[m].start < ivs[|ivs| - 1].start {
        m := |ivs| - 1;
      }
    }
  }

  /** One more flight, starting last: give it a runway free at its start. */
  lemma AssignOneMore(a: seq<nat>, ivs: seq<Interval>, m: nat, k: nat) returns (b: seq<nat>)
    requires m < |ivs| && Assigns(a, Without(ivs, m), k) && ivs[m].start <= ivs[m].end
    requires forall i :: 0 <= i < |ivs| ==> ivs[i].start <= ivs[m].start
    requires Depth(ivs, ivs[m].start) <= k
    ensures Assigns(b, ivs, k)
  {
    var rest, x := Without(ivs, m), ivs[m].start;
    DepthWithout(ivs, m, x);
    RunwaysAtMostDepth(a, rest, x);
    var taken := RunwaysAt(a, rest, x);
    if Below(k) <= taken {
      SubsetSize(Below(k), taken);
    }
    var c: nat :| c < k && c !in taken;
    b := a[..m] + [c] + a[m..];
    forall i, j | 0 <= i < j < |ivs| && Touch(ivs[i], ivs[j]) ensures b[i] != b[j] {
      if i == m || j == m {
        var o := if i == m then j - 1 else i;
        assert Contains(rest[o], x);
        assert a[o] in taken;
      } else {
        var i', j' := if i < m then i else i - 1, if j < m then j else j - 1;
        assert rest[i'] == ivs[i] && rest[j'] == ivs[j] && a[i'] == b[i] && a[j'] == b[j];
      }
    }
  }

  /** As many runways as the greatest depth are enough: an assignment is constructed. */
  lemma {:induction false} UpperBound(ivs: seq<Interval>, k: nat) returns (a: seq<nat>)
    requires forall i :: 0 <= i < |ivs| ==> ivs[i].start <= ivs[i].end
    requires forall x :: Depth(ivs, x) <= k
    ensures Assigns(a, ivs, k)
    decreases |ivs|
  {
    if ivs == [] {
      a := [];
    } else {
      var m := LatestStart(ivs);
      forall x ensures Depth(Without(ivs, m), x) <= k {
        DepthWithout(ivs, m, x);
      }
      var rest := UpperBound(Without(ivs, m), k);
      a := AssignOneMore(rest, ivs, m, k);
    }
  }

  lemma DepthIsMinimum(ivs: seq<Interval>, d: nat)
    requires forall i :: 0 <= i < |ivs| ==> ivs[i].start <= ivs[i].end
    requires forall x :: Depth(ivs, x) <= d
    requires d > 0 ==> exists x :: Depth(ivs, x) == d
    ensures Suffices(ivs, d)
    ensures forall k :: Suffices(ivs, k) ==> d <= k
  {
    var a := UpperBound(ivs, d);
    forall k | Suffices(ivs, k) ensures d <= k {
      if d > 0 {
        var x :| Depth(ivs, x) == d;
        var b :| Assigns(b, ivs, k);
        LowerBound(b, ivs, x, k);
      }
    }
  }
}
