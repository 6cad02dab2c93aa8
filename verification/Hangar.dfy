/** The first stage of `Repair` in airplane-hangar/main.go on the heap: parts are pointers, slices
    of slots are arrays, and the donor's slots are set to nil by searching for the moved pointer. */
module Hangar {
  import opened Basics
  import opened Transplant

  class Engine {
    const id: int
  }

  class Wing {
    const id: int
    var engine: Option<Engine>
  }

  class Wheel {
    const id: int
  }

  class Cabin {
    const id: int
  }

  /** A slice of slots: which array it is and how long it is never changes here. */
  type Rack<T> = array<Option<T>>

  class Aircraft {
    var cabin: Option<Cabin>
    const wings: Rack<Wing>
    const wheels: Rack<Wheel>

    constructor (cabin: Option<Cabin>, wings: Rack<Wing>, wheels: Rack<Wheel>)
      ensures this.cabin == cabin && this.wings == wings && this.wheels == wheels
    {
      this.cabin, this.wings, this.wheels := cabin, wings, wheels;
    }
  }

  class Nest {
    const aircrafts: seq<Aircraft>
  }

  // ---------- What the heap holds ----------

  ghost function Objects<T>(s: seq<T>): set<T> {
    set x | x in s
  }

  ghost function Cabins(acs: seq<Aircraft>): (r: Slots<Cabin>)
    reads Objects(acs)`cabin
    ensures |r| == |acs| && forall i :: 0 <= i < |acs| ==> r[i] == acs[i].cabin
  {
    if acs == [] then [] else Cabins(acs[..|acs| - 1]) + [acs[|acs| - 1].cabin]
  }

  function WingRacks(acs: seq<Aircraft>): (r: seq<Rack<Wing>>)
    ensures |r| == |acs| && forall i :: 0 <= i < |acs| ==> r[i] == acs[i].wings
  {
    seq(|acs|, i requires 0 <= i < |acs| => acs[i].wings)
  }

  function WheelRacks(acs: seq<Aircraft>): (r: seq<Rack<Wheel>>)
    ensures |r| == |acs| && forall i :: 0 <= i < |acs| ==> r[i] == acs[i].wheels
  {
    seq(|acs|, i requires 0 <= i < |acs| => acs[i].wheels)
  }

  /** The contents of the slices, one row for each aircraft. */
  ghost function Rows<T>(racks: seq<Rack<T>>): (r: seq<Slots<T>>)
    reads Objects(racks)
    ensures |r| == |racks| && forall i :: 0 <= i < |racks| ==> r[i] == racks[i][..]
  {
    if racks == [] then [] else Rows(racks[..|racks| - 1]) + [racks[|racks| - 1][..]]
  }

  ghost function WingRows(acs: seq<Aircraft>): (r: seq<Slots<Wing>>)
    reads Objects(WingRacks(acs))
    ensures |r| == |acs| && forall i :: 0 <= i < |acs| ==> r[i] == acs[i].wings[..]
  {
    Rows(WingRacks(acs))
  }

  ghost function WheelRows(acs: seq<Aircraft>): (r: seq<Slots<Wheel>>)
    reads Objects(WheelRacks(acs))
    ensures |r| == |acs| && forall i :: 0 <= i < |acs| ==> r[i] == acs[i].wheels[..]
  {
    Rows(WheelRacks(acs))
  }

  /** All wing slots of the aircraft, in scan order. */
  ghost function Wings(acs: seq<Aircraft>): Slots<Wing>
    reads Objects(WingRacks(acs))
  {
    Flat(WingRows(acs))
  }

  ghost function Wheels(acs: seq<Aircraft>): Slots<Wheel>
    reads Objects(WheelRacks(acs))
  {
    Flat(WheelRows(acs))
  }

  lemma ApartFrom<T>(olds: seq<T>, news: seq<T>)
    requires Distinct(olds + news)
    ensures Distinct(olds) && Distinct(news)
    ensures forall i :: 0 <= i < |news| ==> news[i] !in olds
  {
    var both := olds + news;
    forall i, j | 0 <= i < |news| && 0 <= j < |olds| ensures news[i] != olds[j] {
      assert both[|olds| + i] == news[i] && both[j] == olds[j];
    }
    forall i, j | 0 <= i < j < |news| ensures news[i] != news[j] {
      assert both[|olds| + i] == news[i] && both[|olds| + j] == news[j];
    }
    forall i, j | 0 <= i < j < |olds| ensures olds[i] != olds[j] {
      assert both[i] == olds[i] && both[j] == olds[j];
    }
  }

  // ---------- Facts about rows ----------

  lemma {:induction false} RowsDistinct<T>(rows: seq<Slots<T>>, j: nat)
    requires DistinctParts(Flat(rows)) && j < |rows|
    ensures DistinctParts(rows[j])
  {
    var n := |rows| - 1;
    var front, last := Flat(rows[..n]), rows[n];
    assert Flat(rows) == front + last;
    if j < n {
      assert DistinctParts(front) by {
        forall a, b | 0 <= a < b < |front| && front[a].Some? ensures front[a] != front[b] {
          assert Flat(rows)[a] == front[a] && Flat(rows)[b] == front[b];
        }
      }
      RowsDistinct(rows[..n], j);
    } else {
      forall a, b | 0 <= a < b < |last| && last[a].Some? ensures last[a] != last[b] {
        assert Flat(rows)[|front| + a] == last[a] && Flat(rows)[|front| + b] == last[b];
      }
    }
  }

  lemma EmptiedIsDistinct<T>(all: Slots<T>, k: nat)
    requires DistinctParts(all) && k <= |all|
    ensures DistinctParts(Emptied(all, k))
  {
  }

  /** A row that holds `part` once loses it by clearing that one slot. */
  lemma RemovedOnce<T>(row: Slots<T>, part: Option<T>, i: nat)
    requires DistinctParts(row) && i < |row| && row[i] == part
    ensures Removed(row, part) == row[i := None]
  {
  }

  // ---------- Cabins ----------

  /** The search for the moved cabin: stop at the first aircraft that has it. */
  method ClearCabin(acs: seq<Aircraft>, part: Option<Cabin>)
    requires Distinct(acs) && DistinctParts(Cabins(acs))
    modifies Objects(acs)`cabin
    ensures Cabins(acs) == Removed(old(Cabins(acs)), part)
  {
    ghost var before := Cabins(acs);
    for a := 0 to |acs|
      invariant Cabins(acs) == before
      invariant forall j :: 0 <= j < a ==> before[j] != part
    {
      if acs[a].cabin == part {
        acs[a].cabin := None;
        RemovedOnce(before, part, a);
        assert Cabins(acs) == before[a := None];
        return;
      }
    }
    assert Removed(before, part) == before;
  }

  /** The new aircraft below a have their cabins; `queue` is what is left of `all`. */
  ghost predicate CabinStage(oldAcs: seq<Aircraft>, newAcs: seq<Aircraft>, a: nat, before: Slots<Cabin>,
                             all: Slots<Cabin>, k: nat, queue: Slots<Cabin>)
    reads Objects(oldAcs)`cabin, Objects(newAcs)`cabin
  {
    && Filling(before, a, all, 0, Cabins(newAcs), k)
    && queue == all[k..] && Cabins(oldAcs) == Emptied(all, k)
  }

  method FillCabin(oldAcs: seq<Aircraft>, newAcs: seq<Aircraft>, a: nat, queue: Slots<Cabin>,
                   ghost before: Slots<Cabin>, ghost all: Slots<Cabin>, ghost k: nat)
    returns (rest: Slots<Cabin>, ghost k': nat)
    requires Distinct(oldAcs + newAcs) && DistinctParts(all)
    requires a < |newAcs| && CabinStage(oldAcs, newAcs, a, before, all, k, queue)
    modifies {newAcs[a]}`cabin, Objects(oldAcs)`cabin
    ensures CabinStage(oldAcs, newAcs, a + 1, before, all, k', rest)
  {
    rest, k' := queue, k;
    ApartFrom(oldAcs, newAcs);
    ghost var now := Cabins(newAcs);
    FillingNext(before, a, all, 0, now, k);
    if newAcs[a].cabin == None && |queue| > 0 {
      var part := queue[0];
      newAcs[a].cabin := part;
      rest := queue[1..];
      k' := k + 1;
      assert Cabins(newAcs) == now[a := part];
      EmptiedIsDistinct(all, k);
      RemovedIsEmptied(all, k);
      ClearCabin(oldAcs, part);
    }
  }

  // ---------- Wings and wheels ----------

  // The code has one loop for wings and the same loop once more for wheels.

  /** One aircraft of the search for the moved part: `break` leaves only the inner loop. */
  method ClearRack<T(==)>(rack: Rack<T>, part: Option<T>)
    requires DistinctParts(rack[..])
    modifies rack
    ensures rack[..] == Removed(old(rack[..]), part)
  {
    ghost var before := rack[..];
    for i := 0 to rack.Length
      invariant rack[..] == before
      invariant forall j :: 0 <= j < i ==> before[j] != part
    {
      if rack[i] == part {
        RemovedOnce(before, part, i);
        rack[i] := None;
        assert rack[..] == before[i := None];
        return;
      }
    }
    assert Removed(before, part) == before;
  }

  method ClearPart<T(==)>(racks: seq<Rack<T>>, part: Option<T>)
    requires Distinct(racks) && DistinctParts(Flat(Rows(racks)))
    modifies Objects<Rack<T>>(racks)
    ensures Flat(Rows(racks)) == Removed(old(Flat(Rows(racks))), part)
  {
    ghost var before := Rows(racks);
    for a := 0 to |racks|
      invariant forall j :: 0 <= j < a ==> racks[j][..] == Removed(before[j], part)
      invariant forall j :: a <= j < |racks| ==> racks[j][..] == before[j]
    {
      RowsDistinct(before, a);
      ClearRack(racks[a], part);
    }
    RemovedFlat(before, part);
    assert Rows(racks) == seq(|before|, i requires 0 <= i < |before| => Removed(before[i], part));
  }

  /** One slot: if it is nil, take the next donor entry and clear it in the old nest. */
  method FillSlot<T(==)>(olds: seq<Rack<T>>, rack: Rack<T>, i: nat, queue: Slots<T>,
                         ghost all: Slots<T>, ghost k: nat)
    returns (rest: Slots<T>, ghost k': nat)
    requires Distinct(olds) && rack !in olds && DistinctParts(all) && k <= |all|
    requires i < rack.Length && queue == all[k..] && Flat(Rows(olds)) == Emptied(all, k)
    modifies rack, Objects<Rack<T>>(olds)
    ensures (rack[..], k') == FillOne(old(rack[..]), i, all, k)
    ensures k' <= |all| && rest == all[k'..] && Flat(Rows(olds)) == Emptied(all, k')
  {
    rest, k' := queue, k;
    if rack[i].None? && |queue| > 0 {
      var part := queue[0];
      rack[i] := part;
      rest := queue[1..];
      k' := k + 1;
      EmptiedIsDistinct(all, k);
      RemovedIsEmptied(all, k);
      ClearPart(olds, part);
    }
  }

  /** One aircraft's slots, from the first to the last. */
  method FillRack<T(==)>(olds: seq<Rack<T>>, rack: Rack<T>, queue: Slots<T>, ghost all: Slots<T>, ghost used: nat)
    returns (rest: Slots<T>, ghost k: nat)
    requires Distinct(olds) && rack !in olds && DistinctParts(all) && used <= |all|
    requires queue == all[used..] && Flat(Rows(olds)) == Emptied(all, used)
    modifies rack, Objects<Rack<T>>(olds)
    ensures rack[..] == Fill(old(rack[..]), all[used..])
    ensures k == used + Used(old(rack[..]), all[used..]) && rest == all[k..]
    ensures Flat(Rows(olds)) == Emptied(all, k)
  {
    rest, k := queue, used;
    ghost var before := rack[..];
    for i := 0 to rack.Length
      invariant Filling(before, i, all, used, rack[..], k)
      invariant rest == all[k..] && Flat(Rows(olds)) == Emptied(all, k)
    {
      FillingNext(before, i, all, used, rack[..], k);
      rest, k := FillSlot(olds, rack, i, rest, all, k);
    }
    FillingDone(before, all, used, rack[..], k);
  }

  /** The new aircraft below a have their parts; `queue` is what is left of `all`. */
  ghost predicate RackStage<T>(olds: seq<Rack<T>>, news: seq<Rack<T>>, a: nat, before: seq<Slots<T>>,
                               all: Slots<T>, k: nat, queue: Slots<T>)
    reads Objects(olds), Objects(news)
  {
    && FillingRows(before, a, all, Rows(news), k)
    && queue == all[k..] && Flat(Rows(olds)) == Emptied(all, k)
  }

  method RepairRack<T(==)>(olds: seq<Rack<T>>, news: seq<Rack<T>>, a: nat, queue: Slots<T>,
                           ghost before: seq<Slots<T>>, ghost all: Slots<T>, ghost k: nat)
    returns (rest: Slots<T>, ghost k': nat)
    requires Distinct(olds + news) && DistinctParts(all)
    requires a < |news| && RackStage(olds, news, a, before, all, k, queue)
    modifies news[a], Objects<Rack<T>>(olds)
    ensures RackStage(olds, news, a + 1, before, all, k', rest)
  {
    ApartFrom(olds, news);
    ghost var now := Rows(news);
    FillingRowsNext(before, a, all, now, k);
    rest, k' := FillRack(olds, news[a], queue, all, k);
    assert Rows(news) == now[a := Fill(before[a], all[k..])];
  }
}
