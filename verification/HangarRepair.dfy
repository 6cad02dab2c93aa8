/** `Repair` of airplane-hangar/main.go: the four stages put together, and what it guarantees. */
module HangarRepair {
  import opened Basics
  import opened Transplant
  import opened EngineMounts
  import opened Hangar

  // ---------- Positions in the scan ----------

  /** The slots scanned before slot i of row a are a prefix of all slots, and slot i is next. */
  lemma {:induction false} FlatAt<T>(rows: seq<Slots<T>>, a: nat, i: nat)
    requires a < |rows| && i <= |rows[a]|
    ensures var flat, n := Flat(rows), |Flat(rows[..a])| + i;
      && n <= |flat| && Flat(rows[..a]) + rows[a][..i] == flat[..n]
      && (i < |rows[a]| ==> n < |flat| && flat[n] == rows[a][i])
  {
    var last := |rows| - 1;
    assert Flat(rows) == Flat(rows[..last]) + rows[last];
    if a < last {
      assert rows[..last][..a] == rows[..a];
      FlatAt(rows[..last], a, i);
    }
  }

  lemma NextSlot<T>(flat: Slots<T>, n: nat)
    requires n < |flat|
    ensures flat[..n + 1] == flat[..n] + [flat[n]]
    ensures Parts(flat[..n]) <= Parts(flat)
    ensures flat[n].Some? ==> flat[n].value in Parts(flat)
    ensures flat[n].Some? && DistinctParts(flat) ==> flat[n].value !in Parts(flat[..n])
  {
    if flat[n].Some? {
      assert flat[n] in flat;
    }
  }

  lemma PartsConcat<T>(a: Slots<T>, b: Slots<T>)
    ensures Parts(a + b) == Parts(a) + Parts(b)
  {
  }

  lemma RowParts<T>(rows: seq<Slots<T>>, a: nat)
    requires a < |rows|
    ensures Parts(rows[a]) <= Parts(Flat(rows))
    ensures Parts(Flat(rows[..a + 1])) == Parts(Flat(rows[..a])) + Parts(rows[a])
  {
    hide Flat;
    assert rows[..a + 1] == rows[..a] + [rows[a]];
    FlatNext(rows[..a], rows[a]);
    forall w | w in Parts(rows[a]) ensures w in Parts(Flat(rows)) {
      var i :| 0 <= i < |rows[a]| && rows[a][i] == Some(w);
      FlatAt(rows, a, i);
    }
    PartsConcat(Flat(rows[..a]), rows[a]);
  }

  // ---------- Engines ----------

  ghost function EnginesOn(ws: set<Wing>): Engines<Wing, Engine>
    reads ws`engine
  {
    map w | w in ws :: w.engine
  }

  /** What a nest holds: a cabin slot for each aircraft, a row of wing slots and one of wheel slots. */
  datatype Holdings = Holdings(cabins: Slots<Cabin>, wings: seq<Slots<Wing>>, wheels: seq<Slots<Wheel>>)

  ghost function Held(acs: seq<Aircraft>): Holdings
    reads Objects(acs)`cabin, Objects(WingRacks(acs)), Objects(WheelRacks(acs))
  {
    Holdings(Cabins(acs), WingRows(acs), WheelRows(acs))
  }

  /** The slots determine what is held. */
  lemma HeldIs(acs: seq<Aircraft>, h: Holdings)
    requires |h.cabins| == |h.wings| == |h.wheels| == |acs|
    requires forall a :: 0 <= a < |acs| ==>
      acs[a].cabin == h.cabins[a] && acs[a].wings[..] == h.wings[a] && acs[a].wheels[..] == h.wheels[a]
    ensures Held(acs) == h
  {
    hide Rows, Cabins;
    assert Cabins(acs) == h.cabins && WingRows(acs) == h.wings && WheelRows(acs) == h.wheels;
  }

  /** `queue` holds the engines of the first n wing slots. */
  ghost predicate Collected<W, E>(flat: Slots<W>, n: nat, m: Engines<W, E>, queue: Slots<E>) {
    && n <= |flat| && Parts(flat) <= m.Keys
    && Parts(flat[..n]) <= m.Keys && queue == Somes(Mounts(flat[..n], m))
  }

  lemma CollectNext<W, E>(flat: Slots<W>, n: nat, m: Engines<W, E>, queue: Slots<E>)
    requires Collected(flat, n, m, queue) && n < |flat|
    ensures flat[n].Some? ==> flat[n].value in m
    ensures Collected(flat, n + 1, m,
                      if flat[n].Some? && m[flat[n].value].Some? then queue + [m[flat[n].value]] else queue)
  {
    NextSlot(flat, n);
    PartsNext(flat[..n], flat[n]);
    MountsNext(flat[..n], flat[n], m);
    var before := Mounts(flat[..n], m);
    if flat[n].Some? {
      var e := m[flat[n].value];
      assert (before + [e])[..|before|] == before;
    }
  }

  /** Row a ends where row a + 1 starts. */
  lemma RowEnd<T>(rows: seq<Slots<T>>, a: nat)
    requires a < |rows|
    ensures |Flat(rows[..a])| + |rows[a]| == |Flat(rows[..a + 1])|
  {
    assert rows[..a + 1] == rows[..a] + [rows[a]];
    FlatNext(rows[..a], rows[a]);
  }

  method CollectFrom(row: Slots<Wing>, before: Slots<Engine>, ghost rows: seq<Slots<Wing>>, ghost a: nat,
                     ghost m: Engines<Wing, Engine>)
    returns (queue: Slots<Engine>)
    requires a < |rows| && row == rows[a]
    requires m.Keys == Parts(Flat(rows)) && m == EnginesOn(m.Keys)
    requires Collected(Flat(rows), |Flat(rows[..a])|, m, before)
    ensures Collected(Flat(rows), |Flat(rows[..a + 1])|, m, queue)
  {
    hide Collected, Flat;
    queue := before;
    ghost var flat, n := Flat(rows), |Flat(rows[..a])|;
    for i := 0 to |row|
      invariant Collected(flat, n + i, m, queue)
    {
      FlatAt(rows, a, i);
      CollectNext(flat, n + i, m, queue);
      if row[i].Some? && row[i].value.engine.Some? {
        queue := queue + [row[i].value.engine];
      }
    }
    RowEnd(rows, a);
  }

  /** The engine queue: every engine on a wing the old nest still has. */
  method CollectEngines(acs: seq<Aircraft>) returns (queue: Slots<Engine>)
    ensures var ws := Wings(acs); queue == Somes(Mounts(ws, EnginesOn(Parts(ws))))
  {
    queue := [];
    ghost var rows := WingRows(acs);
    ghost var flat := Flat(rows);
    ghost var m := EnginesOn(Parts(flat));
    for a := 0 to |acs|
      invariant m == EnginesOn(m.Keys) && WingRows(acs) == rows
      invariant Collected(flat, |Flat(rows[..a])|, m, queue)
    {
      queue := CollectFrom(acs[a].wings[..], queue, rows, a, m);
    }
    assert rows[..|acs|] == rows && flat[..|flat|] == flat;
    assert Wings(acs) == flat;
    assert queue == Somes(Mounts(flat, m));
    assert EnginesOn(m.Keys) == m;
  }

  lemma ClearedTwice<W, E>(m: Engines<W, E>, a: set<W>, b: set<W>, part: Option<E>)
    ensures Cleared(Cleared(m, a, part), b, part) == Cleared(m, a + b, part)
  {
  }

  lemma ClearedApart<W, E>(m: Engines<W, E>, olds: set<W>, done: set<W>, row: set<W>, part: Option<E>)
    requires row <= olds <= m.Keys && Apart(olds, m)
    ensures Apart(row, Cleared(m, done, part))
  {
  }

  /** One aircraft of the search for the moved engine: `break` at the first wing that has it. */
  method ClearEngineOf(row: Slots<Wing>, part: Option<Engine>, ghost ws: set<Wing>)
    requires part.Some? && Parts(row) <= ws && Apart(Parts(row), EnginesOn(ws))
    modifies Parts<Wing>(row)`engine
    ensures EnginesOn(ws) == Cleared(old(EnginesOn(ws)), Parts(row), part)
  {
    ghost var m := EnginesOn(ws);
    for i := 0 to |row|
      invariant EnginesOn(ws) == m
      invariant forall j :: 0 <= j < i && row[j].Some? ==> row[j].value in m && m[row[j].value] != part
    {
      assert row[i] in row;
      if row[i].Some? && row[i].value.engine == part {
        assert row[i].value in Parts(row) && m[row[i].value] == part;
        row[i].value.engine := None;
        assert EnginesOn(ws) == Cleared(m, Parts(row), part);
        return;
      }
    }
    assert Cleared(m, Parts(row), part) == m;
  }

  method ClearEngine(acs: seq<Aircraft>, part: Option<Engine>, ghost ws: set<Wing>)
    requires part.Some? && Parts(Wings(acs)) <= ws && Apart(Parts(Wings(acs)), EnginesOn(ws))
    modifies Parts<Wing>(Wings(acs))`engine
    ensures EnginesOn(ws) == Cleared(old(EnginesOn(ws)), Parts(Wings(acs)), part)
    ensures WingRows(acs) == old(WingRows(acs))
  {
    ghost var rows, m, olds := WingRows(acs), EnginesOn(ws), Parts(Wings(acs));
    assert Cleared(m, {}, part) == m && Flat(rows[..0]) == [];
    hide Flat, Apart, Cleared, WingRows, EnginesOn;
    for a := 0 to |acs|
      invariant EnginesOn(ws) == Cleared(m, Parts(Flat(rows[..a])), part)
    {
      RowParts(rows, a);
      ClearedTwice(m, Parts(Flat(rows[..a])), Parts(rows[a]), part);
      ClearedApart(m, olds, Parts(Flat(rows[..a])), Parts(rows[a]), part);
      ClearEngineOf(acs[a].wings[..], part, ws);
    }
    assert rows[..|acs|] == rows;
    assert EnginesOn(ws) == Cleared(m, Parts(Flat(rows)), part);
    assert WingRows(acs) == rows;
  }

  /** One new wing. */
  method MountEngine(oldAcs: seq<Aircraft>, w: Wing, queue: Slots<Engine>,
                     ghost ws: set<Wing>, ghost all: Slots<Engine>, ghost k: nat)
    returns (rest: Slots<Engine>, ghost k': nat)
    requires w in ws && w !in Parts(Wings(oldAcs)) && Parts(Wings(oldAcs)) <= ws
    requires Apart(Parts(Wings(oldAcs)), EnginesOn(ws))
    requires k <= |all| && queue == all[k..] && NoNil(all)
    modifies {w}`engine, Parts<Wing>(Wings(oldAcs))`engine
    ensures (EnginesOn(ws), k') == MountOne(Some(w), old(EnginesOn(ws)), Parts(Wings(oldAcs)), all, k)
    ensures k' <= |all| && rest == all[k'..]
    ensures WingRows(oldAcs) == old(WingRows(oldAcs))
  {
    rest, k' := queue, k;
    if w.engine == None && |queue| > 0 {
      var part := queue[0];
      ghost var m := EnginesOn(ws);
      ghost var held := Held(oldAcs);
      w.engine := part;
      HeldIs(oldAcs, held);
      assert EnginesOn(ws) == m[w := part];
      rest := queue[1..];
      k' := k + 1;
      ClearEngine(oldAcs, part, ws);
    }
  }

  lemma StillApart<W, E>(done: Slots<W>, olds: set<W>, all: Slots<E>, m0: Engines<W, E>, m: Engines<W, E>, k: nat)
    requires Mounting(done, olds, all, m0, m, k) && Apart(olds, m0)
    ensures Apart(olds, m)
  {
  }

  /** Two nests with the wing slots `news` and `olds`, no wing in two of them. */
  ghost predicate Mountable<W, E>(news: Slots<W>, olds: set<W>, m0: Engines<W, E>) {
    DistinctParts(news) && Parts(news) !! olds && m0.Keys == Parts(news) + olds && Apart(olds, m0)
  }

  /** The first n slots of `news` have been served; `queue` is what is left of `all`. */
  ghost predicate MountStage<W, E>(news: Slots<W>, n: nat, olds: set<W>, all: Slots<E>, m0: Engines<W, E>,
                                   m: Engines<W, E>, k: nat, queue: Slots<E>) {
    n <= |news| && Mounting(news[..n], olds, all, m0, m, k) && queue == all[k..]
  }

  lemma MountStageNext<W, E>(news: Slots<W>, n: nat, olds: set<W>, all: Slots<E>, m0: Engines<W, E>,
                             m: Engines<W, E>, k: nat, queue: Slots<E>)
    requires Mountable(news, olds, m0) && n < |news|
    requires MountStage(news, n, olds, all, m0, m, k, queue)
    ensures k <= |all| && queue == all[k..] && m.Keys == m0.Keys && olds <= m.Keys && Apart(olds, m)
    ensures news[n].Some? ==> news[n].value in m0.Keys && news[n].value !in olds
    ensures var (m', k') := MountOne(news[n], m, olds, all, k);
      k' <= |all| && MountStage(news, n + 1, olds, all, m0, m', k', all[k'..])
  {
    NextSlot(news, n);
    MountingNext(news[..n], news[n], olds, all, m0, m, k);
    StillApart(news[..n], olds, all, m0, m, k);
  }

  lemma MountStageStart<W, E>(news: Slots<W>, olds: set<W>, all: Slots<E>, m0: Engines<W, E>)
    requires Mountable(news, olds, m0)
    ensures MountStage(news, 0, olds, all, m0, m0, 0, all)
  {
  }

  lemma MountStageDone<W, E>(news: Slots<W>, olds: set<W>, all: Slots<E>, m0: Engines<W, E>,
                             m: Engines<W, E>, k: nat, queue: Slots<E>)
    requires MountStage(news, |news|, olds, all, m0, m, k, queue)
    ensures Mounting(news, olds, all, m0, m, k)
  {
    assert news[..|news|] == news;
  }

  method MountAircraft(oldAcs: seq<Aircraft>, row: Slots<Wing>, queue: Slots<Engine>,
                       ghost rows: seq<Slots<Wing>>, ghost a: nat, ghost all: Slots<Engine>,
                       ghost m0: Engines<Wing, Engine>, ghost k: nat)
    returns (rest: Slots<Engine>, ghost k': nat)
    requires a < |rows| && row == rows[a] && NoNil(all)
    requires Mountable(Flat(rows), Parts(Wings(oldAcs)), m0)
    requires MountStage(Flat(rows), |Flat(rows[..a])|, Parts(Wings(oldAcs)), all, m0, EnginesOn(m0.Keys), k, queue)
    modifies m0.Keys`engine
    ensures WingRows(oldAcs) == old(WingRows(oldAcs))
    ensures MountStage(Flat(rows), |Flat(rows[..a + 1])|, Parts(Wings(oldAcs)), all, m0, EnginesOn(m0.Keys), k', rest)
  {
    hide Mountable, MountStage, Flat, Apart;
    rest, k' := queue, k;
    ghost var news, olds, n := Flat(rows), Parts(Wings(oldAcs)), |Flat(rows[..a])|;
    for i := 0 to |row|
      invariant WingRows(oldAcs) == old(WingRows(oldAcs))
      invariant MountStage(news, n + i, olds, all, m0, EnginesOn(m0.Keys), k', rest)
    {
      FlatAt(rows, a, i);
      MountStageNext(news, n + i, olds, all, m0, EnginesOn(m0.Keys), k', rest);
      if row[i].Some? {
        rest, k' := MountEngine(oldAcs, row[i].value, rest, m0.Keys, all, k');
      }
    }
    RowEnd(rows, a);
  }

  /** The engine stage: the wings stay where they are. */
  method RepairEngines(oldAcs: seq<Aircraft>, newAcs: seq<Aircraft>, queue: Slots<Engine>,
                       ghost m0: Engines<Wing, Engine>)
    returns (ghost k: nat)
    requires Mountable(Wings(newAcs), Parts(Wings(oldAcs)), m0) && NoNil(queue) && m0 == EnginesOn(m0.Keys)
    modifies m0.Keys`engine
    ensures Mounting(Wings(newAcs), Parts(Wings(oldAcs)), queue, m0, EnginesOn(m0.Keys), k)
  {
    hide Mountable, Mounting, MountStage, Apart, Flat, Parts, NoNil, WingRows, EnginesOn;
    k := 0;
    var rest := queue;
    ghost var rows, olds := WingRows(newAcs), Parts(Wings(oldAcs));
    ghost var news := Flat(rows);
    MountStageStart(news, olds, queue, m0);
    FlatNone(rows);
    for a := 0 to |newAcs|
      invariant WingRows(oldAcs) == old(WingRows(oldAcs)) && WingRows(newAcs) == rows
      invariant MountStage(news, |Flat(rows[..a])|, olds, queue, m0, EnginesOn(m0.Keys), k, rest)
    {
      rest, k := MountAircraft(oldAcs, newAcs[a].wings[..], rest, rows, a, queue, m0, k);
    }
    MountStageDone(news, olds, queue, m0, EnginesOn(m0.Keys), k, rest);
  }

  method MoveEngines(oldAcs: seq<Aircraft>, newAcs: seq<Aircraft>, ghost m0: Engines<Wing, Engine>)
    returns (ghost k: nat)
    requires Mountable(Wings(newAcs), Parts(Wings(oldAcs)), m0) && m0 == EnginesOn(m0.Keys)
    modifies m0.Keys`engine
    ensures Held(oldAcs) == old(Held(oldAcs)) && Held(newAcs) == old(Held(newAcs))
    ensures Mounting(Wings(newAcs), Parts(Wings(oldAcs)), Somes(Mounts(Wings(oldAcs), m0)),
                     m0, EnginesOn(m0.Keys), k)
  {
    hide Mounting, Flat, Apart, DistinctParts, Mounts, Rows, Cabins;
    ghost var olds, heldOld, heldNew := Wings(oldAcs), Held(oldAcs), Held(newAcs);
    var queue := CollectEngines(oldAcs);
    HeldIs(oldAcs, heldOld);
    HeldIs(newAcs, heldNew);
    assert EnginesOn(m0.Keys) == m0;
    MountsSame(olds, EnginesOn(Parts(olds)), m0);
    SomesIn(Mounts(olds, m0), None);
    k := RepairEngines(oldAcs, newAcs, queue, m0);
    HeldIs(oldAcs, heldOld);
    HeldIs(newAcs, heldNew);
  }

  // ---------- Cabins, wings and wheels ----------

  /** What one kind of part looks like after the move. */
  ghost predicate Moved<T>(news: Slots<T>, olds: Slots<T>, news': Slots<T>, olds': Slots<T>) {
    news' == Fill(news, olds) && olds' == Emptied(olds, Used(news, olds))
  }

  method CollectParts(acs: seq<Aircraft>)
    returns (cabins: Slots<Cabin>, wings: Slots<Wing>, wheels: Slots<Wheel>)
    ensures cabins == Cabins(acs) && wings == Wings(acs) && wheels == Wheels(acs)
  {
    cabins, wings, wheels := [], [], [];
    ghost var cs, ws, whs := Cabins(acs), WingRows(acs), WheelRows(acs);
    FlatNone(ws);
    FlatNone(whs);
    hide Flat, Cabins, WingRows, WheelRows;
    for a := 0 to |acs|
      invariant Cabins(acs) == cs && WingRows(acs) == ws && WheelRows(acs) == whs
      invariant cabins == cs[..a] && wings == Flat(ws[..a]) && wheels == Flat(whs[..a])
    {
      FlatStep(ws, a);
      FlatStep(whs, a);
      cabins := cabins + [acs[a].cabin];
      wings := Appended(wings, acs[a].wings);
      wheels := Appended(wheels, acs[a].wheels);
    }
  }

  lemma FlatNone<T>(rows: seq<Slots<T>>)
    ensures Flat(rows[..0]) == [] && rows[..|rows|] == rows
  {
  }

  lemma FlatStep<T>(rows: seq<Slots<T>>, a: nat)
    requires a < |rows|
    ensures Flat(rows[..a + 1]) == Flat(rows[..a]) + rows[a]
  {
    assert rows[..a + 1] == rows[..a] + [rows[a]];
    FlatNext(rows[..a], rows[a]);
  }

  /** The inner loops of the collection: append one slot after the other. */
  method Appended<T>(queue: Slots<T>, rack: Rack<T>) returns (r: Slots<T>)
    ensures r == queue + rack[..]
  {
    r := queue;
    for i := 0 to rack.Length
      invariant r == queue + rack[..i]
    {
      r := r + [rack[i]];
    }
    assert rack[..rack.Length] == rack[..];
  }

  /** One aircraft of the new nest: its cabin, then its wings, then its wheels. */
  method MoveInto(oldAcs: seq<Aircraft>, newAcs: seq<Aircraft>, a: nat,
                  cabins: Slots<Cabin>, wings: Slots<Wing>, wheels: Slots<Wheel>,
                  ghost cs0: Slots<Cabin>, ghost ws0: seq<Slots<Wing>>, ghost whs0: seq<Slots<Wheel>>,
                  ghost cs: Slots<Cabin>, ghost ws: Slots<Wing>, ghost whs: Slots<Wheel>,
                  ghost kc: nat, ghost kw: nat, ghost kh: nat)
    returns (cabins': Slots<Cabin>, wings': Slots<Wing>, wheels': Slots<Wheel>,
             ghost kc': nat, ghost kw': nat, ghost kh': nat)
    requires Separate(oldAcs, newAcs) && a < |newAcs|
    requires DistinctParts(cs) && DistinctParts(ws) && DistinctParts(whs)
    requires CabinStage(oldAcs, newAcs, a, cs0, cs, kc, cabins)
    requires RackStage(WingRacks(oldAcs), WingRacks(newAcs), a, ws0, ws, kw, wings)
    requires RackStage(WheelRacks(oldAcs), WheelRacks(newAcs), a, whs0, whs, kh, wheels)
    modifies Objects<Aircraft>(newAcs)`cabin, Objects<Aircraft>(oldAcs)`cabin
    modifies Objects<Rack<Wing>>(WingRacks(newAcs)), Objects<Rack<Wing>>(WingRacks(oldAcs))
    modifies Objects<Rack<Wheel>>(WheelRacks(newAcs)), Objects<Rack<Wheel>>(WheelRacks(oldAcs))
    ensures CabinStage(oldAcs, newAcs, a + 1, cs0, cs, kc', cabins')
    ensures RackStage(WingRacks(oldAcs), WingRacks(newAcs), a + 1, ws0, ws, kw', wings')
    ensures RackStage(WheelRacks(oldAcs), WheelRacks(newAcs), a + 1, whs0, whs, kh', wheels')
  {
    hide Distinct, DistinctParts, CabinStage, RackStage, WingRacks, WheelRacks;
    cabins', kc' := FillCabin(oldAcs, newAcs, a, cabins, cs0, cs, kc);
    wings', kw' := RepairRack(WingRacks(oldAcs), WingRacks(newAcs), a, wings, ws0, ws, kw);
    wheels', kh' := RepairRack(WheelRacks(oldAcs), WheelRacks(newAcs), a, wheels, whs0, whs, kh);
  }

  /** No aircraft is in the nests twice, and no two slices share an array. */
  ghost predicate Separate(oldAcs: seq<Aircraft>, newAcs: seq<Aircraft>) {
    && Distinct(oldAcs + newAcs)
    && Distinct(WingRacks(oldAcs) + WingRacks(newAcs))
    && Distinct(WheelRacks(oldAcs) + WheelRacks(newAcs))
  }

  method MoveParts(oldAcs: seq<Aircraft>, newAcs: seq<Aircraft>)
    requires Separate(oldAcs, newAcs)
    requires DistinctParts(Cabins(oldAcs)) && DistinctParts(Wings(oldAcs)) && DistinctParts(Wheels(oldAcs))
    modifies Objects<Aircraft>(newAcs)`cabin, Objects<Aircraft>(oldAcs)`cabin
    modifies Objects<Rack<Wing>>(WingRacks(newAcs)), Objects<Rack<Wing>>(WingRacks(oldAcs))
    modifies Objects<Rack<Wheel>>(WheelRacks(newAcs)), Objects<Rack<Wheel>>(WheelRacks(oldAcs))
    ensures Moved(old(Cabins(newAcs)), old(Cabins(oldAcs)), Cabins(newAcs), Cabins(oldAcs))
    ensures Moved(old(Wings(newAcs)), old(Wings(oldAcs)), Wings(newAcs), Wings(oldAcs))
    ensures Moved(old(Wheels(newAcs)), old(Wheels(oldAcs)), Wheels(newAcs), Wheels(oldAcs))
  {
    hide Separate, DistinctParts, Flat, Fill, Used, Emptied, Cabins, Rows, WingRacks, WheelRacks;
    ghost var cs, ws, whs := Cabins(oldAcs), Wings(oldAcs), Wheels(oldAcs);
    ghost var cs0, ws0, whs0 := Cabins(newAcs), WingRows(newAcs), WheelRows(newAcs);
    ghost var kc, kw, kh := 0, 0, 0;
    var cabins, wings, wheels := CollectParts(oldAcs);
    assert Cabins(oldAcs) == cs && Cabins(newAcs) == cs0;
    assert WingRows(oldAcs) == old(WingRows(oldAcs)) && WingRows(newAcs) == ws0;
    assert WheelRows(oldAcs) == old(WheelRows(oldAcs)) && WheelRows(newAcs) == whs0;
    MoveStart(cs0, ws0, whs0, cs, ws, whs);
    for a := 0 to |newAcs|
      invariant CabinStage(oldAcs, newAcs, a, cs0, cs, kc, cabins)
      invariant RackStage(WingRacks(oldAcs), WingRacks(newAcs), a, ws0, ws, kw, wings)
      invariant RackStage(WheelRacks(oldAcs), WheelRacks(newAcs), a, whs0, whs, kh, wheels)
    {
      hide CabinStage, RackStage;
      cabins, wings, wheels, kc, kw, kh :=
        MoveInto(oldAcs, newAcs, a, cabins, wings, wheels, cs0, ws0, whs0, cs, ws, whs, kc, kw, kh);
    }
    AllFilled(cs0, cs, Cabins(newAcs), kc);
    FillingRowsDone(ws0, ws, WingRows(newAcs), kw);
    FillingRowsDone(whs0, whs, WheelRows(newAcs), kh);
  }

  lemma AllFilled<T>(before: Slots<T>, all: Slots<T>, now: Slots<T>, k: nat)
    requires Filling(before, |before|, all, 0, now, k)
    ensures now == Fill(before, all) && k == Used(before, all)
  {
    FillingDone(before, all, 0, now, k);
    assert all[0..] == all;
  }

  lemma MoveStart<C, W, H>(cs0: Slots<C>, ws0: seq<Slots<W>>, whs0: seq<Slots<H>>,
                           cs: Slots<C>, ws: Slots<W>, whs: Slots<H>)
    ensures Filling(cs0, 0, cs, 0, cs0, 0) && Emptied(cs, 0) == cs
    ensures FillingRows(ws0, 0, ws, ws0, 0) && Emptied(ws, 0) == ws
    ensures FillingRows(whs0, 0, whs, whs0, 0) && Emptied(whs, 0) == whs
  {
    assert cs0[..0] == [];
    assert ws0[..0] == [] && whs0[..0] == [];
  }

  ghost predicate SameShape<T>(rows: seq<Slots<T>>, rows': seq<Slots<T>>) {
    |rows'| == |rows| && forall a :: 0 <= a < |rows| ==> |rows'[a]| == |rows[a]|
  }

  /** All three kinds of parts, and no slice is longer or shorter than before. */
  ghost predicate AllMoved(news: Holdings, olds: Holdings, news': Holdings, olds': Holdings) {
    && Moved(news.cabins, olds.cabins, news'.cabins, olds'.cabins)
    && Moved(Flat(news.wings), Flat(olds.wings), Flat(news'.wings), Flat(olds'.wings))
    && Moved(Flat(news.wheels), Flat(olds.wheels), Flat(news'.wheels), Flat(olds'.wheels))
    && SameShape(news.wings, news'.wings) && SameShape(olds.wings, olds'.wings)
    && SameShape(news.wheels, news'.wheels) && SameShape(olds.wheels, olds'.wheels)
  }

  /** As many rows as aircraft, as long as their slices. */
  ghost predicate Fits(acs: seq<Aircraft>, h: Holdings) {
    && |h.wings| == |h.wheels| == |acs|
    && forall a :: 0 <= a < |acs| ==> |h.wings[a]| == acs[a].wings.Length && |h.wheels[a]| == acs[a].wheels.Length
  }

  lemma HeldFits(acs: seq<Aircraft>)
    ensures Fits(acs, Held(acs))
  {
    hide Rows, Cabins;
  }

  lemma FitsKeepShape(acs: seq<Aircraft>, h: Holdings, h': Holdings)
    requires Fits(acs, h) && Fits(acs, h')
    ensures SameShape(h.wings, h'.wings) && SameShape(h.wheels, h'.wheels)
  {
  }

  method MoveAllParts(oldAcs: seq<Aircraft>, newAcs: seq<Aircraft>)
    requires Separate(oldAcs, newAcs)
    requires DistinctParts(Cabins(oldAcs)) && DistinctParts(Wings(oldAcs)) && DistinctParts(Wheels(oldAcs))
    modifies Objects<Aircraft>(newAcs)`cabin, Objects<Aircraft>(oldAcs)`cabin
    modifies Objects<Rack<Wing>>(WingRacks(newAcs)), Objects<Rack<Wing>>(WingRacks(oldAcs))
    modifies Objects<Rack<Wheel>>(WheelRacks(newAcs)), Objects<Rack<Wheel>>(WheelRacks(oldAcs))
    ensures AllMoved(old(Held(newAcs)), old(Held(oldAcs)), Held(newAcs), Held(oldAcs))
  {
    hide Separate, DistinctParts, Moved, Fits, SameShape, Objects, Flat, Cabins, Rows, WingRacks, WheelRacks;
    ghost var heldNew, heldOld := Held(newAcs), Held(oldAcs);
    HeldFits(newAcs);
    HeldFits(oldAcs);
    MoveParts(oldAcs, newAcs);
    HeldFits(newAcs);
    HeldFits(oldAcs);
    FitsKeepShape(newAcs, heldNew, Held(newAcs));
    FitsKeepShape(oldAcs, heldOld, Held(oldAcs));
  }

  // ---------- Repair ----------

  lemma DonorsDistinct<T>(news: Slots<T>, olds: Slots<T>)
    requires DistinctParts(news + olds)
    ensures DistinctParts(news) && DistinctParts(olds) && Parts(news) !! Parts(olds)
    ensures Parts(news + olds) == Parts(news) + Parts(olds)
  {
    var both := news + olds;
    forall i, j | 0 <= i < |news| && 0 <= j < |olds| && news[i].Some? ensures news[i] != olds[j] {
      assert both[i] == news[i] && both[|news| + j] == olds[j];
    }
    forall i, j | 0 <= i < j < |news| && news[i].Some? ensures news[i] != news[j] {
      assert both[i] == news[i] && both[j] == news[j];
    }
    forall i, j | 0 <= i < j < |olds| && olds[i].Some? ensures olds[i] != olds[j] {
      assert both[|news| + i] == olds[i] && both[|news| + j] == olds[j];
    }
  }

  /** After the move the wings are still all there and in one slot each. */
  lemma MovedWings<W, E>(news: Slots<W>, olds: Slots<W>, news': Slots<W>, olds': Slots<W>, m: Engines<W, E>)
    requires DistinctParts(news + olds) && Moved(news, olds, news', olds')
    requires m.Keys == Parts(news + olds) && Apart(m.Keys, m)
    ensures DistinctParts(news' + olds') && Parts(news' + olds') == Parts(news + olds)
    ensures Mountable(news', Parts(olds'), m)
  {
    NoDoubles(news, olds);
    forall w ensures w in Parts(news' + olds') <==> w in Parts(news + olds) {
      SameParts(news, olds, w);
      assert w in Parts(news' + olds') <==> Some(w) in news' + olds';
      assert w in Parts(news + olds) <==> Some(w) in news + olds;
    }
    DonorsDistinct(news', olds');
  }

  /** In how many slots of the two nests a part sits. */
  ghost function Sits<T>(news: Slots<T>, olds: Slots<T>, part: T): nat {
    Count(news, part) + Count(olds, part)
  }

  /** What the move of one kind of part keeps and achieves: no part in two slots, filled slots
      untouched, and nothing missing or nothing left exactly if no nil entry was used up before
      a usable one. */
  ghost predicate MovedWell<T>(news: Slots<T>, olds: Slots<T>, news': Slots<T>, olds': Slots<T>) {
    && |news'| == |news| && |olds'| == |olds| && DistinctParts(news' + olds')
    && (forall i :: 0 <= i < |news| && news[i].Some? ==> news'[i] == news[i])
    && (var k := Used(news, olds); Maximal(news', olds') <==> NoNil(olds[..k]) || AllNil(olds[k..]))
  }

  lemma MoveIsWell<T>(news: Slots<T>, olds: Slots<T>, news': Slots<T>, olds': Slots<T>)
    requires Moved(news, olds, news', olds') && DistinctParts(news + olds)
    ensures MovedWell(news, olds, news', olds')
    ensures forall part :: Sits(news', olds', part) == Sits(news, olds, part)
  {
    hide Fill, Used, Emptied, Count, DistinctParts, Maximal, NoNil, AllNil;
    NoDoubles(news, olds);
    TransplantIsMaximal(news, olds);
    forall i | 0 <= i < |news| && news[i].Some? ensures news'[i] == news[i] {
      FillAt(news, olds, i);
    }
    forall part ensures Sits(news', olds', part) == Sits(news, olds, part) {
      TransplantConserves(news, olds, part);
    }
  }

  /** Aircraft by aircraft and slot by slot: every new slot that was filled keeps its part, and
      every old slot keeps its part or is nil. */
  ghost predicate SlotsKept<T>(news: seq<Slots<T>>, olds: seq<Slots<T>>, news': seq<Slots<T>>, olds': seq<Slots<T>>) {
    && SameShape(news, news') && SameShape(olds, olds')
    && (forall a, i :: 0 <= a < |news| && 0 <= i < |news[a]| ==>
          news[a][i].Some? ==> news'[a][i] == news[a][i])
    && forall a, i :: 0 <= a < |olds| && 0 <= i < |olds[a]| ==>
         olds'[a][i] == olds[a][i] || olds'[a][i].None?
  }

  lemma {:induction false} SameOffset<T>(rows: seq<Slots<T>>, rows': seq<Slots<T>>, a: nat)
    requires SameShape(rows, rows') && a <= |rows|
    ensures |Flat(rows[..a])| == |Flat(rows'[..a])|
  {
    if a > 0 {
      SameOffset(rows, rows', a - 1);
      RowEnd(rows, a - 1);
      RowEnd(rows', a - 1);
    } else {
      assert rows[..0] == rows'[..0];
    }
  }

  /** A slot stands at the same place in both scans. */
  lemma SamePlace<T>(rows: seq<Slots<T>>, rows': seq<Slots<T>>, a: nat, i: nat) returns (n: nat)
    requires SameShape(rows, rows') && a < |rows| && i < |rows[a]|
    ensures n < |Flat(rows)| && Flat(rows)[n] == rows[a][i]
    ensures n < |Flat(rows')| && Flat(rows')[n] == rows'[a][i]
  {
    SameOffset(rows, rows', a);
    FlatAt(rows, a, i);
    FlatAt(rows', a, i);
    n := |Flat(rows[..a])| + i;
  }

  lemma MoveKeepsSlots<T>(news: seq<Slots<T>>, olds: seq<Slots<T>>, news': seq<Slots<T>>, olds': seq<Slots<T>>)
    requires SameShape(news, news') && SameShape(olds, olds')
    requires Moved(Flat(news), Flat(olds), Flat(news'), Flat(olds'))
    ensures SlotsKept(news, olds, news', olds')
  {
    hide Flat, Fill, Used;
    forall a, i | 0 <= a < |news| && 0 <= i < |news[a]| && news[a][i].Some? ensures news'[a][i] == news[a][i] {
      var n := SamePlace(news, news', a, i);
      FillAt(Flat(news), Flat(olds), n);
    }
    forall a, i | 0 <= a < |olds| && 0 <= i < |olds[a]|
      ensures olds'[a][i] == olds[a][i] || olds'[a][i].None?
    {
      var n := SamePlace(olds, olds', a, i);
    }
  }

  /** How often an engine is mounted in the two nests together. */
  ghost function Mounted<W, E>(news: Slots<W>, olds: Slots<W>, m: Engines<W, E>, part: E): nat
    requires Parts(news) <= m.Keys && Parts(olds) <= m.Keys
  {
    Count(Mounts(news, m), part) + Count(Mounts(olds, m), part)
  }

  /** The k-th present new wing without an engine has got the k-th engine of the wings left in
      the old nest, which lost exactly those; wings that had one keep it; and no engine is left
      on an old wing unless every present new wing has one. */
  ghost predicate EnginesRepaired<W, E>(news: Slots<W>, olds: Slots<W>, m: Engines<W, E>,
                                        news': Slots<W>, olds': Slots<W>, m': Engines<W, E>) {
    && Parts(news) <= m.Keys == m'.Keys && Parts(olds) <= m.Keys && Parts(news') <= m.Keys && Parts(olds') <= m.Keys
    && (var all, k := Somes(Mounts(olds', m)), Used(Mounts(news', m), Somes(Mounts(olds', m)));
        && Mounts(news', m') == Fill(Mounts(news', m), all)
        && forall w :: w in Parts(olds') ==> m'[w] == if m[w] in all[..k] then None else m[w])
    && (forall w :: w in Parts(news') && m[w].Some? ==> m'[w] == m[w])
    && Maximal(Mounts(news', m'), Mounts(olds', m'))
  }

  lemma {:induction false} MountedKeeps<W, E>(news: Slots<W>, n: nat, all: Slots<E>, m0: Engines<W, E>,
                                              m: Engines<W, E>, w: W)
    requires n <= |news| && Parts(news[..n]) <= m0.Keys == m.Keys
    requires Mounts(news[..n], m) == Fill(Mounts(news[..n], m0), all)
    requires w in Parts(news[..n]) && m0[w].Some?
    ensures m[w] == m0[w]
  {
    if n > 0 {
      var prev, slot := news[..n - 1], news[n - 1];
      assert news[..n] == prev + [slot];
      PartsNext(prev, slot);
      MountsNext(prev, slot, m0);
      MountsNext(prev, slot, m);
      if slot.Some? {
        var x, y := m[slot.value], m0[slot.value];
        FillPush(Mounts(prev, m0), y, all);
        SameFront(Mounts(prev, m), x, Fill(Mounts(prev, m0), all), Fill(Mounts(prev, m0) + [y], all));
      }
      if w in Parts(prev) {
        MountedKeeps(news, n - 1, all, m0, m, w);
      }
    }
  }

  lemma SameFront<T>(a: seq<T>, x: T, b: seq<T>, c: seq<T>)
    requires a + [x] == c && |c| == |b| + 1 && c[..|b|] == b
    ensures a == b && x == c[|b|]
  {
    assert (a + [x])[..|a|] == a;
  }

  lemma EnginesAreRepaired<W, E>(news: Slots<W>, olds: Slots<W>, news': Slots<W>, olds': Slots<W>,
                                 m: Engines<W, E>, m': Engines<W, E>, k: nat)
    requires DistinctParts(news + olds) && Moved(news, olds, news', olds')
    requires m.Keys == Parts(news + olds) && Apart(m.Keys, m)
    requires Parts(olds') <= m.Keys && Mounting(news', Parts(olds'), Somes(Mounts(olds', m)), m, m', k)
    ensures EnginesRepaired(news, olds, m, news', olds', m')
    ensures forall e :: Mounted(news', olds', m', e) == Mounted(news, olds, m, e)
  {
    hide Moved, Apart, DistinctParts, Maximal, Fill, Used;
    MovedWings(news, olds, news', olds', m);
    EnginesMaximal(news', olds', m, m', k);
    DonorsDistinct(news, olds);
    DonorsDistinct(news', olds');
    OldsApart(Parts(olds'), m);
    MountsDistinct(olds', m);
    forall e ensures Mounted(news', olds', m', e) == Mounted(news, olds, m, e) {
      EnginesConserved(news', olds', m, m', k, e);
      EnginesRide(news, olds, news', olds', m, e);
    }
    forall w | w in Parts(news') && m[w].Some? ensures m'[w] == m[w] {
      MountedKept(news', Parts(olds'), Somes(Mounts(olds', m)), m, m', k, w);
    }
  }

  lemma MountedKept<W, E>(news: Slots<W>, olds: set<W>, all: Slots<E>, m0: Engines<W, E>,
                          m: Engines<W, E>, k: nat, w: W)
    requires Mounting(news, olds, all, m0, m, k)
    requires w in Parts(news) && m0[w].Some?
    ensures w in m && m[w] == m0[w]
  {
    assert news[..|news|] == news;
    MountedKeeps(news, |news|, all, m0, m, w);
  }

  lemma OldsApart<W, E>(olds: set<W>, m: Engines<W, E>)
    requires olds <= m.Keys && Apart(m.Keys, m)
    ensures Apart(olds, m)
  {
  }

  /** Everything the repair does to one kind of part that sits directly in the aircraft. */
  ghost predicate Repaired<T>(news: Slots<T>, olds: Slots<T>, news': Slots<T>, olds': Slots<T>) {
    Moved(news, olds, news', olds') && MovedWell(news, olds, news', olds')
  }

  /** And to one kind of part that sits in slices: the same, without mixing up the aircraft. */
  ghost predicate RowsRepaired<T>(news: seq<Slots<T>>, olds: seq<Slots<T>>,
                                  news': seq<Slots<T>>, olds': seq<Slots<T>>) {
    Repaired(Flat(news), Flat(olds), Flat(news'), Flat(olds')) && SlotsKept(news, olds, news', olds')
  }

  lemma PartsAreRepaired<T>(news: Slots<T>, olds: Slots<T>, news': Slots<T>, olds': Slots<T>)
    requires Moved(news, olds, news', olds') && DistinctParts(news + olds)
    ensures Repaired(news, olds, news', olds')
    ensures forall part :: Sits(news', olds', part) == Sits(news, olds, part)
  {
    MoveIsWell(news, olds, news', olds');
  }

  lemma RowsAreRepaired<T>(news: seq<Slots<T>>, olds: seq<Slots<T>>, news': seq<Slots<T>>, olds': seq<Slots<T>>)
    requires SameShape(news, news') && SameShape(olds, olds') && DistinctParts(Flat(news) + Flat(olds))
    requires Moved(Flat(news), Flat(olds), Flat(news'), Flat(olds'))
    ensures RowsRepaired(news, olds, news', olds')
    ensures forall part :: Sits(Flat(news'), Flat(olds'), part) == Sits(Flat(news), Flat(olds), part)
  {
    hide Flat, Moved, MovedWell, SlotsKept, DistinctParts;
    MoveIsWell(Flat(news), Flat(olds), Flat(news'), Flat(olds'));
    MoveKeepsSlots(news, olds, news', olds');
  }

  /** The whole repair: what the two nests hold before and after, and the wings' engines. */
  ghost predicate AllRepaired(news: Holdings, olds: Holdings, m: Engines<Wing, Engine>,
                              news': Holdings, olds': Holdings, m': Engines<Wing, Engine>) {
    && Repaired(news.cabins, olds.cabins, news'.cabins, olds'.cabins)
    && RowsRepaired(news.wings, olds.wings, news'.wings, olds'.wings)
    && RowsRepaired(news.wheels, olds.wheels, news'.wheels, olds'.wheels)
    && EnginesRepaired(Flat(news.wings), Flat(olds.wings), m, Flat(news'.wings), Flat(olds'.wings), m')
  }

  /** Parts of both nests are pairwise distinct, and no two wings carry the same engine. */
  ghost predicate ProperParts(news: Holdings, olds: Holdings, m: Engines<Wing, Engine>) {
    && DistinctParts(news.cabins + olds.cabins)
    && DistinctParts(Flat(news.wings) + Flat(olds.wings))
    && DistinctParts(Flat(news.wheels) + Flat(olds.wheels))
    && m.Keys == Parts(Flat(news.wings) + Flat(olds.wings)) && Apart(m.Keys, m)
  }

  lemma AllAreRepaired(news: Holdings, olds: Holdings, m: Engines<Wing, Engine>,
                       news': Holdings, olds': Holdings, m': Engines<Wing, Engine>, k: nat)
    requires ProperParts(news, olds, m) && AllMoved(news, olds, news', olds')
    requires Parts(Flat(olds'.wings)) <= m.Keys
    requires Mounting(Flat(news'.wings), Parts(Flat(olds'.wings)), Somes(Mounts(Flat(olds'.wings), m)), m, m', k)
    ensures AllRepaired(news, olds, m, news', olds', m')
    ensures forall c: Cabin :: Sits(news'.cabins, olds'.cabins, c) == Sits(news.cabins, olds.cabins, c)
    ensures forall w: Wing ::
              Sits(Flat(news'.wings), Flat(olds'.wings), w) == Sits(Flat(news.wings), Flat(olds.wings), w)
    ensures forall w: Wheel ::
              Sits(Flat(news'.wheels), Flat(olds'.wheels), w) == Sits(Flat(news.wheels), Flat(olds.wheels), w)
    ensures forall e: Engine :: Mounted(Flat(news'.wings), Flat(olds'.wings), m', e)
                             == Mounted(Flat(news.wings), Flat(olds.wings), m, e)
  {
    hide Flat, Moved, Repaired, RowsRepaired, EnginesRepaired, DistinctParts, Apart, Sits, Mounted, SameShape;
    EnginesAreRepaired(Flat(news.wings), Flat(olds.wings), Flat(news'.wings), Flat(olds'.wings), m, m', k);
    PartsAreRepaired(news.cabins, olds.cabins, news'.cabins, olds'.cabins);
    RowsAreRepaired(news.wings, olds.wings, news'.wings, olds'.wings);
    RowsAreRepaired(news.wheels, olds.wheels, news'.wheels, olds'.wheels);
  }

  lemma DonorsProper(news: Holdings, olds: Holdings, m: Engines<Wing, Engine>)
    requires ProperParts(news, olds, m)
    ensures DistinctParts(olds.cabins) && DistinctParts(Flat(olds.wings)) && DistinctParts(Flat(olds.wheels))
  {
    hide Flat, DistinctParts, Apart;
    DonorsDistinct(news.cabins, olds.cabins);
    DonorsDistinct(Flat(news.wings), Flat(olds.wings));
    DonorsDistinct(Flat(news.wheels), Flat(olds.wheels));
  }

  lemma WingsAfterMove(news: Holdings, olds: Holdings, news': Holdings, olds': Holdings, m: Engines<Wing, Engine>)
    requires ProperParts(news, olds, m) && AllMoved(news, olds, news', olds')
    ensures Mountable(Flat(news'.wings), Parts(Flat(olds'.wings)), m) && Parts(Flat(olds'.wings)) <= m.Keys
  {
    hide Flat, Moved, DistinctParts, Apart;
    MovedWings(Flat(news.wings), Flat(olds.wings), Flat(news'.wings), Flat(olds'.wings), m);
    DonorsDistinct(Flat(news'.wings), Flat(olds'.wings));
  }

  ghost function AllWings(oldAcs: seq<Aircraft>, newAcs: seq<Aircraft>): set<Wing>
    reads Objects(WingRacks(oldAcs)), Objects(WingRacks(newAcs))
  {
    Parts(Wings(newAcs) + Wings(oldAcs))
  }

  /** Two nests that share no aircraft, no slice, no wing and no engine, with every part in one slot. */
  ghost predicate Proper(oldAcs: seq<Aircraft>, newAcs: seq<Aircraft>)
    reads Objects(oldAcs)`cabin, Objects(newAcs)`cabin
    reads Objects(WingRacks(oldAcs)), Objects(WingRacks(newAcs))
    reads Objects(WheelRacks(oldAcs)), Objects(WheelRacks(newAcs))
    reads AllWings(oldAcs, newAcs)`engine
  {
    Separate(oldAcs, newAcs) && ProperParts(Held(newAcs), Held(oldAcs), EnginesOn(AllWings(oldAcs, newAcs)))
  }

  method Repair(oldNest: Nest, newNest: Nest)
    requires Proper(oldNest.aircrafts, newNest.aircrafts)
    modifies Objects<Aircraft>(newNest.aircrafts)`cabin, Objects<Aircraft>(oldNest.aircrafts)`cabin
    modifies Objects<Rack<Wing>>(WingRacks(newNest.aircrafts)), Objects<Rack<Wing>>(WingRacks(oldNest.aircrafts))
    modifies Objects<Rack<Wheel>>(WheelRacks(newNest.aircrafts)), Objects<Rack<Wheel>>(WheelRacks(oldNest.aircrafts))
    modifies AllWings(oldNest.aircrafts, newNest.aircrafts)`engine
    ensures var (news, olds) := old((Held(newNest.aircrafts), Held(oldNest.aircrafts)));
      var (news', olds') := (Held(newNest.aircrafts), Held(oldNest.aircrafts));
      var m := old(EnginesOn(AllWings(oldNest.aircrafts, newNest.aircrafts)));
      var m' := EnginesOn(old(AllWings(oldNest.aircrafts, newNest.aircrafts)));
      && AllRepaired(news, olds, m, news', olds', m')
      && (forall c: Cabin :: Sits(news'.cabins, olds'.cabins, c) == Sits(news.cabins, olds.cabins, c))
      && (forall w: Wing ::
            Sits(Flat(news'.wings), Flat(olds'.wings), w) == Sits(Flat(news.wings), Flat(olds.wings), w))
      && (forall w: Wheel ::
            Sits(Flat(news'.wheels), Flat(olds'.wheels), w) == Sits(Flat(news.wheels), Flat(olds.wheels), w))
      && (forall e: Engine :: Mounted(Flat(news'.wings), Flat(olds'.wings), m', e)
                           == Mounted(Flat(news.wings), Flat(olds.wings), m, e))
  {
    hide AllRepaired, AllMoved, ProperParts, Separate, Mounting, Mountable, DistinctParts;
    hide Flat, Parts, Objects, Cabins, Rows, WingRacks, WheelRacks, Sits, Mounted;
    var olds, news := oldNest.aircrafts, newNest.aircrafts;
    ghost var ws := AllWings(olds, news);
    ghost var m := EnginesOn(ws);
    ghost var heldNew, heldOld := Held(news), Held(olds);
    assert m.Keys == ws;
    DonorsProper(heldNew, heldOld, m);
    MoveAllParts(olds, news);
    assert EnginesOn(ws) == m;
    WingsAfterMove(heldNew, heldOld, Held(news), Held(olds), m);
    ghost var k := MoveEngines(olds, news, m);
    AllAreRepaired(heldNew, heldOld, m, Held(news), Held(olds), EnginesOn(ws), k);
  }
}
