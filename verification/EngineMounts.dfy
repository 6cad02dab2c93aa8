/** Engines on wings: `Repair`'s second stage on values. A wing keeps its place while its
    engine changes, so the engines are a map from wing to engine. airplane-hangar/main.go:83-120. */
module EngineMounts {
  import opened Basics
  import opened Transplant

  type Engines<!W, E> = map<W, Option<E>>

  function Parts<W>(ws: Slots<W>): set<W> {
    set s | s in ws && s.Some? :: s.value
  }

  /** The engine slots of the wings that are present, in scan order. */
  function Mounts<W, E>(ws: Slots<W>, m: Engines<W, E>): Slots<E>
    requires Parts(ws) <= m.Keys
  {
    if ws == [] then []
    else
      var n := |ws| - 1;
      assert forall w :: w in Parts(ws[..n]) ==> Some(w) in ws;
      if ws[n].None? then Mounts(ws[..n], m)
      else assert ws[n] in ws; Mounts(ws[..n], m) + [m[ws[n].value]]
  }

  /** The engines that are there. */
  function Somes<E>(slots: Slots<E>): Slots<E> {
    if slots == [] then []
    else Somes(slots[..|slots| - 1]) + if slots[|slots| - 1].Some? then [slots[|slots| - 1]] else []
  }

  ghost predicate Apart<W, E>(ws: set<W>, m: Engines<W, E>)
    requires ws <= m.Keys
  {
    forall v, w :: v in ws && w in ws && v != w && m[v].Some? ==> m[v] != m[w]
  }

  /** Every wing of `olds` that holds `part` loses it. */
  function Cleared<W, E(==)>(m: Engines<W, E>, olds: set<W>, part: Option<E>): Engines<W, E> {
    map w | w in m :: if w in olds && m[w] == part then None else m[w]
  }

  /** One new wing: if its engine is nil, it takes the next of `all`, which is cleared in the old nest. */
  function MountOne<W, E(==)>(slot: Option<W>, m: Engines<W, E>, olds: set<W>, all: Slots<E>, k: nat)
    : (Engines<W, E>, nat)
    requires slot.Some? ==> slot.value in m
  {
    if slot.Some? && m[slot.value].None? && k < |all|
    then (Cleared(m[slot.value := all[k]], olds, all[k]), k + 1)
    else (m, k)
  }

  /** The wings in `done` have been served, with the first k engines of `all`. */
  ghost predicate Mounting<W, E>(done: Slots<W>, olds: set<W>, all: Slots<E>, m0: Engines<W, E>,
                                 m: Engines<W, E>, k: nat) {
    && k <= |all| && Parts(done) <= m0.Keys == m.Keys && olds <= m.Keys
    && Mounts(done, m) == Fill(Mounts(done, m0), all)
    && k == Used(Mounts(done, m0), all)
    && (forall w :: w in olds ==> m[w] == if m0[w] in all[..k] then None else m0[w])
    && (forall w :: w in m && w !in Parts(done) && w !in olds ==> m[w] == m0[w])
  }

  lemma {:induction false} MountsSame<W, E>(ws: Slots<W>, m: Engines<W, E>, m': Engines<W, E>)
    requires Parts(ws) <= m.Keys && Parts(ws) <= m'.Keys
    requires forall w :: w in Parts(ws) ==> m[w] == m'[w]
    ensures Mounts(ws, m) == Mounts(ws, m')
  {
    if ws != [] {
      var n := |ws| - 1;
      assert forall w :: w in Parts(ws[..n]) ==> Some(w) in ws;
      assert ws[n] in ws;
      MountsSame(ws[..n], m, m');
    }
  }

  lemma PartsNext<W>(ws: Slots<W>, slot: Option<W>)
    ensures Parts(ws + [slot]) == Parts(ws) + if slot.Some? then {slot.value} else {}
  {
  }

  lemma MountsNext<W, E>(ws: Slots<W>, slot: Option<W>, m: Engines<W, E>)
    requires Parts(ws + [slot]) <= m.Keys
    ensures Parts(ws) <= m.Keys && (slot.Some? ==> slot.value in m)
    ensures Mounts(ws + [slot], m) == Mounts(ws, m) + if slot.Some? then [m[slot.value]] else []
  {
    PartsNext(ws, slot);
    assert (ws + [slot])[..|ws|] == ws;
  }

  lemma MountOneKeeps<W, E>(done: Slots<W>, slot: Option<W>, m: Engines<W, E>, olds: set<W>, all: Slots<E>, k: nat)
    requires slot.Some? ==> slot.value in m && slot.value !in olds && slot.value !in Parts(done)
    requires Parts(done) !! olds && Parts(done) <= m.Keys
    ensures var (m', k') := MountOne(slot, m, olds, all, k);
      && m'.Keys == m.Keys
      && (forall w :: w in Parts(done) ==> m'[w] == m[w])
      && (slot.Some? ==> m'[slot.value] == if m[slot.value].None? && k < |all| then all[k] else m[slot.value])
  {
  }

  /** Serving a wing fills the next engine slot. */
  lemma MountingFills<W, E>(done: Slots<W>, slot: Option<W>, olds: set<W>, all: Slots<E>,
                            m0: Engines<W, E>, m: Engines<W, E>, k: nat)
    requires Mounting(done, olds, all, m0, m, k)
    requires slot.Some? ==> slot.value in m && slot.value !in olds && slot.value !in Parts(done)
    requires Parts(done) !! olds
    ensures var (m', k') := MountOne(slot, m, olds, all, k);
      && Parts(done + [slot]) <= m'.Keys
      && Mounts(done + [slot], m') == Fill(Mounts(done + [slot], m0), all)
      && k' == Used(Mounts(done + [slot], m0), all)
  {
    var (m', k') := MountOne(slot, m, olds, all, k);
    PartsNext(done, slot);
    MountsNext(done, slot, m0);
    MountsNext(done, slot, m');
    MountOneKeeps(done, slot, m, olds, all, k);
    MountsSame(done, m, m');
    if slot.Some? {
      assert m[slot.value] == m0[slot.value];
      FillPush(Mounts(done, m0), m0[slot.value], all);
    }
  }

  /** Clearing the engine just taken is clearing one more of `all`. */
  lemma MountingClears<W, E>(done: Slots<W>, slot: Option<W>, olds: set<W>, all: Slots<E>,
                             m0: Engines<W, E>, m: Engines<W, E>, k: nat, w: W)
    requires Mounting(done, olds, all, m0, m, k)
    requires slot.Some? ==> slot.value in m && slot.value !in olds
    requires w in olds
    ensures var (m', k') := MountOne(slot, m, olds, all, k);
      k' <= |all| && w in m' && m'[w] == if m0[w] in all[..k'] then None else m0[w]
  {
    if k < |all| {
      assert all[..k + 1] == all[..k] + [all[k]];
    }
  }

  lemma MountingNext<W, E>(done: Slots<W>, slot: Option<W>, olds: set<W>, all: Slots<E>,
                           m0: Engines<W, E>, m: Engines<W, E>, k: nat)
    requires Mounting(done, olds, all, m0, m, k)
    requires slot.Some? ==> slot.value in m && slot.value !in olds && slot.value !in Parts(done)
    requires Parts(done) !! olds
    ensures var (m', k') := MountOne(slot, m, olds, all, k);
      Mounting(done + [slot], olds, all, m0, m', k')
  {
    MountingFills(done, slot, olds, all, m0, m, k);
    PartsNext(done, slot);
    forall w | w in olds {
      MountingClears(done, slot, olds, all, m0, m, k, w);
    }
  }

  // ---------- What mounting achieves ----------

  lemma {:induction false} SomesIn<E>(slots: Slots<E>, part: Option<E>)
    ensures part in Somes(slots) <==> part in slots && part.Some?
    ensures NoNil(Somes(slots))
  {
    if slots != [] {
      var n := |slots| - 1;
      SomesIn(slots[..n], part);
      assert slots == slots[..n] + [slots[n]];
    }
  }

  lemma {:induction false} CountSomes<E>(slots: Slots<E>, part: E)
    ensures Count(Somes(slots), part) == Count(slots, part)
  {
    if slots != [] {
      var n := |slots| - 1;
      CountSomes(slots[..n], part);
      CountConcat(Somes(slots[..n]), if slots[n].Some? then [slots[n]] else [], part);
    }
  }

  lemma SomesDistinct<E>(slots: Slots<E>)
    requires DistinctParts(slots)
    ensures DistinctParts(Somes(slots))
  {
    DistinctIsCountOne(slots);
    DistinctIsCountOne(Somes(slots));
    forall p ensures Count(Somes(slots), p) <= 1 {
      CountSomes(slots, p);
    }
  }

  lemma {:induction false} MountsIn<W, E>(ws: Slots<W>, m: Engines<W, E>, e: Option<E>)
    requires Parts(ws) <= m.Keys
    ensures e in Mounts(ws, m) <==> exists w :: w in Parts(ws) && m[w] == e
  {
    if ws != [] {
      var n := |ws| - 1;
      assert ws == ws[..n] + [ws[n]];
      PartsNext(ws[..n], ws[n]);
      MountsNext(ws[..n], ws[n], m);
      MountsIn(ws[..n], m, e);
    }
  }

  lemma {:induction false} MountsDistinct<W, E>(ws: Slots<W>, m: Engines<W, E>)
    requires Parts(ws) <= m.Keys && DistinctParts(ws) && Apart(Parts(ws), m)
    ensures DistinctParts(Mounts(ws, m))
  {
    if ws != [] {
      var n := |ws| - 1;
      assert ws == ws[..n] + [ws[n]];
      PartsNext(ws[..n], ws[n]);
      MountsNext(ws[..n], ws[n], m);
      MountsDistinct(ws[..n], m);
      if ws[n].Some? {
        var e := m[ws[n].value];
        MountsIn(ws[..n], m, e);
      }
    }
  }

  /** The engines still on the old wings are those not yet taken. */
  lemma {:induction false} LeftOnOldWings<W, E>(ws: Slots<W>, taken: Slots<E>, m0: Engines<W, E>,
                                                m: Engines<W, E>, part: E)
    requires Parts(ws) <= m0.Keys == m.Keys
    requires forall w :: w in Parts(ws) ==> m[w] == if m0[w] in taken then None else m0[w]
    ensures Count(Mounts(ws, m), part) == if Some(part) in taken then 0 else Count(Mounts(ws, m0), part)
  {
    if ws != [] {
      var n := |ws| - 1;
      assert ws == ws[..n] + [ws[n]];
      PartsNext(ws[..n], ws[n]);
      MountsNext(ws[..n], ws[n], m);
      MountsNext(ws[..n], ws[n], m0);
      LeftOnOldWings(ws[..n], taken, m0, m, part);
      if ws[n].Some? {
        CountConcat(Mounts(ws[..n], m), [m[ws[n].value]], part);
        CountConcat(Mounts(ws[..n], m0), [m0[ws[n].value]], part);
      }
    }
  }

  lemma CountTaken<E>(all: Slots<E>, k: nat, part: E)
    requires DistinctParts(all) && k <= |all|
    ensures Count(all, part) == Count(all[..k], part) +
                                if Some(part) in all[..k] then 0 else Count(all, part)
  {
    CountDistinct(all, part);
    CountConcat(all[..k], all[k..], part);
    assert all == all[..k] + all[k..];
    CountIn(all[..k], part);
  }

  /** Every engine sits on as many wings as before, over both nests. */
  lemma EnginesConserved<W, E>(news: Slots<W>, olds: Slots<W>, m0: Engines<W, E>, m: Engines<W, E>, k: nat, part: E)
    requires Parts(olds) <= m0.Keys
    requires Mounting(news, Parts(olds), Somes(Mounts(olds, m0)), m0, m, k)
    requires DistinctParts(Mounts(olds, m0))
    ensures Count(Mounts(news, m), part) + Count(Mounts(olds, m), part)
      == Count(Mounts(news, m0), part) + Count(Mounts(olds, m0), part)
  {
    var all := Somes(Mounts(olds, m0));
    CountFill(Mounts(news, m0), all, part);
    LeftOnOldWings(olds, all[..k], m0, m, part);
    CountSomes(Mounts(olds, m0), part);
    SomesDistinct(Mounts(olds, m0));
    CountTaken(all, k, part);
  }

  lemma {:induction false} AllNilIsNoCount<E>(slots: Slots<E>)
    ensures AllNil(slots) <==> forall p :: Count(slots, p) == 0
  {
    if AllNil(slots) {
      forall p ensures Count(slots, p) == 0 {
        CountNils(slots, p);
      }
    } else {
      var i :| 0 <= i < |slots| && slots[i].Some?;
      CountIn(slots, slots[i].value);
    }
  }

  /** No engine is left on an old wing, or every present new wing has one. */
  lemma EnginesMaximal<W, E>(news: Slots<W>, olds: Slots<W>, m0: Engines<W, E>, m: Engines<W, E>, k: nat)
    requires Parts(olds) <= m0.Keys
    requires Mounting(news, Parts(olds), Somes(Mounts(olds, m0)), m0, m, k)
    ensures Maximal(Mounts(news, m), Mounts(olds, m))
  {
    hide Fill, Count, Mounts, Somes, Missing;
    var all := Somes(Mounts(olds, m0));
    if k < |all| {
      MissingAfterFill(Mounts(news, m0), all);
      SomesIn(Mounts(olds, m0), None);
      MissingIsZero(all[..k]);
      MissingIsZero(Mounts(news, m));
    } else {
      forall p ensures Count(Mounts(olds, m), p) == 0 {
        LeftOnOldWings(olds, all[..k], m0, m, p);
        assert all[..k] == all;
        SomesIn(Mounts(olds, m0), Some(p));
        CountIn(Mounts(olds, m0), p);
      }
      AllNilIsNoCount(Mounts(olds, m));
    }
  }

  // ---------- Engines ride along with their wings ----------

  lemma {:induction false} MountsConcat<W, E>(a: Slots<W>, b: Slots<W>, m: Engines<W, E>)
    requires Parts(a + b) <= m.Keys
    ensures Parts(a) <= m.Keys && Parts(b) <= m.Keys
    ensures Mounts(a + b, m) == Mounts(a, m) + Mounts(b, m)
    decreases |b|
  {
    forall w | w in Parts(a) || w in Parts(b) ensures w in Parts(a + b) {
      assert Some(w) in a + b;
    }
    if b == [] {
      assert a + b == a;
    } else {
      var n := |b| - 1;
      assert a + b == (a + b[..n]) + [b[n]] && b == b[..n] + [b[n]];
      MountsNext(a + b[..n], b[n], m);
      MountsNext(b[..n], b[n], m);
      MountsConcat(a, b[..n], m);
    }
  }

  /** An engine is mounted once if some wing has it, else not at all. */
  lemma MountedOnce<W, E>(ws: Slots<W>, m: Engines<W, E>, part: E)
    requires Parts(ws) <= m.Keys && DistinctParts(ws) && Apart(Parts(ws), m)
    ensures Count(Mounts(ws, m), part) == if exists w :: w in Parts(ws) && m[w] == Some(part) then 1 else 0
  {
    MountsDistinct(ws, m);
    CountDistinct(Mounts(ws, m), part);
    CountIn(Mounts(ws, m), part);
    MountsIn(ws, m, Some(part));
  }

  /** Rearranging the wings does not change how often an engine is mounted. */
  lemma EnginesRide<W, E>(a: Slots<W>, b: Slots<W>, a': Slots<W>, b': Slots<W>, m: Engines<W, E>, part: E)
    requires DistinctParts(a + b) && DistinctParts(a' + b') && Parts(a + b) == Parts(a' + b') <= m.Keys
    requires Apart(Parts(a + b), m)
    ensures Parts(a) <= m.Keys && Parts(b) <= m.Keys && Parts(a') <= m.Keys && Parts(b') <= m.Keys
    ensures Count(Mounts(a, m), part) + Count(Mounts(b, m), part)
      == Count(Mounts(a', m), part) + Count(Mounts(b', m), part)
  {
    MountsConcat(a, b, m);
    MountsConcat(a', b', m);
    MountedOnce(a + b, m, part);
    MountedOnce(a' + b', m, part);
    CountConcat(Mounts(a, m), Mounts(b, m), part);
    CountConcat(Mounts(a', m), Mounts(b', m), part);
  }
}
