/** Part transplants on plain sequences of slots: what `Repair` does to one kind of part,
    and what that conserves and achieves. airplane-hangar/main.go. */
module Transplant {
  import opened Basics

  /** None is a nil pointer. */
  type Slots<T> = seq<Option<T>>

  /** Slots of several aircraft, in scan order. */
  function Flat<T>(rows: seq<Slots<T>>): Slots<T> {
    if rows == [] then [] else Flat(rows[..|rows| - 1]) + rows[|rows| - 1]
  }

  function Missing<T>(slots: Slots<T>): nat {
    if slots == [] then 0
    else Missing(slots[..|slots| - 1]) + if slots[|slots| - 1].None? then 1 else 0
  }

  /** How many entries of the donor queue are consumed. */
  function Used<T>(slots: Slots<T>, queue: Slots<T>): (n: nat)
    ensures n <= |queue|
  {
    if Missing(slots) <= |queue| then Missing(slots) else |queue|
  }

  /** Every missing slot takes the next entry of the queue, be it nil, until the queue is empty. */
  function Fill<T>(slots: Slots<T>, queue: Slots<T>): (r: Slots<T>)
    ensures |r| == |slots|
  {
    if slots == [] then []
    else
      var n := |slots| - 1;
      Fill(slots[..n], queue) +
      [if slots[n].None? && Missing(slots[..n]) < |queue| then queue[Missing(slots[..n])] else slots[n]]
  }

  /** The first k slots are nil, the rest as before. */
  function Emptied<T>(slots: Slots<T>, k: nat): (r: Slots<T>)
    requires k <= |slots|
    ensures |r| == |slots|
  {
    seq(|slots|, i requires 0 <= i < |slots| => if i < k then None else slots[i])
  }

  /** Every slot that holds `part` is set to nil. */
  function Removed<T(==)>(slots: Slots<T>, part: Option<T>): (r: Slots<T>)
    ensures |r| == |slots|
  {
    seq(|slots|, i requires 0 <= i < |slots| => if slots[i] == part then None else slots[i])
  }

  ghost predicate DistinctParts<T>(slots: Slots<T>) {
    forall i, j :: 0 <= i < j < |slots| && slots[i].Some? ==> slots[i] != slots[j]
  }

  /** In how many slots `part` sits. */
  function Count<T(==)>(slots: Slots<T>, part: T): nat {
    if slots == [] then 0
    else Count(slots[..|slots| - 1], part) + if slots[|slots| - 1] == Some(part) then 1 else 0
  }

  // ---------- Composing rows ----------

  lemma FlatNext<T>(rows: seq<Slots<T>>, row: Slots<T>)
    ensures Flat(rows + [row]) == Flat(rows) + row
  {
    assert (rows + [row])[..|rows|] == rows;
  }

  lemma {:induction false} MissingConcat<T>(a: Slots<T>, b: Slots<T>)
    ensures Missing(a + b) == Missing(a) + Missing(b)
    decreases |b|
  {
    if b == [] {
      assert a + b == a;
    } else {
      assert (a + b)[..|a + b| - 1] == a + b[..|b| - 1];
      MissingConcat(a, b[..|b| - 1]);
    }
  }

  lemma UsedConcat<T>(a: Slots<T>, b: Slots<T>, queue: Slots<T>)
    ensures Used(a + b, queue) == Used(a, queue) + Used(b, queue[Used(a, queue)..])
  {
    MissingConcat(a, b);
  }

  lemma {:induction false} FillConcat<T>(a: Slots<T>, b: Slots<T>, queue: Slots<T>)
    ensures Fill(a + b, queue) == Fill(a, queue) + Fill(b, queue[Used(a, queue)..])
    decreases |b|
  {
    if b == [] {
      assert a + b == a;
    } else {
      var n := |b| - 1;
      assert (a + b)[..|a + b| - 1] == a + b[..n];
      FillConcat(a, b[..n], queue);
      MissingConcat(a, b[..n]);
    }
  }

  /** The k-th missing slot in scan order gets the k-th entry; a filled slot keeps its part. */
  lemma {:induction false} FillAt<T>(slots: Slots<T>, queue: Slots<T>, i: nat)
    requires i < |slots|
    ensures slots[i].Some? ==> Fill(slots, queue)[i] == slots[i]
    ensures slots[i].None? && Missing(slots[..i]) < |queue| ==>
              Fill(slots, queue)[i] == queue[Missing(slots[..i])]
    ensures slots[i].None? && Missing(slots[..i]) >= |queue| ==> Fill(slots, queue)[i] == None
  {
    var n := |slots| - 1;
    if i < n {
      assert slots[..n][..i] == slots[..i];
      FillAt(slots[..n], queue, i);
    }
  }

  lemma {:induction false} RemovedFlat<T>(rows: seq<Slots<T>>, part: Option<T>)
    ensures Removed(Flat(rows), part) ==
            Flat(seq(|rows|, i requires 0 <= i < |rows| => Removed(rows[i], part)))
  {
    var removed := seq(|rows|, i requires 0 <= i < |rows| => Removed(rows[i], part));
    if rows != [] {
      var n := |rows| - 1;
      RemovedFlat(rows[..n], part);
      assert removed[..n] == seq(n, i requires 0 <= i < n => Removed(rows[..n][i], part));
    }
  }

  /** Clearing the part just taken from the queue is clearing the next slot. */
  lemma RemovedIsEmptied<T>(all: Slots<T>, k: nat)
    requires DistinctParts(all) && k < |all|
    ensures Removed(Emptied(all, k), all[k]) == Emptied(all, k + 1)
  {
  }

  // ---------- Filling step by step ----------

  /** Filling slot i with the next of `all` from k on, if it is nil and there is one. */
  function FillOne<T>(slots: Slots<T>, i: nat, all: Slots<T>, k: nat): (Slots<T>, nat)
    requires i < |slots|
  {
    if slots[i].None? && k < |all| then (slots[i := all[k]], k + 1) else (slots, k)
  }

  /** Slots below i have been filled from `all`, of which the entries before k are gone. */
  ghost predicate Filling<T>(before: Slots<T>, i: nat, all: Slots<T>, used: nat, now: Slots<T>, k: nat) {
    && i <= |before| && used <= k <= |all|
    && now == Fill(before[..i], all[used..]) + before[i..]
    && k == used + Used(before[..i], all[used..])
  }

  lemma FillingNext<T>(before: Slots<T>, i: nat, all: Slots<T>, used: nat, now: Slots<T>, k: nat)
    requires Filling(before, i, all, used, now, k) && i < |before|
    ensures |now| == |before|
    ensures var (now', k') := FillOne(now, i, all, k); Filling(before, i + 1, all, used, now', k')
  {
    assert before[..i + 1] == before[..i] + [before[i]];
    FillPush(before[..i], before[i], all[used..]);
    var done := Fill(before[..i], all[used..]);
    SetNext(done, before, i, if k < |all| then all[k] else None);
    SetNext(done, before, i, before[i]);
  }

  lemma FillingDone<T>(before: Slots<T>, all: Slots<T>, used: nat, now: Slots<T>, k: nat)
    requires Filling(before, |before|, all, used, now, k)
    ensures now == Fill(before, all[used..]) && k == used + Used(before, all[used..])
  {
    assert before[..|before|] == before;
  }

  lemma SetNext<T>(done: seq<T>, before: seq<T>, i: nat, x: T)
    requires |done| == i < |before|
    ensures (done + before[i..])[i] == before[i]
    ensures (done + before[i..])[i := x] == done + [x] + before[i + 1..]
    ensures x == before[i] ==> done + before[i..] == done + [x] + before[i + 1..]
  {
  }

  lemma FillPush<T>(slots: Slots<T>, slot: Option<T>, queue: Slots<T>)
    ensures var k := Used(slots, queue);
      if slot.None? && k < |queue| then
        Fill(slots + [slot], queue) == Fill(slots, queue) + [queue[k]] && Used(slots + [slot], queue) == k + 1
      else
        Fill(slots + [slot], queue) == Fill(slots, queue) + [slot] && Used(slots + [slot], queue) == k
  {
    assert (slots + [slot])[..|slots|] == slots;
  }

  /** The rows below a have been filled from `all`, of which the entries before k are gone. */
  ghost predicate FillingRows<T>(before: seq<Slots<T>>, a: nat, all: Slots<T>, now: seq<Slots<T>>, k: nat) {
    && a <= |before| == |now| && k <= |all|
    && (forall j :: 0 <= j < |before| ==> |now[j]| == |before[j]|)
    && Flat(now[..a]) == Fill(Flat(before[..a]), all)
    && k == Used(Flat(before[..a]), all)
    && forall j :: a <= j < |before| ==> now[j] == before[j]
  }

  lemma FillingRowsNext<T>(before: seq<Slots<T>>, a: nat, all: Slots<T>, now: seq<Slots<T>>, k: nat)
    requires FillingRows(before, a, all, now, k) && a < |before|
    ensures FillingRows(before, a + 1, all, now[a := Fill(before[a], all[k..])], k + Used(before[a], all[k..]))
  {
    var row := Fill(before[a], all[k..]);
    assert now[a := row][..a + 1] == now[..a] + [row];
    assert before[..a + 1] == before[..a] + [before[a]];
    FlatNext(now[..a], row);
    FlatNext(before[..a], before[a]);
    FillConcat(Flat(before[..a]), before[a], all);
    UsedConcat(Flat(before[..a]), before[a], all);
  }

  lemma FillingRowsDone<T>(before: seq<Slots<T>>, all: Slots<T>, now: seq<Slots<T>>, k: nat)
    requires FillingRows(before, |before|, all, now, k)
    ensures Flat(now) == Fill(Flat(before), all) && k == Used(Flat(before), all)
  {
    assert before[..|before|] == before && now[..|before|] == now;
  }

  // ---------- Conservation ----------

  lemma {:induction false} CountConcat<T>(a: Slots<T>, b: Slots<T>, part: T)
    ensures Count(a + b, part) == Count(a, part) + Count(b, part)
    decreases |b|
  {
    if b == [] {
      assert a + b == a;
    } else {
      assert (a + b)[..|a + b| - 1] == a + b[..|b| - 1];
      CountConcat(a, b[..|b| - 1], part);
    }
  }

  lemma {:induction false} CountNils<T>(slots: Slots<T>, part: T)
    requires AllNil(slots)
    ensures Count(slots, part) == 0
  {
    if slots != [] {
      CountNils(slots[..|slots| - 1], part);
    }
  }

  lemma CountEmptied<T>(slots: Slots<T>, k: nat, part: T)
    requires k <= |slots|
    ensures Count(Emptied(slots, k), part) == Count(slots[k..], part)
  {
    var e := Emptied(slots, k);
    assert e == e[..k] + slots[k..];
    CountConcat(e[..k], slots[k..], part);
    CountNils(e[..k], part);
  }

  lemma {:induction false} CountFill<T>(slots: Slots<T>, queue: Slots<T>, part: T)
    ensures Count(Fill(slots, queue), part) == Count(slots, part) + Count(queue[..Used(slots, queue)], part)
  {
    if slots != [] {
      var n := |slots| - 1;
      CountFill(slots[..n], queue, part);
      var k := Used(slots[..n], queue);
      if slots[n].None? && k < |queue| {
        assert queue[..k + 1][..k] == queue[..k];
      }
    }
  }

  /** Over both nests every part sits in as many slots as before: none is lost or doubled. */
  lemma TransplantConserves<T>(slots: Slots<T>, donors: Slots<T>, part: T)
    ensures Count(Fill(slots, donors), part) + Count(Emptied(donors, Used(slots, donors)), part)
      == Count(slots, part) + Count(donors, part)
  {
    var k := Used(slots, donors);
    CountFill(slots, donors, part);
    CountEmptied(donors, k, part);
    CountConcat(donors[..k], donors[k..], part);
    assert donors == donors[..k] + donors[k..];
  }

  lemma {:induction false} CountIn<T>(slots: Slots<T>, part: T)
    ensures Count(slots, part) > 0 <==> Some(part) in slots
  {
    if slots != [] {
      CountIn(slots[..|slots| - 1], part);
      assert slots == slots[..|slots| - 1] + [slots[|slots| - 1]];
    }
  }

  /** Distinct parts sit in one slot each, and the other way round. */
  lemma {:induction false} DistinctIsCountOne<T>(slots: Slots<T>)
    ensures DistinctParts(slots) <==> forall p :: Count(slots, p) <= 1
  {
    if DistinctParts(slots) {
      forall p ensures Count(slots, p) <= 1 {
        CountDistinct(slots, p);
      }
    } else {
      var i, j :| 0 <= i < j < |slots| && slots[i].Some? && slots[i] == slots[j];
      var p := slots[i].value;
      assert slots == slots[..j] + slots[j..];
      CountConcat(slots[..j], slots[j..], p);
      assert slots[..j][i] == Some(p) && slots[j..][0] == Some(p);
      CountIn(slots[..j], p);
      CountIn(slots[j..], p);
    }
  }

  lemma {:induction false} CountDistinct<T>(slots: Slots<T>, part: T)
    requires DistinctParts(slots)
    ensures Count(slots, part) <= 1
  {
    if slots != [] {
      var n := |slots| - 1;
      CountDistinct(slots[..n], part);
      if slots[n] == Some(part) {
        CountIn(slots[..n], part);
      }
    }
  }

  /** No part ends up in two slots. */
  lemma NoDoubles<T>(slots: Slots<T>, donors: Slots<T>)
    requires DistinctParts(slots + donors)
    ensures var k := Used(slots, donors);
      DistinctParts(Fill(slots, donors) + Emptied(donors, k))
  {
    var k := Used(slots, donors);
    var after := Fill(slots, donors) + Emptied(donors, k);
    DistinctIsCountOne(slots + donors);
    DistinctIsCountOne(after);
    forall p ensures Count(after, p) <= 1 {
      SameCount(slots, donors, p);
    }
  }

  lemma SameCount<T>(slots: Slots<T>, donors: Slots<T>, part: T)
    ensures Count(Fill(slots, donors) + Emptied(donors, Used(slots, donors)), part) == Count(slots + donors, part)
  {
    CountConcat(slots, donors, part);
    CountConcat(Fill(slots, donors), Emptied(donors, Used(slots, donors)), part);
    TransplantConserves(slots, donors, part);
  }

  /** No part appears from nowhere and none disappears. */
  lemma SameParts<T>(slots: Slots<T>, donors: Slots<T>, part: T)
    ensures Some(part) in Fill(slots, donors) + Emptied(donors, Used(slots, donors)) <==> Some(part) in slots + donors
  {
    SameCount(slots, donors, part);
    CountIn(slots + donors, part);
    CountIn(Fill(slots, donors) + Emptied(donors, Used(slots, donors)), part);
  }

  // ---------- Maximality ----------

  ghost predicate AllNil<T>(slots: Slots<T>) {
    forall i :: 0 <= i < |slots| ==> slots[i].None?
  }

  ghost predicate NoNil<T>(slots: Slots<T>) {
    forall i :: 0 <= i < |slots| ==> slots[i].Some?
  }

  /** Nothing usable is left behind while something is still missing. */
  ghost predicate Maximal<T>(repaired: Slots<T>, donors: Slots<T>) {
    NoNil(repaired) || AllNil(donors)
  }

  lemma {:induction false} MissingIsZero<T>(slots: Slots<T>)
    ensures Missing(slots) == 0 <==> NoNil(slots)
  {
    if slots != [] {
      MissingIsZero(slots[..|slots| - 1]);
    }
  }

  lemma {:induction false} MissingAfterFill<T>(slots: Slots<T>, queue: Slots<T>)
    ensures Missing(Fill(slots, queue)) ==
            Missing(slots) - Used(slots, queue) + Missing(queue[..Used(slots, queue)])
  {
    if slots != [] {
      var n := |slots| - 1;
      MissingAfterFill(slots[..n], queue);
      var k := Used(slots[..n], queue);
      if slots[n].None? && k < |queue| {
        assert queue[..k + 1][..k] == queue[..k];
      }
    }
  }

  /** Exactly when the transplant is maximal: a nil entry that is consumed is harmful only if
      a usable part is left behind it. */
  lemma TransplantIsMaximal<T>(slots: Slots<T>, donors: Slots<T>)
    ensures var k := Used(slots, donors);
      Maximal(Fill(slots, donors), Emptied(donors, k)) <==> NoNil(donors[..k]) || AllNil(donors[k..])
  {
    var k := Used(slots, donors);
    MissingAfterFill(slots, donors);
    MissingIsZero(Fill(slots, donors));
    MissingIsZero(donors[..k]);
    assert AllNil(Emptied(donors, k)) <==> AllNil(donors[k..]) by {
      if AllNil(Emptied(donors, k)) {
        forall i | 0 <= i < |donors[k..]| ensures donors[k..][i].None? {
          assert Emptied(donors, k)[k + i].None?;
        }
      }
    }
  }

  /** An input that is not repaired fully: the nil entry is used up and the part stays behind. */
  lemma NilUsedUp<T>(part: T)
    ensures var slots, donors := [None], [None, Some(part)];
      !Maximal(Fill(slots, donors), Emptied(donors, Used(slots, donors)))
  {
    var slots, donors := [None], [None, Some(part)];
    TransplantIsMaximal(slots, donors);
    assert slots[..0] == [] && Used(slots, donors) == 1;
    assert donors[..1][0] == None && donors[1..][0] == Some(part);
  }
}
