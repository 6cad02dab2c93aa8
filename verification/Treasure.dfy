/** The treasure search of treasure-tracker/main.go played against the judge of
    treasure-tracker/main_test.go: two binary searches over relative answers. */
module Treasure {

  datatype Point = Point(x: int, y: int)

  /** `Silence`: the judge has stopped and will never answer again. */
  datatype Answer = Go | Closer | Further | Same | Silence
  datatype Verdict = Playing | Found | OutOfRange | TooManyQueries

  function Abs(x: int): nat {
    if x < 0 then -x else x
  }

  function Distance(a: Point, b: Point): (d: nat)
    ensures d == (if a.x < b.x then b.x - a.x else a.x - b.x) + (if a.y < b.y then b.y - a.y else a.y - b.y)
  {
    Abs(a.x - b.x) + Abs(a.y - b.y)
  }

  predicate Inside(border: Point, p: Point) {
    0 < p.x <= border.x && 0 < p.y <= border.y
  }

  /** What the judge says to p when the previous point was `previous` (none at first). */
  function Compare(goal: Point, asked: seq<Point>, p: Point): Answer {
    if asked == [] then Go
    else
      var d, last := Distance(goal, p), Distance(goal, asked[|asked| - 1]);
      if d < last then Closer else if d > last then Further else Same
  }

  /** The judge goroutine, one turn of its loop per query. */
  class Judge {
    const goal: Point
    const border: Point
    const maxQuery: nat
    var asked: seq<Point>
    var verdict: Verdict

    constructor (goal: Point, border: Point, maxQuery: nat)
      ensures this.goal == goal && this.border == border && this.maxQuery == maxQuery
      ensures asked == [] && verdict == if maxQuery == 0 then TooManyQueries else Playing
    {
      this.goal, this.border, this.maxQuery := goal, border, maxQuery;
      this.asked, this.verdict := [], if maxQuery == 0 then TooManyQueries else Playing;
    }

    method Ask(p: Point) returns (answer: Answer)
      modifies this
      ensures old(verdict) != Playing ==> answer == Silence && asked == old(asked) && verdict == old(verdict)
      ensures old(verdict) == Playing ==> asked == old(asked) + [p]
      ensures old(verdict) == Playing && p == goal ==> verdict == Found && answer == Silence
      ensures old(verdict) == Playing && p != goal && !Inside(border, p) ==>
                verdict == OutOfRange && answer == Silence
      ensures old(verdict) == Playing && p != goal && Inside(border, p) ==>
                answer == Compare(goal, old(asked), p) &&
                verdict == if |asked| < maxQuery then Playing else TooManyQueries
      ensures verdict == OutOfRange && old(verdict) == Playing ==>
                p.x <= 0 || p.x > border.x || p.y <= 0 || p.y > border.y
      ensures answer == Go ==> old(asked) == []
      ensures answer in {Closer, Further, Same} ==> old(asked) != []
      ensures answer == Closer ==> Distance(goal, p) < Distance(goal, old(asked)[|old(asked)| - 1])
      ensures answer == Further ==> Distance(goal, p) > Distance(goal, old(asked)[|old(asked)| - 1])
      ensures answer == Same ==> Distance(goal, p) == Distance(goal, old(asked)[|old(asked)| - 1])
    {
      if verdict != Playing {
        return Silence;
      }
      answer := Compare(goal, asked, p);
      asked := asked + [p];
      if p == goal {
        verdict := Found;
        answer := Silence;
      } else if !Inside(border, p) {
        verdict := OutOfRange;
        answer := Silence;
      } else if |asked| >= maxQuery {
        verdict := TooManyQueries;
      }
    }
  }

  // ---------- Logarithms ----------

  function Pow2(k: nat): nat {
    if k == 0 then 1 else 2 * Pow2(k - 1)
  }

  /** The least k with n <= 2^k. */
  function CeilLog2(n: int): nat
    requires n >= 1
    decreases n
  {
    if n == 1 then 0 else 1 + CeilLog2((n + 1) / 2)
  }

  /** The greatest k with 2^k <= n. */
  function FloorLog2(n: int): nat
    requires n >= 1
    decreases n
  {
    if n == 1 then 0 else 1 + FloorLog2(n / 2)
  }

  lemma {:induction false} CeilLog2IsLeast(n: int)
    requires n >= 1
    ensures n <= Pow2(CeilLog2(n))
    ensures n > 1 ==> Pow2(CeilLog2(n) - 1) < n
    decreases n
  {
    if n > 1 {
      CeilLog2IsLeast((n + 1) / 2);
    }
  }

  lemma {:induction false} FloorLog2AtLeast(n: int, k: nat)
    requires n >= 1 && Pow2(k) <= n
    ensures k <= FloorLog2(n)
    decreases n
  {
    if k > 0 {
      Pow2Positive(k - 1);
      FloorLog2AtLeast(n / 2, k - 1);
    }
  }

  lemma {:induction false} FloorLog2IsGreatest(n: int)
    requires n >= 1
    ensures Pow2(FloorLog2(n)) <= n < Pow2(FloorLog2(n) + 1)
    decreases n
  {
    if n > 1 {
      FloorLog2IsGreatest(n / 2);
    }
  }

  lemma {:induction false} Pow2Positive(k: nat)
    ensures Pow2(k) >= 1
  {
    if k > 0 {
      Pow2Positive(k - 1);
    }
  }

  lemma {:induction false} Pow2Sum(a: nat, b: nat)
    ensures Pow2(a + b) == Pow2(a) * Pow2(b)
  {
    if a > 0 {
      Pow2Sum(a - 1, b);
    }
  }

  lemma {:induction false} CeilLog2Monotone(a: int, b: int)
    requires 1 <= a <= b
    ensures CeilLog2(a) <= CeilLog2(b)
    decreases b
  {
    if a > 1 {
      CeilLog2Monotone((a + 1) / 2, (b + 1) / 2);
    }
  }

  /** findMaxQuery in exact arithmetic. */
  function FindMaxQuery(n: int, m: int): nat
    requires n >= 1 && m >= 1
  {
    assert n * m >= 1;
    3 * (FloorLog2(n * m) + 2)
  }

  /** What the search needs at most. */
  function QueryBound(n: int, m: int): nat
    requires n >= 1 && m >= 1
  {
    2 * CeilLog2(n) + 2 * CeilLog2(m) + 2
  }

  lemma MulMonotone(a: int, b: int, c: int, d: int)
    requires 0 <= a <= b && 0 <= c <= d
    ensures a * c <= b * d
  {
    assert a * c <= b * c;
    assert b * c <= b * d;
  }

  /** The judge's allowance always covers the search. */
  lemma BoundWithinLimit(n: int, m: int)
    requires n >= 1 && m >= 1
    ensures QueryBound(n, m) <= FindMaxQuery(n, m)
  {
    var a := if n > 1 then CeilLog2(n) - 1 else 0;
    var b := if m > 1 then CeilLog2(m) - 1 else 0;
    CeilLog2IsLeast(n);
    CeilLog2IsLeast(m);
    Pow2Sum(a, b);
    MulMonotone(Pow2(a), n, Pow2(b), m);
    FloorLog2AtLeast(n * m, a + b);
  }

  lemma {:induction false} Pow2Monotone(a: nat, b: nat)
    requires a <= b
    ensures Pow2(a) <= Pow2(b)
  {
    if a < b {
      Pow2Monotone(a, b - 1);
    }
  }

  /** What the judge allows, in terms of powers of two. */
  lemma LimitInPowers(n: int, m: int)
    requires n >= 1 && m >= 1
    ensures forall k: nat :: Pow2(k) <= n * m < Pow2(k + 1) ==> FindMaxQuery(n, m) == 3 * (k + 2)
  {
    var f := FloorLog2(n * m);
    FloorLog2IsGreatest(n * m);
    forall k: nat | Pow2(k) <= n * m < Pow2(k + 1) ensures k == f {
      if k < f {
        Pow2Monotone(k + 1, f);
      } else if f < k {
        Pow2Monotone(f + 1, k);
      }
    }
  }

  // ---------- The search ----------

  /** One axis: the point that stands at coordinate v while the other coordinate is fixed. */
  function On(alongX: bool, v: int, fixed: int): Point {
    if alongX then Point(v, fixed) else Point(fixed, v)
  }

  function Coordinate(alongX: bool, p: Point): int {
    if alongX then p.x else p.y
  }

  /** Moving one step along an axis never leaves the distance unchanged, and its change
      tells on which side of the step the goal lies. */
  lemma StepTells(goal: Point, alongX: bool, mid: int, fixed: int)
    ensures var a, b := Distance(goal, On(alongX, mid, fixed)), Distance(goal, On(alongX, mid + 1, fixed));
      && a != b
      && (b < a <==> mid + 1 <= Coordinate(alongX, goal))
  {
  }

  /** The branch for "same as before". */
  function SameBranch(l: int, r: int): (int, int) {
    var mid := (l + r) / 2;
    if mid + 1 - l > r - mid then (mid, r) else (l, mid + 1)
  }

  /** That branch shrinks the interval only if it holds at least three candidates: were it
      reachable, the search could loop forever on two. */
  lemma SameBranchStalls(l: int, r: int)
    requires l < r
    ensures var (l', r') := SameBranch(l, r); r' - l' < r - l <==> r - l >= 2
  {
  }

  /** Every point asked lay inside the ground; if the game is won, the last one was the goal. */
  ghost predicate Sound(j: Judge)
    reads j
  {
    && (j.verdict == Playing || j.verdict == Found)
    && (forall k :: 0 <= k < |j.asked| ==> Inside(j.border, j.asked[k]))
    && (j.verdict == Found ==> j.asked != [] && j.asked[|j.asked| - 1] == j.goal)
  }

  /** The judge is waiting and last saw `here`. */
  ghost predicate At(j: Judge, here: Point)
    reads j
  {
    Sound(j) && j.verdict == Playing && j.asked != [] && j.asked[|j.asked| - 1] == here
  }

  /** One turn of a search loop: make (mid, .) the previous point, then ask (mid+1, .). */
  method Probe(j: Judge, alongX: bool, mid: int, fixed: int, here: Point) returns (answer: Answer)
    requires At(j, here) && |j.asked| + 2 < j.maxQuery
    requires Inside(j.border, On(alongX, mid, fixed)) && Inside(j.border, On(alongX, mid + 1, fixed))
    modifies j
    ensures Sound(j) && |j.asked| <= old(|j.asked|) + 2
    ensures answer == Silence <==> j.verdict == Found
    ensures answer != Silence ==> At(j, On(alongX, mid + 1, fixed))
    ensures answer != Silence ==>
              answer == if mid + 1 <= Coordinate(alongX, j.goal) then Closer else Further
  {
    if here != On(alongX, mid, fixed) {
      answer := j.Ask(On(alongX, mid, fixed));
      if answer == Silence { return; }
    }
    StepTells(j.goal, alongX, mid, fixed);
    answer := j.Ask(On(alongX, mid + 1, fixed));
  }

  lemma HalfIsLess(size: int, size': int)
    requires size > 1 && 1 <= size' <= (size + 1) / 2
    ensures CeilLog2(size') + 1 <= CeilLog2(size)
  {
    CeilLog2Monotone(size', (size + 1) / 2);
  }

  /** The search on one axis. `here` is the point asked last (curX, curY). The branch for
      "same as before" is there, and never taken. */
  method SearchAxis(j: Judge, alongX: bool, size: int, fixed: int, here: Point)
    returns (value: int, last: Point)
    requires 1 <= size == Coordinate(alongX, j.border) && Inside(j.border, j.goal)
    requires forall v :: 1 <= v <= size ==> Inside(j.border, On(alongX, v, fixed))
    requires At(j, here) && |j.asked| + 2 * CeilLog2(size) < j.maxQuery
    modifies j
    ensures Sound(j) && |j.asked| <= old(|j.asked|) + 2 * CeilLog2(size)
    ensures j.verdict == Playing ==> At(j, last) && value == Coordinate(alongX, j.goal)
  {
    var l, r := 1, size;
    last := here;
    while l < r
      invariant 1 <= l <= Coordinate(alongX, j.goal) <= r <= size
      invariant At(j, last)
      invariant |j.asked| + 2 * CeilLog2(r - l + 1) <= old(|j.asked|) + 2 * CeilLog2(size)
      decreases r - l
    {
      var mid := (l + r) / 2;
      HalfIsLess(r - l + 1, mid + 1 - l);
      HalfIsLess(r - l + 1, r - mid);
      var answer := Probe(j, alongX, mid, fixed, last);
      if answer == Silence { return 0, last; }
      last := On(alongX, mid + 1, fixed);
      if answer == Closer {
        l := mid + 1;
      } else if answer == Further {
        r := mid;
      } else {
        assert false;
        if mid + 1 - l > r - mid {
          l := mid;
        } else {
          r := mid + 1;
        }
      }
    }
    value := l;
  }

  /** FindTreasure. A query the judge leaves unanswered blocks the goroutine: the method returns. */
  method FindTreasure(j: Judge)
    requires j.border.x >= 1 && j.border.y >= 1 && Inside(j.border, j.goal)
    requires j.asked == [] && j.verdict == Playing && j.maxQuery >= QueryBound(j.border.x, j.border.y)
    modifies j
    ensures Sound(j) && j.verdict == Found
    ensures |j.asked| <= QueryBound(j.border.x, j.border.y)
  {
    var n, m := j.border.x, j.border.y;
    var answer := j.Ask(Point(1, 1));
    if answer == Silence { return; }
    var gx, here := SearchAxis(j, true, n, 1, Point(1, 1));
    if j.verdict == Found { return; }
    var gy;
    gy, here := SearchAxis(j, false, m, gx, here);
    if j.verdict == Found { return; }
    answer := j.Ask(Point(gx, gy));
  }

  /** The test: with the judge's own limit the treasure is found, for every ground and goal. */
  method Play(goal: Point, border: Point) returns (verdict: Verdict, queries: nat)
    requires border.x >= 1 && border.y >= 1 && Inside(border, goal)
    ensures verdict == Found && queries <= 2 * CeilLog2(border.x) + 2 * CeilLog2(border.y) + 2
    ensures forall k: nat :: Pow2(k) <= border.x * border.y < Pow2(k + 1) ==> queries <= 3 * (k + 2)
  {
    LimitInPowers(border.x, border.y);
    BoundWithinLimit(border.x, border.y);
    var j := new Judge(goal, border, FindMaxQuery(border.x, border.y));
    FindTreasure(j);
    verdict, queries := j.verdict, |j.asked|;
  }
}
