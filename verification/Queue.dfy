/** The per-topic priority queue: message-broker/queue/queue.go driven by the
    sift-up and sift-down of Go's container/heap. */
module Queue {

  /** A message as an immutable value: what is left of `Message` without its heap position. */
  datatype Msg = Msg(id: nat, topic: string, content: string, priority: int, seqNo: int)

  /** `Less` on values: smaller priority first, then the earlier sequence number. */
  predicate Before(a: Msg, b: Msg) {
    if a.priority != b.priority then a.priority < b.priority else a.seqNo < b.seqNo
  }

  /** No element of `ms` comes before `m`. */
  ghost predicate IsLeast(m: Msg, ms: multiset<Msg>) {
    m in ms && forall x :: x in ms ==> !Before(x, m)
  }

  function Parent(i: int): int
    requires 0 < i
  {
    (i - 1) / 2
  }

  ghost predicate IsHeap(s: seq<Msg>) {
    forall k {:trigger s[k]} :: 0 < k < |s| ==> !Before(s[k], s[Parent(k)])
  }

  ghost predicate HeapUpTo(s: seq<Msg>, n: int)
    requires n <= |s|
  {
    forall k {:trigger s[k]} :: 0 < k < n ==> !Before(s[k], s[Parent(k)])
  }

  /** A heap but for the edge above `j`, whose children already respect j's parent. */
  ghost predicate HeapButAbove(s: seq<Msg>, j: int) {
    && (forall k {:trigger s[k]} :: 0 < k < |s| && k != j ==> !Before(s[k], s[Parent(k)]))
    && (forall k {:trigger s[k]} :: 0 < k < |s| && 0 < j < |s| && Parent(k) == j ==> !Before(s[k], s[Parent(j)]))
  }

  /** The first `n` elements form a heap but for the edges below `i`. */
  ghost predicate HeapButBelow(s: seq<Msg>, i: int, n: int)
    requires n <= |s|
  {
    && (forall k {:trigger s[k]} :: 0 < k < n && Parent(k) != i ==> !Before(s[k], s[Parent(k)]))
    && (forall k {:trigger s[k]} :: 0 < k < n && 0 < i < n && Parent(k) == i ==> !Before(s[k], s[Parent(i)]))
  }

  function Swapped<T>(s: seq<T>, i: int, j: int): seq<T>
    requires 0 <= i < |s| && 0 <= j < |s|
  {
    s[i := s[j]][j := s[i]]
  }

  lemma SwappedKeepsMultiset<T>(s: seq<T>, i: int, j: int)
    requires 0 <= i < |s| && 0 <= j < |s|
    ensures multiset(Swapped(s, i, j)) == multiset(s)
  {
    assert multiset(s[i := s[j]]) == multiset(s) - multiset{s[i]} + multiset{s[j]};
  }

  lemma SameMembers<T>(a: seq<T>, b: seq<T>)
    requires multiset(a) == multiset(b)
    ensures forall x :: x in a <==> x in b
  {
    forall x ensures x in a <==> x in b {
      assert x in a <==> x in multiset(a);
      assert x in b <==> x in multiset(b);
    }
  }

  /** The root of a heap comes before nothing that does not also precede: it is least. */
  lemma {:induction false} RootIsLeast(s: seq<Msg>, k: int)
    requires IsHeap(s) && 0 <= k < |s|
    ensures !Before(s[k], s[0])
  {
    if k > 0 {
      RootIsLeast(s, Parent(k));
    }
  }

  lemma HeapRootIsLeast(s: seq<Msg>)
    requires IsHeap(s) && |s| > 0
    ensures IsLeast(s[0], multiset(s))
  {
    forall x | x in multiset(s) ensures !Before(x, s[0]) {
      var k :| 0 <= k < |s| && s[k] == x;
      RootIsLeast(s, k);
    }
  }

  lemma LastSplits<T>(s: seq<T>)
    requires |s| > 0
    ensures multiset(s) == multiset(s[..|s| - 1]) + multiset{s[|s| - 1]}
  {
    assert s == s[..|s| - 1] + [s[|s| - 1]];
  }

  /** One turn of sift-up moves the hole to the parent. */
  lemma SiftUpStep(s: seq<Msg>, j: int)
    requires 0 < j < |s| && HeapButAbove(s, j) && Before(s[j], s[Parent(j)])
    ensures HeapButAbove(Swapped(s, Parent(j), j), Parent(j))
  {
    var p := Parent(j);
    var t := Swapped(s, p, j);
    forall k {:trigger t[k]} | 0 < k < |t| && k != p
      ensures !Before(t[k], t[Parent(k)])
    {
      assert k != j ==> t[k] == s[k];
    }
    forall k {:trigger t[k]} | 0 < k < |t| && 0 < p && Parent(k) == p
      ensures !Before(t[k], t[Parent(p)])
    {
      assert k != j ==> t[k] == s[k];
      assert !Before(s[p], s[Parent(p)]);
    }
  }

  /** One turn of sift-down moves the hole to the smaller child `c`. */
  lemma SiftDownStep(s: seq<Msg>, i: int, c: int, n: int)
    requires n <= |s| && 0 <= i < c < n && Parent(c) == i && HeapButBelow(s, i, n)
    requires forall k :: 0 < k < n && Parent(k) == i ==> !Before(s[k], s[c])
    requires Before(s[c], s[i])
    ensures HeapButBelow(Swapped(s, i, c), c, n)
  {
    var t := Swapped(s, i, c);
    forall k {:trigger t[k]} | 0 < k < n && Parent(k) != c
      ensures !Before(t[k], t[Parent(k)])
    {
      if k == i {
        assert !Before(s[c], s[Parent(i)]);
      } else if k != c {
        assert t[k] == s[k];
      }
    }
    forall k {:trigger t[k]} | 0 < k < n && Parent(k) == c
      ensures !Before(t[k], t[Parent(c)])
    {
      assert t[k] == s[k];
    }
  }

  lemma RootSwappedOut(s: seq<Msg>, n: int)
    requires IsHeap(s) && 0 <= n == |s| - 1
    ensures HeapButBelow(Swapped(s, 0, n), 0, n)
  {
    var t := Swapped(s, 0, n);
    assert forall k :: 0 < k < n ==> t[k] == s[k];
  }

  /** Sift-down stops where the smaller child does not precede its parent. */
  lemma NothingBelow(s: seq<Msg>, i: int, c: int, n: int)
    requires n <= |s| && 0 <= i < c < n && HeapButBelow(s, i, n)
    requires forall k :: 0 < k < n && Parent(k) == i ==> !Before(s[k], s[c])
    requires !Before(s[c], s[i])
    ensures HeapUpTo(s, n)
  {
  }

  /** `Message`: everything but the heap position is fixed at publication. */
  class Message {
    const id: nat
    const topic: string
    const content: string
    const priority: int
    const seqNo: int
    var index: int

    constructor (id: nat, topic: string, content: string, priority: int, seqNo: int)
      ensures Value() == Msg(id, topic, content, priority, seqNo)
    {
      this.id, this.topic, this.content := id, topic, content;
      this.priority, this.seqNo := priority, seqNo;
      this.index := 0;
    }

    function Value(): Msg {
      Msg(id, topic, content, priority, seqNo)
    }
  }

  ghost function Members(ms: seq<Message>): set<Message> {
    set m | m in ms
  }

  ghost function Values(ms: seq<Message>): (vs: seq<Msg>)
    ensures |vs| == |ms|
  {
    seq(|ms|, i requires 0 <= i < |ms| => ms[i].Value())
  }

  /** `MessageQueue`: a slice of messages, each knowing where it stands. */
  class MessageQueue {
    var items: seq<Message>

    ghost predicate Indexed()
      reads this, items
    {
      forall i :: 0 <= i < |items| ==> items[i].index == i
    }

    ghost predicate Valid()
      reads this, items
    {
      Indexed() && IsHeap(Values(items))
    }

    /** What the queue holds, order aside. */
    ghost function Contents(): multiset<Msg>
      reads this
    {
      multiset(Values(items))
    }

    constructor ()
      ensures Valid() && items == []
    {
      items := [];
    }

    method Len() returns (n: nat)
      ensures n == |items|
    {
      n := |items|;
    }

    method Less(i: nat, j: nat) returns (less: bool)
      requires i < |items| && j < |items|
      ensures less == Before(items[i].Value(), items[j].Value())
      ensures items[i].priority < items[j].priority ==> less
      ensures items[i].priority > items[j].priority ==> !less
      ensures items[i].priority == items[j].priority ==> (less <==> items[i].seqNo < items[j].seqNo)
    {
      if items[i].priority != items[j].priority {
        return items[i].priority < items[j].priority;
      }
      return items[i].seqNo < items[j].seqNo;
    }

    method Swap(i: nat, j: nat)
      requires i < |items| && j < |items| && Indexed()
      modifies this, Members(items)
      ensures Indexed() && items == Swapped(old(items), i, j)
      ensures Values(items) == Swapped(old(Values(items)), i, j)
      ensures multiset(items) == old(multiset(items))
      ensures Contents() == old(Contents()) && Members(items) == old(Members(items))
    {
      SwappedKeepsMultiset(items, i, j);
      SwappedKeepsMultiset(Values(items), i, j);
      assert Values(Swapped(items, i, j)) == Swapped(Values(items), i, j);
      SameMembers(items, Swapped(items, i, j));
      items := Swapped(items, i, j);
      items[i].index := i;
      items[j].index := j;
    }

    /** The slice part of a push: append and record the position. */
    method Push(msg: Message)
      requires Indexed() && msg !in items
      modifies this, msg
      ensures Indexed() && items == old(items) + [msg]
    {
      msg.index := |items|;
      items := items + [msg];
    }

    /** The slice part of a pop: drop the last message and mark it as removed. */
    method Pop() returns (msg: Message)
      requires Indexed() && |items| > 0
      modifies this, items[|items| - 1]
      ensures Indexed() && items == old(items[..|items| - 1]) && msg == old(items[|items| - 1])
      ensures msg.index == -1
    {
      var n := |items|;
      msg := items[n - 1];
      msg.index := -1;
      items := items[..n - 1];
    }

    /** container/heap `up`. */
    method Up(j0: nat)
      requires j0 < |items| && Indexed() && HeapButAbove(Values(items), j0)
      modifies this, Members(items)
      ensures Valid() && multiset(items) == old(multiset(items))
      ensures Contents() == old(Contents()) && Members(items) == old(Members(items))
    {
      var j := j0;
      while true
        invariant 0 <= j < |items| && Indexed()
        invariant HeapButAbove(Values(items), j)
        invariant multiset(items) == old(multiset(items))
        invariant Contents() == old(Contents()) && Members(items) == old(Members(items))
        decreases j
      {
        var i: nat := if j == 0 then 0 else (j - 1) / 2;
        if i == j { break; }
        var less := Less(j, i);
        if !less { break; }
        SiftUpStep(Values(items), j);
        Swap(i, j);
        j := i;
      }
    }

    /** The child of `i` that `down` would move up. */
    method SmallerChild(i: nat, n: nat) returns (j: nat)
      requires 2 * i + 1 < n <= |items|
      ensures i < j < n && Parent(j) == i
      ensures forall k :: 0 < k < n && Parent(k) == i ==> !Before(items[k].Value(), items[j].Value())
    {
      var j1 := 2 * i + 1;
      j := j1;
      var j2 := j1 + 1;
      if j2 < n {
        var right := Less(j2, j1);
        if right { j := j2; }
      }
      assert forall k :: 0 < k < n && Parent(k) == i ==> k == j1 || k == j2;
    }

    /** container/heap `down`, on the first n items. */
    method Down(i0: nat, n: nat)
      requires i0 <= n <= |items| && Indexed() && HeapButBelow(Values(items), i0, n)
      modifies this, Members(items)
      ensures Indexed() && |items| == old(|items|) && HeapUpTo(Values(items), n)
      ensures items[n..] == old(items[n..]) && multiset(items) == old(multiset(items))
      ensures Contents() == old(Contents()) && Members(items) == old(Members(items))
    {
      var i := i0;
      while 2 * i + 1 < n
        invariant 0 <= i <= n <= |items| == old(|items|) && Indexed()
        invariant HeapButBelow(Values(items), i, n)
        invariant items[n..] == old(items[n..])
        invariant multiset(items) == old(multiset(items))
        invariant Contents() == old(Contents()) && Members(items) == old(Members(items))
        decreases n - i
      {
        var j := SmallerChild(i, n);
        var less := Less(j, i);
        if !less {
          NothingBelow(Values(items), i, j, n);
          return;
        }
        SiftDownStep(Values(items), i, j, n);
        Swap(i, j);
        i := j;
      }
    }

    lemma ApartFromLast(n: nat)
      requires Indexed() && |items| == n + 1
      ensures Members(items[..n]) == Members(items) - {items[n]}
    {
      assert items == items[..n] + [items[n]];
      assert forall k :: 0 <= k < n ==> items[k] != items[n];
    }

    /** heap.Push. */
    method HeapPush(msg: Message)
      requires Valid() && msg !in items
      modifies this, Members(items), msg
      ensures Valid()
      ensures multiset(items) == old(multiset(items)) + multiset{msg}
      ensures Contents() == old(Contents()) + multiset{msg.Value()}
      ensures Members(items) == old(Members(items)) + {msg}
    {
      ghost var before := Values(items);
      Push(msg);
      assert Values(items) == before + [msg.Value()];
      Up(|items| - 1);
    }

    /** heap.Pop: the least message leaves, everything else stays. */
    method HeapPop() returns (msg: Message)
      requires Valid() && |items| > 0
      modifies this, Members(items)
      ensures Valid() && msg in old(items) && msg.index == -1
      ensures multiset(items) == old(multiset(items)) - multiset{msg}
      ensures Members(items) == old(Members(items)) - {msg}
      ensures IsLeast(msg.Value(), old(Contents()))
      ensures forall x :: x in old(Contents()) ==>
        msg.priority <= x.priority && (msg.priority == x.priority ==> msg.seqNo <= x.seqNo)
      ensures Contents() == old(Contents()) - multiset{msg.Value()}
    {
      ghost var first, vs := items[0], Values(items);
      HeapRootIsLeast(vs);
      var n := |items| - 1;
      Swap(0, n);
      RootSwappedOut(vs, n);
      assert items[n..] == [first];
      Down(0, n);
      assert items[n] == items[n..][0];
      msg := PopLast();
    }

    /** The last step of heap.Pop, once the root has been moved to the end. */
    method PopLast() returns (msg: Message)
      requires Indexed() && |items| > 0 && HeapUpTo(Values(items), |items| - 1)
      modifies this, Members(items)
      ensures Valid() && msg == old(items[|items| - 1]) && msg.index == -1
      ensures multiset(items) == old(multiset(items)) - multiset{msg}
      ensures Members(items) == old(Members(items)) - {msg}
      ensures Contents() == old(Contents()) - multiset{msg.Value()}
    {
      var n := |items| - 1;
      LastSplits(items);
      LastSplits(Values(items));
      assert Values(items[..n]) == Values(items)[..n];
      ApartFromLast(n);
      msg := Pop();
    }

    /** The dispatcher's inner loop: pop until the queue is empty. */
    method Drain() returns (out: seq<Message>)
      requires Valid()
      modifies this, Members(items)
      ensures items == [] && multiset(Values(out)) == old(Contents()) && InOrder(Values(out))
      ensures forall i, j :: 0 <= i < j < |out| ==>
        out[i].priority <= out[j].priority && (out[i].priority == out[j].priority ==> out[i].seqNo <= out[j].seqNo)
    {
      out := [];
      while |items| > 0
        invariant Valid() && multiset(Values(out)) + Contents() == old(Contents())
        invariant Members(items) <= old(Members(items))
        invariant InOrder(Values(out)) && AllAfter(Values(out), Contents())
        decreases |Contents()|
      {
        ghost var vals, rest := Values(out), Contents();
        var msg := HeapPop();
        DrainStep(vals, rest, msg.Value());
        ValuesSnoc(out, msg);
        out := out + [msg];
      }
      FieldsInOrder(out);
    }
  }

  lemma ValuesSnoc(ms: seq<Message>, m: Message)
    ensures Values(ms + [m]) == Values(ms) + [m.Value()]
  {
  }

  /** What the order of the values says of the messages' own fields. */
  lemma FieldsInOrder(out: seq<Message>)
    requires InOrder(Values(out))
    ensures forall i, j :: 0 <= i < j < |out| ==>
      out[i].priority <= out[j].priority && (out[i].priority == out[j].priority ==> out[i].seqNo <= out[j].seqNo)
  {
    forall i, j | 0 <= i < j < |out|
      ensures out[i].priority <= out[j].priority
      ensures out[i].priority == out[j].priority ==> out[i].seqNo <= out[j].seqNo
    {
      assert !Before(Values(out)[j], Values(out)[i]);
    }
  }

  ghost predicate InOrder(s: seq<Msg>) {
    forall i, j :: 0 <= i < j < |s| ==> !Before(s[j], s[i])
  }

  ghost predicate AllAfter(s: seq<Msg>, rest: multiset<Msg>) {
    forall i, x :: 0 <= i < |s| && x in rest ==> !Before(x, s[i])
  }

  lemma DrainStep(done: seq<Msg>, rest: multiset<Msg>, m: Msg)
    requires InOrder(done) && AllAfter(done, rest) && IsLeast(m, rest)
    ensures InOrder(done + [m]) && AllAfter(done + [m], rest - multiset{m})
    ensures multiset(done + [m]) + (rest - multiset{m}) == multiset(done) + rest
    ensures |rest - multiset{m}| < |rest|
  {
  }
}
