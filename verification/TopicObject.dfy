/** `Topic` as the object the goroutines share: each method is one section under the topic's
    lock (or one channel operation), tied to the protocol step it stands for. */
module TopicObject {
  import opened Queue
  import P = TopicProtocol

  type ClientId = P.ClientId

  class Topic {
    const name: string
    var mq: MessageQueue
    var subscribers: map<ClientId, nat>
    var seqNo: nat
    var notify: bool

    ghost predicate Valid()
      reads this, mq, mq.items
    {
      mq.Valid()
    }

    ghost function View(): P.Shared
      reads this, mq
    {
      P.Shared(name, seqNo, mq.Contents(), subscribers, notify)
    }

    constructor (name: string)
      ensures Valid() && fresh(mq) && View() == P.NewTopic(name).shared
    {
      this.name := name;
      this.subscribers, this.seqNo, this.notify := map[], 0, false;
      this.mq := new MessageQueue();
    }

    /** The publish case, from Lock to Unlock. */
    method Publish(id: nat, content: string, priority: int) returns (msg: Message)
      requires Valid()
      modifies this, mq, Members(mq.items)
      ensures Valid() && mq == old(mq) && fresh(msg) && Members(mq.items) == old(Members(mq.items)) + {msg}
      ensures msg.Value() == P.NextMsg(old(View()), id, content, priority)
      ensures View() == P.PublishShared(old(View()), id, content, priority)
    {
      seqNo := seqNo + 1;
      msg := new Message(id, name, content, priority, seqNo);
      mq.HeapPush(msg);
    }

    /** The non-blocking send on the one-slot channel. */
    method TryNotify()
      modifies this`notify
      ensures View() == old(View()).(token := true)
    {
      if !notify {
        notify := true;
      }
    }

    method Subscribe(c: ClientId)
      modifies this`subscribers
      ensures View() == P.SubscribeShared(old(View()), c)
    {
      subscribers := subscribers[c := seqNo];
    }

    method Unsubscribe(c: ClientId)
      modifies this`subscribers
      ensures View() == P.UnsubscribeShared(old(View()), c)
    {
      subscribers := subscribers - {c};
    }

    /** popMessage: nothing from an empty heap, otherwise its least message. */
    method PopMessage() returns (msg: Message?)
      requires Valid()
      modifies mq, Members(mq.items)
      ensures Valid()
      ensures msg == null <==> old(View()).heap == multiset{}
      ensures msg == null ==> View() == old(View())
      ensures msg != null ==>
        && IsLeast(msg.Value(), old(View()).heap) && msg.index == -1
        && (forall x :: x in old(View()).heap ==>
              msg.priority <= x.priority && (msg.priority == x.priority ==> msg.seqNo <= x.seqNo))
        && View() == old(View()).(heap := old(View()).heap - multiset{msg.Value()})
    {
      var n := mq.Len();
      if n == 0 {
        return null;
      }
      assert Values(mq.items)[0] in mq.Contents();
      msg := mq.HeapPop();
    }

    /** snapshotSubscribers: the range over the map, in whatever order it comes. */
    method SnapshotSubscribers(msgSeq: int) returns (out: seq<ClientId>)
      ensures forall c :: c in out <==> c in subscribers && subscribers[c] < msgSeq
      ensures forall i, j :: 0 <= i < j < |out| ==> out[i] != out[j]
      ensures forall m: Msg :: m.seqNo == msgSeq ==> (set c | c in out) == P.Eligible(View(), m)
    {
      out := [];
      var rest := subscribers.Keys;
      while rest != {}
        invariant rest <= subscribers.Keys
        invariant forall c :: c in out <==> c in subscribers && c !in rest && subscribers[c] < msgSeq
        invariant forall i, j :: 0 <= i < j < |out| ==> out[i] != out[j]
        decreases rest
      {
        var c :| c in rest;
        rest := rest - {c};
        if subscribers[c] < msgSeq {
          out := out + [c];
        }
      }
    }
  }
}
