# Models and proofs for the Go monorepo

This project models eleven of the repository's small programs and proves what they are for. The
message broker comes first; the other programs stand beside it as independent modules. `dafny
verify dfyconfig.toml` checks everything.

**How concurrency is modelled.** A program with goroutines is a state, a datatype of steps, a
predicate `Enabled` and a function `Do`. One step is one section under a lock, one channel
operation, or one access to shared memory outside any lock; the gaps between them (between a push
and its wake-up, between pop and snapshot, between the read lock and the write lock of a lookup) are
where other goroutines get in. A property is proved as an invariant that every enabled step keeps,
and read off at the states where it is meant to hold. Programs that change objects in place are
classes whose methods are tied to the functions the steps use.

| files | what they model |
|---|---|
| `Basics.dfy` | an option type and facts about sets and sequences that several models share |
| `Queue.dfy` | the broker's heap: messages that know their position, `container/heap`'s sift-up and sift-down |
| `TopicProtocol.dfy`, `TopicTheorems.dfy`, `TopicObject.dfy` | one topic with its dispatcher, any number of publishers and subscribers; its guarantees; the shared object |
| `ServerProtocol.dfy`, `ServerTheorems.dfy`, `RequestTheorems.dfy` | the whole broker: client handlers, double-checked topic creation, the two-sided subscription index; its guarantees; what becomes of a single request |
| `Airport.dfy` | the sweep that counts runways, and the minimum it computes |
| `Treasure.dfy` | two binary searches against a judge that only says closer or further |
| `MiniRedis.dfy` | the lazily expiring, evicting cache, and the eager cache it stands for |
| `Transplant.dfy`, `EngineMounts.dfy`, `Hangar.dfy`, `HangarRepair.dfy` | moving parts between aircraft by pointer |
| `Milgram.dfy` | the greedy small-world walk with 64-bit arithmetic |
| `GameServer.dfy`, `CallTheorems.dfy` | players switching maps while maps fan out chat; what becomes of a single call |
| `Airpods.dfy` | two pods, one Bluetooth connection, one forwarder |
| `TikTak.dfy` | two goroutines taking turns |
| `WorkDir.dfy`, `VersionControl.dfy` | a toy version control on the heap |
| `School.dfy` | the school registry's tables and handlers |

Where the natural property is false of the code, a lemma says exactly when it holds, and another gives
an input on which it fails unless the condition itself shows one:

- `Repair` leaves neither a gap nor a usable part of a kind exactly if no nil entry of the donor queue
  is used up before a usable one (`Transplant.TransplantIsMaximal`, failing on `Transplant.NilUsedUp`).
- A chat message can come back to its sender exactly if his key has a zero byte
  (`GameServer.EchoExactly`, happening in `GameServer.EchoHappens`).
- The greedy walk chooses a truly nearest friend, whatever friends one has, exactly if wrapping puts
  nobody at the largest integer and turns no two people round (`Milgram.NearestExactly`, failing on
  `Milgram.FarFriendLooksNear`); coordinates below 2^30 are enough (`Milgram.ChoosesTrulyNearest`).
- The walk never stops with a run-time panic exactly if everybody but the addressee has a friend
  below the largest integer, which for coordinates below 2^30 means a friend at all
  (`Milgram.NeverPanics`, failing on `Milgram.LonelySenderPanics`).
- The search's branch for equal answers shrinks the interval exactly if three candidates are left
  (`Treasure.SameBranchStalls`), which is why its being unreachable matters.
- `Checkout` accepts `~0` but has no caret form for it (`VersionControl.NoSteps`).

## Model

| member | source | states |
|---|---|---|
| Queue.SiftUpStep | message-broker/queue/queue.go:88-100 | swapping an element with its larger parent moves the only heap violation up to the parent |
| Queue.SiftDownStep | message-broker/queue/queue.go:88-100 | swapping an element with its smaller child moves the only heap violation down to that child |
| Queue.HeapRootIsLeast | message-broker/queue/queue.go:88-93 | the first element of a heap precedes everything it holds, in the order priority first, then sequence number |
| Queue.MessageQueue.Less | message-broker/queue/queue.go:88-93 | a message comes first iff its priority number is smaller or, at equal priority, its sequence number |
| Queue.MessageQueue.Swap | message-broker/queue/queue.go:96-100 | exactly two messages trade places and every message still knows its position |
| Queue.MessageQueue.Push | message-broker/queue/queue.go:104-108 | the message is appended with its position recorded |
| Queue.MessageQueue.Pop | message-broker/queue/queue.go:112-119 | the last message leaves with position -1, the rest keep theirs |
| Queue.MessageQueue.Up | message-broker/server/server.go:533 | sift-up restores the heap without gaining or losing a message |
| Queue.MessageQueue.Down | message-broker/server/topic.go:245 | sift-down restores the heap below the end and leaves what lies behind it alone |
| Queue.MessageQueue.HeapPush | message-broker/server/server.go:533 | heap order and positions are kept and the contents grow by exactly the message |
| Queue.MessageQueue.HeapPop | message-broker/server/topic.go:233-246 | the message that leaves has the smallest priority number of all held and, among those, the smallest sequence number; it has position -1 and is all that leaves |
| Queue.MessageQueue.Drain | message-broker/server/topic.go:175-208 | popping until empty yields the whole contents: priority numbers never fall, and within one priority sequence numbers rise |
| TopicProtocol.NewTopicInv | message-broker/server/topic.go:60-71 | a new topic satisfies the invariant |
| TopicProtocol.EligibleIsShouldReceive | message-broker/server/topic.go:267-286 | comparing joinedSeq with the message's number selects exactly the clients whose latest subscribe is in force and preceded the publication |
| TopicProtocol.NumberedKept | message-broker/server/server.go:520-530 | published messages carry 1, 2, ... without gaps under every interleaving |
| TopicProtocol.HeapIsPendingKept | message-broker/server/topic.go:233-246 | the heap is always what was published and not yet popped |
| TopicProtocol.LogOkKept | message-broker/server/topic.go:162-216 | every step keeps the history correct: numbers in order, pops least among pending, each snapshot of the message popped last and exact |
| TopicProtocol.WillBeNoticedKept | message-broker/server/server.go:536-542 | a non-empty heap always has a token, a dispatcher at work, or a publisher about to send one |
| TopicProtocol.StepKeepsInv | message-broker/server/topic.go:162-286 | every step of publisher, subscriber and dispatcher keeps the whole invariant |
| TopicTheorems.SomeoneCanMove | message-broker/server/topic.go:162-216 | a topic that is not at rest has an enabled publisher or dispatcher step |
| TopicTheorems.IdleMeansAtRest | message-broker/server/topic.go:162-216 | nobody can move exactly if the dispatcher waits, no token is there and no publisher is in the gap |
| TopicTheorems.IdleMeansDelivered | message-broker/server/topic.go:162-216 | no lost wake-up: when nobody can move everything published was popped, snapshot and sent, and every client subscribed since before a publication has been sent it exactly once |
| TopicTheorems.InternalStepDecreases | message-broker/server/topic.go:162-216 | every publisher-finishing or dispatcher step lowers one measure |
| TopicTheorems.SettlesWithin | message-broker/server/topic.go:162-216 | with no new requests every schedule stops within that measure, publishing nothing new |
| TopicTheorems.EverythingIsDispatched | message-broker/server/topic.go:162-216 | from any reachable state letting the goroutines finish delivers every published message to every continuing subscriber, once |
| TopicTheorems.PriorityOrder | message-broker/server/topic.go:233-246 | a message that precedes another and was published before that one left the heap leaves before it |
| TopicTheorems.SmallerPriorityFirst | message-broker/queue/queue.go:88-93 | of two messages pending together the one with the smaller priority number is popped first |
| TopicTheorems.FirstPublishedFirstPopped | message-broker/queue/queue.go:85-93 | equal priorities are popped in publish order however publishes and drains interleave |
| TopicTheorems.NumbersAreSplit | message-broker/server/server.go:520-534 | the numbers 1..seq are split without overlap between the heap and the popped messages, each used once |
| TopicTheorems.PopIsUnique | message-broker/server/topic.go:233-246 | the popped message has a smaller priority number than every other pending one or, at equal priority, a smaller sequence number, so no other could have been popped |
| TopicTheorems.DeliveryIsExact | message-broker/server/topic.go:267-286 | a snapshot comes after its message's publication, and names a client iff he is subscribed then and his latest subscribe preceded the publication, also across a re-subscribe between pop and snapshot |
| TopicTheorems.SubscriberServed | message-broker/server/topic.go:162-216 | end to end: subscribed, then published, still subscribed, and everything drained: the message was sent |
| TopicTheorems.SentWasDue | message-broker/server/topic.go:183-207 | whatever is sent was published, and the receiver's subscription in force at its snapshot was made before the publication |
| TopicTheorems.SentAtMostOnce | message-broker/server/topic.go:175-208 | no client is sent a message twice |
| TopicTheorems.SnapshotOnce | message-broker/server/topic.go:175-208 | no message is ever in two snapshots |
| TopicTheorems.SentOnceInOrder | message-broker/server/topic.go:196-207 | what a client is sent is a prefix of what he is due, and that is a subsequence of the dispatch order |
| TopicObject.Topic.Publish | message-broker/server/server.go:520-534 | the section under the lock is the protocol's publish on the shared state |
| TopicObject.Topic.TryNotify | message-broker/server/server.go:539-542 | after the non-blocking send the token is there, whether or not it was |
| TopicObject.Topic.Subscribe | message-broker/server/server.go:438-440 | the client is recorded with the current sequence number |
| TopicObject.Topic.Unsubscribe | message-broker/server/server.go:464-468 | the client is removed, nothing else changes |
| TopicObject.Topic.PopMessage | message-broker/server/topic.go:233-246 | nil exactly for an empty heap, otherwise the message of smallest priority number and then smallest sequence number, removed |
| TopicObject.Topic.SnapshotSubscribers | message-broker/server/topic.go:267-286 | the eligible clients, each once, in any map order |
| ServerProtocol.NotifyKept | message-broker/server/server.go:533-542 | a topic counts a publisher as about to notify exactly while that client's handler stands in the gap |
| ServerProtocol.IndexKept | message-broker/server/server.go:438-473 | which topics hold a client is determined by his subs and where his handler stands, after every step |
| ServerProtocol.TopicsKept | message-broker/server/server.go:390-571 | every topic keeps the topic invariant inside the whole broker |
| ServerProtocol.StepKeepsInv | message-broker/server/server.go:304-571 | every step of every handler and dispatcher keeps the broker's invariant |
| ServerProtocol.RunKeepsInv | message-broker/server/server.go:390-571 | the invariant holds in every state of every run |
| ServerTheorems.SameTopicForEveryCaller | message-broker/server/server.go:304-353 | all GetTopic calls for a name, at any times and by any clients, return the same object |
| ServerTheorems.OneTopicPerName | message-broker/server/server.go:313-353 | no name ever has two topics, hence never two dispatchers |
| ServerTheorems.SubscriptionIndex | message-broker/server/server.go:438-473 | at the loop head a client is in a topic's subscribers iff the topic is in his subs; after removeClient he is in none |
| ServerTheorems.HandlerNeverStuck | message-broker/server/server.go:390-636 | a handler in the middle of a request can always go on |
| ServerTheorems.InternalStepDecreases | message-broker/server/server.go:390-636 | every step that finishes work lowers a lexicographic measure, whoever takes it |
| ServerTheorems.BrokerSettles | message-broker/server/server.go:390-571 | from any reachable state the broker can reach one where all requests are done, every message is dispatched, and every continuing subscriber has been sent it once |
| ServerTheorems.EveryScheduleSettles | message-broker/server/server.go:390-571 | under every schedule that moves while anybody can, the broker comes to rest with everything ever published dispatched, and sent once to every client subscribed since before |
| RequestTheorems.SubscribeTakesEffect | message-broker/server/server.go:423-449 | when a subscribe request is done, whatever others did meanwhile, the topic is in the client's subs and the client in the topic; his other subscriptions are what they were |
| RequestTheorems.UnsubscribeTakesEffect | message-broker/server/server.go:451-476 | when an unsubscribe request is done the topic is out of the subs and the client out of the topic, and nothing else has changed for him |
| RequestTheorems.HangupIsFinal | message-broker/server/server.go:588-636 | a client who hung up never reads another request, and once removeClient is over he is in no topic and stays in none |
| RequestTheorems.PublishTakesEffect | message-broker/server/server.go:506-547 | when a publish request is done its handler has published exactly once: in the topic named, with the content and the priority asked for and the id drawn for it |
| RequestTheorems.PublishIsDelivered | message-broker/server/server.go:506-547 | once the broker is at rest that very message has been sent exactly once to everybody who was in the topic when it was published and has neither left nor subscribed again, and to nobody who was not in it then |
| RequestTheorems.PublicationWasAsked | message-broker/server/server.go:506-547 | whatever is published anywhere is what the publishing handler's current request asks for |
| Airport.BalanceIsDepth | airport/main.go:181-204 | events up to an instant, starts before ends, balance to the number of closed intervals containing it |
| Airport.CollectEvents | airport/main.go:181-204 | the events are those of the intervals of all flights whose time is known |
| Airport.SortEvents | airport/main.go:212-217 | the events are rearranged so that none comes before an earlier one, starts before ends at one instant |
| Airport.Sweep | airport/main.go:222-230 | the result is the greatest value the running counter shows |
| Airport.SweepIsDepth | airport/main.go:212-230 | that value is the greatest number of intervals sharing an instant |
| Airport.LowerBound | airport/main.go:206-211 | an assignment in which touching flights differ needs at least as many runways as share an instant |
| Airport.UpperBound | airport/main.go:206-211 | as many runways as the greatest depth are enough, with a constructed assignment |
| Airport.DepthIsMinimum | airport/main.go:219-232 | the greatest depth is the least number of runways that suffices |
| Airport.Admin | airport/main.go:181-232 | the printed number is the greatest number of flights whose windows, 5 minutes to either side of a departure and from 10 before to 5 after an arrival, share a minute; the flights can be scheduled on so many runways, and on no fewer |
| Airport.DepthIsUsing | airport/main.go:181-204 | how many intervals contain a minute is how many flights need a runway then |
| Airport.ScheduleNeeds | airport/main.go:206-211 | a schedule in which flights that need a runway in the same minute have different ones has at least as many runways as flights that do |
| Treasure.Judge.Ask | treasure-tracker/main_test.go:79-120 | one turn of the judge: closer, further or the same as the previous point by the exact Manhattan distance, and the game ends when won, out of range or out of queries |
| Treasure.CeilLog2IsLeast | treasure-tracker/main_test.go:51-57 | the rounded-up logarithm is the least exponent that covers the number |
| Treasure.FloorLog2IsGreatest | treasure-tracker/main_test.go:51-57 | the rounded-down logarithm is the greatest exponent whose power does not exceed the number |
| Treasure.BoundWithinLimit | treasure-tracker/main_test.go:53-57 | the search's bound never exceeds the judge's limit 3(floor(log2(nm))+2) |
| Treasure.StepTells | treasure-tracker/main.go:48-57 | two neighbouring points are never equally far, and the nearer one tells the side of the goal |
| Treasure.SameBranchStalls | treasure-tracker/main.go:80-88 | the branch for equal distances shrinks the interval iff at least three candidates are left |
| Treasure.Probe | treasure-tracker/main.go:39-53 | whenever (mid+1, .) is asked the judge's previous point is (mid, .), so the answer tells the side |
| Treasure.SearchAxis | treasure-tracker/main.go:28-94 | one axis is found with at most 2 ceil(log2 size) queries, all inside the ground, never taking the branch for equal distances |
| Treasure.FindTreasure | treasure-tracker/main.go:3-132 | the goal is found with at most 2 ceil(log2 n) + 2 ceil(log2 m) + 2 queries |
| Treasure.Play | treasure-tracker/main_test.go:64-126 | with the judge's own limit, 3(k+2) where 2^k is the greatest power of two not above nm, the game is won for every ground and every goal, within 2 ceil(log2 n) + 2 ceil(log2 m) + 2 queries |
| MiniRedis.LazyMatchesEager | mini-redis/main.go:154-374 | one operation gives the same reply and keeps the lazy and the eager cache indistinguishable |
| MiniRedis.LazyRefinesEager | mini-redis/main.go:154-374 | no sequence of operations under a non-decreasing clock tells them apart |
| MiniRedis.VictimExists | mini-redis/main.go:265-290 | with distinct stamps every non-empty cache has a least (gets, inserted) entry |
| MiniRedis.LazyKeepsInv | mini-redis/main.go:154-374 | keys never exceed the capacity and stamps stay distinct, whatever is done |
| MiniRedis.SetStores | mini-redis/main.go:196-240 | a Set stores value and deadline; a living key keeps its read count and its stamp, any other starts at no reads with a stamp above all |
| MiniRedis.GetReads | mini-redis/main.go:154-181 | a Get of a living key answers its value and counts one more read, any other is a miss; other keys stay as they are |
| MiniRedis.OthersStay | mini-redis/main.go:154-374 | no operation on other keys changes an entry as long as it stays in the cache |
| MiniRedis.WhoIsEvicted | mini-redis/main.go:222-290 | a living entry is lost, Clear apart, only to an Evict or to a Set of a new key in a full cache, and only the one read least and, among those, stored first |
| MiniRedis.EvictAndSize | mini-redis/main.go:316-374 | an Evict drops what is expired and exactly one living entry if there is one, the one read least and then stored first; Size counts the living ones |
| MiniRedis.LastSetAnswers | mini-redis/main.go:154-240 | a Get answers the value last set as long as the key was not evicted or cleared since, until its time to live is over, and misses from then on |
| MiniRedis.DB.constructor | mini-redis/main.go:121-143 | a new cache is empty, its capacity at least one |
| MiniRedis.DB.Get | mini-redis/main.go:154-181 | exactly the specified state change; the entry's own value and one more read for a key within its deadline, "expired" exactly for a key past it, "not found" for one that is not there |
| MiniRedis.DB.Set | mini-redis/main.go:196-240 | clean up, then update in place or make room and insert; afterwards the key's entry has the value and the deadline, with count and stamp kept or new, and every other entry that is left is what it was |
| MiniRedis.DB.CleanupExpired | mini-redis/main.go:244-257 | exactly the entries past their deadline go |
| MiniRedis.DB.EvictOneLocked | mini-redis/main.go:265-290 | the specified victim goes, in any map order |
| MiniRedis.DB.FindVictim | mini-redis/main.go:270-288 | the range over the map ends at the entry with the fewest reads and, among those, the smallest stamp |
| MiniRedis.DB.Size | mini-redis/main.go:316-328 | the number of live entries |
| MiniRedis.DB.Clear | mini-redis/main.go:339-352 | everything is gone and stamps start again |
| MiniRedis.DB.Evict | mini-redis/main.go:363-374 | clean up, then evict one |
| MiniRedis.Perform | mini-redis/main.go:154-374 | each call on the object is the specified operation and keeps the invariant |
| MiniRedis.PerformAll | mini-redis/main.go:121-374 | a new cache object answers every sequence of operations as if entries vanished on time, and as LastSetAnswers says |
| Transplant.FillAt | airplane-hangar/main.go:58-63 | the k-th missing slot in scan order gets the k-th donor entry, filled slots keep their part |
| Transplant.TransplantConserves | airplane-hangar/main.go:22-90 | every part sits in as many slots over both nests as before |
| Transplant.NoDoubles | airplane-hangar/main.go:22-90 | distinct parts stay in one slot each |
| Transplant.SameParts | airplane-hangar/main.go:22-90 | no part appears or disappears |
| Transplant.DistinctIsCountOne | airplane-hangar/main.go:22-90 | parts are pairwise distinct iff each is counted at most once |
| Transplant.MissingAfterFill | airplane-hangar/main.go:58-63 | how many slots stay missing, counting nil entries used up |
| Transplant.TransplantIsMaximal | airplane-hangar/main.go:12-35 | afterwards nothing is missing or nothing is left iff no nil was used up or only nils are left |
| Transplant.NilUsedUp | airplane-hangar/main.go:12-35 | one missing slot and a nil before the donor part: the nil is used up and the part stays behind |
| EngineMounts.MountingNext | airplane-hangar/main.go:104-118 | serving the next wing gives it the next queued engine if it has none, and clears that engine in the old nest |
| EngineMounts.EnginesConserved | airplane-hangar/main.go:94-120 | every engine is mounted as often over both nests as before the stage |
| EngineMounts.EnginesMaximal | airplane-hangar/main.go:94-120 | no engine is left on an old wing or every present new wing has one |
| EngineMounts.EnginesRide | airplane-hangar/main.go:58-73 | rearranging wings does not change how often an engine is mounted |
| Hangar.ClearCabin | airplane-hangar/main.go:29-34 | the search sets exactly the slot holding the moved cabin to nil |
| Hangar.FillCabin | airplane-hangar/main.go:23-36 | one new aircraft: a missing cabin takes the next entry, which is cleared in the old nest |
| Hangar.ClearPart | airplane-hangar/main.go:64-71 | the search over all old aircraft sets exactly the moved wing's slot to nil; the same for wheels (main.go:81-88) |
| Hangar.FillRack | airplane-hangar/main.go:58-73 | one aircraft's missing wings take the next entries in order; the same for wheels (main.go:75-90) |
| Hangar.RepairRack | airplane-hangar/main.go:58-90 | the slices of all aircraft so far are filled as if scanned in one list, each keeping its length |
| HangarRepair.CollectParts | airplane-hangar/main.go:11-20 | the three queues list the donor slots in scan order, nil slots included |
| HangarRepair.CollectEngines | airplane-hangar/main.go:94-101 | the queue lists the engines on the wings the old nest still has |
| HangarRepair.ClearEngine | airplane-hangar/main.go:110-117 | exactly the old wings holding the moved engine lose it |
| HangarRepair.MountEngine | airplane-hangar/main.go:105-117 | one new wing, on the heap, as the value step says |
| HangarRepair.RepairEngines | airplane-hangar/main.go:103-120 | all new wings are served in scan order while the wings stay where they are |
| HangarRepair.MoveAllParts | airplane-hangar/main.go:22-92 | cabins, wings and wheels of both nests end as filled and emptied, every slice as long as before |
| HangarRepair.MoveKeepsSlots | airplane-hangar/main.go:22-92 | aircraft by aircraft and slot by slot: filled new slots keep their part, old slots keep theirs or are nil |
| HangarRepair.MoveIsWell | airplane-hangar/main.go:22-92 | for one kind of part: conserved, no part in two slots, filled slots untouched, and maximal iff no nil was used up before a usable part |
| HangarRepair.EnginesAreRepaired | airplane-hangar/main.go:58-120 | over both stages engines are conserved, the k-th wing without an engine gets the k-th one left, wings that had one keep it, and the stage is maximal |
| HangarRepair.AllAreRepaired | airplane-hangar/main.go:10-121 | what the two stages amount to for all four kinds of parts, on values |
| HangarRepair.Repair | airplane-hangar/main.go:10-121 | for proper nests: the final place of every cabin, wing, wheel and engine, filled slots kept aircraft by aircraft; conservation, no doubles and exact maximality for each kind of part, conservation and maximality for engines |
| Milgram.ChooseNextFriend | milgram-experiment/main.go:17-30 | the loop computes the choice the walk is defined by |
| Milgram.ChoiceIsNearest | milgram-experiment/main.go:17-30 | the choice is the first friend of least wrapped distance; nobody iff every distance is the largest integer |
| Milgram.NothingWraps | milgram-experiment/main.go:21-23 | with coordinates below 2^30 the 64-bit distance is the true one |
| Milgram.NearestExactly | milgram-experiment/main.go:17-30 | every list of friends yields a truly nearest one iff no distance wraps to the largest integer and wrapping turns no two people round |
| Milgram.ChoosesTrulyNearest | milgram-experiment/main.go:17-30 | with coordinates below 2^30 and a friend, one of the friends is chosen and none is truly nearer |
| Milgram.FarFriendLooksNear | milgram-experiment/main.go:21-23 | an input where a friend 2^32 away beats one at distance 1 |
| Milgram.MilgramSimulator | milgram-experiment/main.go:32-54 | delivered with its count, undelivered, or panicking, exactly as the walk decides |
| Milgram.OneAnswer | milgram-experiment/main.go:32-54 | the walk determines the answer |
| Milgram.StrangersCounted | milgram-experiment/main.go:39-53 | the intermediates that are counted are the hops that ended at neither the sender nor the addressee |
| Milgram.NoRevisit | milgram-experiment/main.go:39-49 | a walk that arrives never visits anybody twice |
| Milgram.ReachedSoon | milgram-experiment/main.go:39-49 | whoever is reached at all is reached in fewer hops than there are people |
| Milgram.DeliveredSoon | milgram-experiment/main.go:32-54 | a delivered message took fewer hops than people, and intermediates is hops - 1 unless sent to oneself |
| Milgram.MoneyHardlyMatters | milgram-experiment/main.go:32-54 | more money never changes a delivered result, and one coin less than people already gives the result of any budget that delivers |
| Milgram.DeliveredIfReachable | milgram-experiment/main.go:32-54 | with one coin less than people, or more, a message is delivered iff the walk ever passes the addressee |
| Milgram.NoPanicExactly | milgram-experiment/main.go:43-48 | no message to somebody panics, at any budget, iff everybody else chooses somebody |
| Milgram.NeverPanics | milgram-experiment/main.go:17-54 | on the people given: iff everybody but the addressee has a friend below the largest integer; with coordinates below 2^30, iff they have a friend |
| Milgram.StuckSenderPanics | milgram-experiment/main.go:43-48 | a sender for whom nobody is chosen fails quietly with one coin and panics with two |
| Milgram.LonelySenderPanics | milgram-experiment/main.go:43-48 | an input that panics: a sender without friends and two coins |
| GameServer.ParseMake | game-server/main.go:203-212 | a packet is read back as meant iff the key has no zero byte, and is never malformed |
| GameServer.NewGame | game-server/main.go:29-74 | a game is made iff all ids are positive and different; the error is that of the first bad id |
| GameServer.MembersKept | game-server/main.go:136-172 | membership follows the switching call through every one of its steps |
| GameServer.LocksKept | game-server/main.go:136-172 | a map's lock is held by the switching call exactly in its section, by the fan-out exactly while it sends |
| GameServer.QueuesKept | game-server/main.go:198-231 | nothing is lost or reordered between a map's channel and its fan-outs |
| GameServer.StepKeepsInv | game-server/main.go:76-273 | every step of every goroutine keeps the whole invariant |
| GameServer.RunKeepsInv | game-server/main.go:76-273 | hence every state of every run satisfies it |
| GameServer.MembershipWhenFree | game-server/main.go:155-172 | while a map's lock is free a player is in it iff p.m says so iff p.zone says so |
| GameServer.NobodyInTwoMaps | game-server/main.go:155-163 | no player is ever in two maps |
| GameServer.RosterIsMembership | game-server/main.go:214-215 | a fan-out serves exactly those who were in the map when its lock was taken |
| GameServer.DeliveryReaches | game-server/main.go:215-229 | nobody leaves before being served: a delivery is skipped only for the named sender or a full channel, and then recorded |
| GameServer.RosterKept | game-server/main.go:214-230 | through every step, everybody on a roster is waiting his turn or has been served |
| GameServer.FanOutComplete | game-server/main.go:214-230 | whoever is not waiting is the named sender, has the mail, or had a full channel |
| GameServer.OwnPacketSkipped | game-server/main.go:218-219 | the sender is skipped iff his key has no zero byte |
| GameServer.NoEcho | game-server/main.go:218-219 | nobody with a zero-free key ever holds his own message |
| GameServer.EchoRun | game-server/main.go:203-229 | every key with a zero byte gets its own message back in some run from a new game |
| GameServer.EchoExactly | game-server/main.go:203-229 | a player's message can come back to him in a run from any new game iff his key has a zero byte |
| GameServer.EchoHappens | game-server/main.go:203-229 | an input on which it does: the name "a" with a zero byte |
| GameServer.InboxInOrder | game-server/main.go:198-231 | an inbox is an in-order selection of the fan-outs the player was on the roster of, with the text as sent |
| GameServer.AllFannedOut | game-server/main.go:201-209 | when a map's goroutine waits on an empty channel everything sent there was fanned out once, in order |
| GameServer.SomeoneCanMove | game-server/main.go:132-172 | no deadlock: while a switch, fan-out or packet is unfinished some step is enabled |
| GameServer.InternalStepDecreases | game-server/main.go:132-231 | every such step lowers a lexicographic measure, so no schedule goes on forever without new requests |
| GameServer.GameSettles | game-server/main.go:106-231 | from any reachable state a state is reached where the switch is done and everything sent was fanned out, in order, to its whole roster |
| GameServer.EveryScheduleSettles | game-server/main.go:106-231 | under every schedule that moves while anybody can, the game comes to rest with everything sent fanned out to its whole roster |
| CallTheorems.ChecksAreExact | game-server/main.go:116-130 | between calls the error is "map not found" iff the map is unknown, else "player not found" iff the player is, else "already there" iff he is in that map |
| CallTheorems.SwitchTakesEffect | game-server/main.go:106-175 | over its whole course, whatever others do, a call for a known player and map that he is not in moves him to that map, out of the old one, with zone and m both naming it and everybody else unmoved; any other call changes nothing and returns its error |
| CallTheorems.SendStores | game-server/main.go:238-272 | a message goes to the end of the channel of the sender's map, unless he has none or the channel holds 100 packets |
| CallTheorems.MessageArrives | game-server/main.go:198-272 | a message that found room has, when nobody can move any more, been fanned out in the map its sender was in to its whole roster |
| CallTheorems.ChannelIsQueue | game-server/main.go:215-229 | a player's channel is a queue of at most 100 mails: reading takes the oldest, a delivery may add one at the end if there is room, nothing else touches it |
| CallTheorems.ChannelsStayQueues | game-server/main.go:76-104 | so it is for every player in every run from a new game |
| CallTheorems.NewcomerIsNew | game-server/main.go:76-104 | players come in only by connecting, in no map and with an empty channel; connecting under a taken name changes nothing |
| Airpods.StreamKept | quli-airpods/main.go:233-252 | every byte goes to exactly the pods seen connected, in order, through every step |
| Airpods.StepKeepsInv | quli-airpods/main.go:131-253 | every step keeps the invariant |
| Airpods.NeverDisconnectedAgain | quli-airpods/main.go:206-232 | in every run, once ConnectBluetooth has passed a pod that pod is never Disconnected again |
| Airpods.UndockConnects | quli-airpods/main.go:131-161 | after that an undocking ends Connected, although it reads the flag without the case's lock |
| Airpods.StateChanges | quli-airpods/main.go:131-232 | docking, connecting and the end of an undocking are all that changes a pod's state, and how |
| Airpods.UndockOutcome | quli-airpods/main.go:131-161 | in every run an undocking keeps the pod docked until its last statement, which makes it Connected iff the flag was set when it was read |
| Airpods.NeverConnectedBefore | quli-airpods/main.go:131-232 | in every run no pod is Connected before a phone has connected |
| Airpods.OneConnect | quli-airpods/main.go:206-218 | at most one connect succeeds, and one has exactly if the flag is set |
| Airpods.TruesInOrder | quli-airpods/main.go:233-252 | the positions of connected looks are increasing and complete |
| Airpods.StreamInOrder | quli-airpods/main.go:233-252 | a pod's stream is an in-order selection of the phone's, between bytes exactly those it was seen connected for |
| Airpods.ChannelIsQueue | quli-airpods/main.go:233-252 | a pod's channel is a queue of at most 1024 bytes: listening takes the oldest, the forwarder adds the byte in its hand at the end, nothing else touches it |
| Airpods.SeenIsState | quli-airpods/main.go:235-241 | what the forwarder saw for a byte is the state the pod had when it looked with that byte in hand |
| Airpods.ForwardedIfConnected | quli-airpods/main.go:233-252 | in every run a forwarded byte is in a pod's stream iff the pod was Connected when the forwarder looked at it with that byte in hand |
| Airpods.SomeoneCanMove | quli-airpods/main.go:131-253 | whatever is unfinished can go on, except for sends into a full channel |
| Airpods.InternalStepDecreases | quli-airpods/main.go:131-253 | every step of an undocking, the connect or the forwarder takes exactly one off the work left |
| Airpods.EveryScheduleSettles | quli-airpods/main.go:131-253 | under every schedule undocking and connecting end, and forwarding ends with all bytes passed on or at a full channel |
| TikTak.StepKeepsInv | tiktak/main.go:19-33 | every step keeps whose turn it is and what has been printed |
| TikTak.OutputIsSong | tiktak/main.go:19-33 | in every reachable state the output is a prefix of (Tik Tak)^n, and all of it at the end |
| TikTak.ExactlyOneStep | tiktak/main.go:9-33 | before the end exactly one step is enabled and brings the end one step nearer; at the end none is |
| TikTak.EveryRunSings | tiktak/main.go:9-33 | in every run from NewTikTak the output is a prefix of (Tik Tak)^n and no run has more than five steps a round |
| TikTak.StopsWhenSung | tiktak/main.go:9-33 | a run cannot go on iff it has all five steps a round, and then both loops have ended with the whole output |
| TikTak.BothFinish | tiktak/main.go:19-33 | every run so far extends to one of full length, where both sides have finished |
| WorkDirs.WorkDir.CreateFile | tested/workdir/workdir.go:25-39 | a new empty file, or an error and no change |
| WorkDirs.WorkDir.CreateDir | tested/workdir/workdir.go:44-62 | a new directory, or the right error and no change |
| WorkDirs.WorkDir.WriteToFile | tested/workdir/workdir.go:66-78 | only an existing file is replaced |
| WorkDirs.WorkDir.AppendToFile | tested/workdir/workdir.go:149-159 | only an existing file is extended |
| WorkDirs.WorkDir.CatFile | tested/workdir/workdir.go:135-145 | the content, or an error for a missing file |
| WorkDirs.WorkDir.ListFilesRoot | tested/workdir/workdir.go:104-110 | all files, each once |
| WorkDirs.WorkDir.ListFilesIn | tested/workdir/workdir.go:115-131 | exactly the files below an existing directory, each once |
| WorkDirs.WorkDir.Clone | tested/workdir/workdir.go:83-100 | a fresh object with equal contents |
| VersionControl.DecimalValue | tested/commands/commands.go:220-226 | reading a number's decimal notation gives it back |
| VersionControl.ValueOfDigits | tested/commands/commands.go:220-226 | exactly the strings of digits have a value, and leading zeros do not matter to it |
| VersionControl.DigitsAreDecimal | tested/commands/commands.go:220-226 | a string of digits that does not start with 0 is the decimal notation of its value |
| VersionControl.WhichError | tested/commands/commands.go:207-247 | which error each malformed or too far reaching reference gives, and which commit every other one names |
| VersionControl.TildeIsCarets | tested/commands/commands.go:216-247 | ~N and N carets name the same commit, the N-th back, or both fail |
| VersionControl.NoSteps | tested/commands/commands.go:230-238 | ~0 is the latest commit while no carets at all is an error |
| VersionControl.EditShows | tested/commands/commands.go:94-124 | after staging everything an edit shows iff it changes the file and does not restore the committed content |
| VersionControl.VC.Status | tested/commands/commands.go:66-128 | the staged files and those that differ from the last commit and are not staged as they are, each once; empty before the first commit |
| VersionControl.VC.ChangedSince | tested/commands/commands.go:91-106 | exactly the files new or different since the snapshot |
| VersionControl.VC.AddAll | tested/commands/commands.go:134-142 | every file is staged as it is |
| VersionControl.VC.Add | tested/commands/commands.go:165-172 | exactly the existing paths are staged as they are |
| VersionControl.VC.Commit | tested/commands/commands.go:148-160 | history grows by the live contents, staging is cleared, the snapshot is a fresh object |
| VersionControl.VC.Log | tested/commands/commands.go:176-190 | the messages, latest first |
| VersionControl.VC.Checkout | tested/commands/commands.go:207-253 | a fresh copy of the commit the reference names, or an error: which one is decided by the characters of the reference |
| VersionControl.StatusAfterCommit | tested/commands/commands.go:66-160 | right after a commit the report is empty |
| VersionControl.StatusAfterAddAll | tested/commands/commands.go:66-142 | right after AddAll, with a commit, nothing is modified and every file is staged |
| VersionControl.Perform | tested/commands/commands.go:134-253 | one operation: history grows only at its end and only the directory written to changes; a checkout adds an independent copy |
| VersionControl.PerformAll | tested/commands/commands.go:134-253 | through any sequence of operations, on any directories clients hold, each history is a prefix of every later one: no commit ever changes, those made on the way included |
| School.ClassChecksAreExact | old-school/handlers.go:195-277 | a class is accepted iff it is named and its row keeps the tables valid |
| School.EnrolmentChecksAreExact | old-school/handlers.go:361-483 | an enrolment is accepted iff it is new and its row keeps the tables valid |
| School.HandleKeepsValid | old-school/handlers.go:12-629 | every request keeps: references exist, nobody teaches and attends, each student has one school |
| School.RunKeepsValid | old-school/handlers.go:12-629 | so does every sequence of requests |
| School.RunGrows | old-school/handlers.go:12-629 | rows are only added and ids keep their meaning |
| School.RolesAreForever | old-school/handlers.go:259-265 | whoever teaches can never attend later, and the other way round |
| School.WhoAmIListsAll | old-school/handlers.go:552-629 | the answer is the ascending list of all classes the person teaches or attends |
| School.EnrolmentAnswersAll | old-school/handlers.go:509-549 | the answer to an enrolment lists all the student's classes, ascending, the new one included |
| School.AnswersLast | old-school/handlers.go:12-550 | whatever id and fields a creation or enrolment answered stand in the tables under that id after any later requests |
| School.WhoAmIShowsCreated | old-school/handlers.go:171-629 | a created class is in every later answer to its teacher's WhoAmI, an enrolment in every later answer to the student's |
| School.IdsRise | old-school/handlers.go:12-299 | of two creations of one kind the later one has the larger id |
| School.ClassReasons | old-school/handlers.go:196-268 | which reason a class creation is refused for: the first check, in the code's order, that fails |
| School.EnrolmentReasons | old-school/handlers.go:361-483 | which reason an enrolment is refused for |
| School.TaughtIdsAre | old-school/handlers.go:632-648 | the teacher query yields exactly the taught classes in ascending order |
| School.AttendedIdsAre | old-school/handlers.go:651-667 | the student query yields exactly the attended classes in ascending order |
| School.Server.HandleCreateSchool | old-school/handlers.go:12-116 | a named school is appended and answered with its position as id; without a name nothing changes |
| School.Server.HandleCreatePerson | old-school/handlers.go:118-169 | the same for people |
| School.Server.HandleCreateClass | old-school/handlers.go:171-299 | the code's errors in the code's order; on acceptance exactly the requested row is appended and answered, with its position as id and the teacher's name, on failure nothing changes; tables stay valid, and a class is accepted iff it is named and its row keeps them so |
| School.Server.HandleAddStudentToClass | old-school/handlers.go:301-550 | the code's errors in the code's order; on acceptance exactly the requested row is added, on failure nothing changes; tables stay valid, an enrolment is accepted iff it is new and its row keeps them so, and the answer lists all the student's classes |
| School.Server.HandleWhoAmI | old-school/handlers.go:552-629 | the handler's two queries give the ascending list of all classes the person takes part in |
| School.Serve | old-school/handlers.go:12-667 | a new server answers any sequence of requests as specified and ends with valid tables; every answered id and its fields are in the final tables, and a created class is in its teacher's later WhoAmI |

## Left out

- Broker shutdown (`Run`, `Stop`, `stopCh`): all broker properties are about runs before shutdown; a connection accepted around the client snapshot may be missed, so nothing is claimed about it.
- Broker requests: JSON, missing-field errors, sockets, the `clients` registry and reuse of client ids; a message's UUID is a number chosen by the environment; `Send` is an event in the log and its errors are ignored, as in the code. Every `Send` is taken to return: the code writes without a deadline, and all theorems about settling rely on that.
- Message sequence numbers are unbounded, so the wrap of the 64-bit counter is not modelled; the same holds for the uint64 counters of mini-redis.
- airport: parsing, the city branch and the flight times in the air; instants are whole minutes.
- Airport.SortEvents: insertion sort stands in for the library's `sort.Slice`; only the sorted rearrangement matters.
- treasure-tracker: the judge computes its limit and its distances in floating point; the model uses exact integers. Type errors on the channel cannot occur in the model.
- mini-redis: values are strings, clock readings are parameters (two for `Set`, as in the code), and the product of a lifetime with a second does not overflow.
- airplane-hangar: a slice is an array of its own; two slices that share a backing array are not considered.
- milgram: input parsing, the average that is printed, and the verdict about the world.
- game-server: letter case and the display name are part of the text; `GetPlayer`, `GetMap` and the channel getters are plain reads; `SendMessage`'s check and send are one step, which loses nothing because a player's map never becomes nil again.
- game-server: waiting callers of `SwitchPlayerMap` and `ConnectPlayer` are not kept in the state; they can enter whenever the game's lock is free.
- quli-airpods: `GetState` and the channel getters are plain reads; a closed phone channel just stops supplying bytes.
- tested: error texts; that a path is never both a file and a directory is not claimed, because `CreateFile` does not look at directories.
- old-school: JSON payloads, database failures and SQLite's own foreign keys; handlers are atomic, so `CreateClass` interleaved with an enrolment is not modelled. `Start`, `Stop` and the TCP loop are left out.
- Not modelled at all: banking, phone book, calculators, text editor, store manager, thermostat, junk-shop queue, library code and the web clients.
