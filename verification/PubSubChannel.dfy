/** Local delivery of messages: a bounded queue with an eventfd counter from each publisher to the
    master, and one from the master to each subscriber (src/Node/include/hmw/Publisher.hpp,
    src/Master/src/shm/Publish.cpp, src/Master/src/shm/Subscribe.cpp,
    src/Node/include/hmw/Subscriber.hpp).
 */
module PubSubChannels {
  import opened Basics

  const QUEUE_SIZE := 10

  /** Messages come from a publisher of this host or, through transferInnerMessage, from another. */
  datatype Source = Local(pub: nat) | Remote(topic: string)

  /** Message number `index` of its publisher; messages of other hosts are not numbered. */
  datatype Item = Item(source: Source, index: nat, data: string)

  /* ---- one queue with its counter ---- */

  /** `owed` is the value of the last eventfd read minus the pops made since; `between` holds from
      the push of the producer to its write to the eventfd. */
  datatype Stage = Stage(queue: seq<Item>, counter: nat, owed: nat, between: bool, pushed: seq<Item>, popped: seq<Item>)

  const EMPTY := Stage([], 0, 0, false, [], [])

  /** The producer pushes unless the queue is full. */
  function Push(s: Stage, x: Item): Stage {
    if |s.queue| >= QUEUE_SIZE then s else s.(queue := s.queue + [x], between := true, pushed := s.pushed + [x])
  }

  function Signal(s: Stage): Stage {
    s.(counter := s.counter + 1, between := false)
  }

  /** Reading an eventfd returns the counter and resets it. */
  function Read(s: Stage): Stage {
    s.(owed := s.counter, counter := 0)
  }

  /** A pop from an empty queue fails and yields nothing. */
  function Pop(s: Stage): Stage {
    if s.queue == [] then s.(owed := if s.owed == 0 then 0 else s.owed - 1)
    else s.(queue := s.queue[1..], owed := if s.owed == 0 then 0 else s.owed - 1, popped := s.popped + [s.queue[0]])
  }

  predicate Balanced(s: Stage) {
    && |s.queue| == s.counter + s.owed + (if s.between then 1 else 0)
    && s.pushed == s.popped + s.queue && |s.queue| <= QUEUE_SIZE
  }

  lemma PushKeeps(s: Stage, x: Item)
    requires Balanced(s) && !s.between
    ensures Balanced(Push(s, x))
  {
    assert s.popped + (s.queue + [x]) == (s.popped + s.queue) + [x];
  }

  lemma PopKeeps(s: Stage)
    requires Balanced(s) && s.owed > 0
    ensures s.queue != [] && Balanced(Pop(s)) && Pop(s).popped == s.popped + [s.queue[0]]
  {
    assert s.popped + s.queue == (s.popped + [s.queue[0]]) + s.queue[1..];
  }

  /** Nothing is signalled, owed or half pushed. */
  predicate Quiet(s: Stage) {
    s.counter == 0 && s.owed == 0 && !s.between
  }

  /* ---- the processes as they are written ---- */

  class SharedQueue {
    var queue: seq<Item>
    var counter: nat
    ghost var owed: nat
    ghost var pushed: seq<Item>
    ghost var popped: seq<Item>

    ghost function View(): Stage
      reads this
    {
      Stage(queue, counter, owed, false, pushed, popped)
    }

    constructor ()
      ensures View() == EMPTY
    {
      queue, counter, owed, pushed, popped := [], 0, 0, [], [];
    }

    /** Publisher::publish looks for room before it pushes. */
    method Publish(message: Item)
      modifies this
      ensures View() == if |old(queue)| < QUEUE_SIZE then Signal(Push(old(View()), message)) else old(View())
    {
      var writeAvailable := QUEUE_SIZE - |queue|;
      if writeAvailable > 0 {
        queue, pushed := queue + [message], pushed + [message];
        counter := counter + 1;
      }
    }

    /** Subscribe::publish2Node looks at the result of the push. */
    method Publish2Node(message: Item)
      modifies this
      ensures View() == if |old(queue)| < QUEUE_SIZE then Signal(Push(old(View()), message)) else old(View())
    {
      var done := TryPush(message);
      if done {
        counter := counter + 1;
      }
    }

    method TryPush(message: Item) returns (done: bool)
      modifies `queue, `pushed
      ensures done == (|old(queue)| < QUEUE_SIZE)
      ensures queue == if done then old(queue) + [message] else old(queue)
      ensures pushed == if done then old(pushed) + [message] else old(pushed)
    {
      done := |queue| < QUEUE_SIZE;
      if done {
        queue, pushed := queue + [message], pushed + [message];
      }
    }

    /** onEventfdRead of the master and onRead of the subscriber: as many pops as were counted,
        none of which fails. */
    method OnEventfdRead() returns (messages: seq<Item>)
      requires Balanced(View()) && owed == 0
      modifies this
      ensures Balanced(View()) && owed == 0 && counter == 0 && queue == []
      ensures messages == old(queue) && popped == old(popped) + messages && pushed == old(pushed)
    {
      var value := counter;
      counter, owed, messages := 0, value, [];
      for i := 0 to value
        invariant Balanced(View()) && owed == value - i && counter == 0 && pushed == old(pushed)
        invariant messages + queue == old(queue) && popped == old(popped) + messages
      {
        PopKeeps(View());
        messages, popped := messages + [queue[0]], popped + [queue[0]];
        queue, owed := queue[1..], owed - 1;
      }
    }
  }

  /* ---- all processes together ---- */

  /** `reading`: the master reads the eventfd whenever it is not draining the queue. */
  datatype Pub = Pub(topic: string, reading: bool, offers: seq<string>, stage: Stage)

  /** `listed`: m_subscribes has the subscription under its topic. */
  datatype Sub = Sub(topic: string, listed: bool, stage: Stage)

  /** The master runs one handler at a time: it drains one publisher, delivers one message from another
      host, or adds or removes a publisher or subscriber. Reads complete at any time, so several
      publishers may wait to be drained. `todo` lists the subscribers still to be served with the
      message in hand. Objects stay in the maps for ever; new ones get new numbers. */
  datatype System = System(pubs: map<nat, Pub>, subs: map<nat, Sub>,
    draining: Option<nat>, hand: Option<Item>, todo: seq<nat>)

  datatype Event =
    | Offer(pub: nat, data: string)
    | PubSignal(pub: nat)
    | Attach(pub: nat, topic: string)
    | Detach(pub: nat)
    | MasterRead(pub: nat)
    | MasterTake(pub: nat)
    | MasterPop(order: seq<nat>)
    | MasterInner(topic: string, text: string, order: seq<nat>)
    | MasterPush
    | MasterSignal
    | MasterNext
    | SubRead(sub: nat)
    | SubPop(sub: nat)
    | Subscribe(sub: nat, topic: string)
    | Unsubscribe(sub: nat)

  predicate AllDifferent(order: seq<nat>) {
    forall i, j :: 0 <= i < j < |order| ==> order[i] != order[j]
  }

  /** The entries of m_subscribes under a topic. */
  predicate Subscribers(c: System, topic: string, order: seq<nat>) {
    && AllDifferent(order) && (forall s :: s in order ==> s in c.subs)
    && forall s :: s in c.subs ==> (s in order <==> c.subs[s].listed && c.subs[s].topic == topic)
  }

  predicate Idle(c: System) {
    c.draining.None? && c.hand.None?
  }

  predicate Serving(c: System) {
    c.hand.Some? && c.todo != [] && c.todo[0] in c.subs
  }

  predicate Enabled(c: System, e: Event) {
    match e
    case Offer(p, _) => p in c.pubs && !c.pubs[p].stage.between
    case PubSignal(p) => p in c.pubs && c.pubs[p].stage.between
    case Attach(p, _) => Idle(c) && p !in c.pubs
    case Detach(p) => Idle(c) && p in c.pubs
    case MasterRead(p) =>
      && p in c.pubs && c.pubs[p].reading && c.draining != Some(p)
      && c.pubs[p].stage.counter > 0 && c.pubs[p].stage.owed == 0
    case MasterTake(p) => Idle(c) && p in c.pubs && c.pubs[p].stage.owed > 0
    case MasterPop(order) =>
      && c.draining.Some? && c.hand.None? && c.draining.value in c.pubs && c.pubs[c.draining.value].stage.owed > 0
      && Subscribers(c, c.pubs[c.draining.value].topic, order)
    case MasterInner(topic, _, order) => Idle(c) && Subscribers(c, topic, order)
    case MasterPush => Serving(c) && !c.subs[c.todo[0]].stage.between
    case MasterSignal => Serving(c) && c.subs[c.todo[0]].stage.between
    case MasterNext => c.hand.Some? && c.todo == []
    case SubRead(s) => s in c.subs && c.subs[s].stage.counter > 0 && c.subs[s].stage.owed == 0
    case SubPop(s) => s in c.subs && c.subs[s].stage.owed > 0
    case Subscribe(s, _) => Idle(c) && s !in c.subs
    case Unsubscribe(s) => Idle(c) && s in c.subs
  }

  function WithPub(c: System, p: nat, stage: Stage): System
    requires p in c.pubs
  {
    c.(pubs := c.pubs[p := c.pubs[p].(stage := stage)])
  }

  function WithSub(c: System, s: nat, stage: Stage): System
    requires s in c.subs
  {
    c.(subs := c.subs[s := c.subs[s].(stage := stage)])
  }

  /** Publish::cancel aborts the read under way. A read that has completed is still handled, and its
      handler then starts the next one. */
  function Cancelled(pub: Pub): Pub {
    pub.(reading := pub.reading && pub.stage.owed > 0)
  }

  function Step(c: System, e: Event): System
    requires Enabled(c, e)
  {
    match e
    case Offer(p, data) =>
      var pub := c.pubs[p];
      c.(pubs := c.pubs[p := pub.(offers := pub.offers + [data],
        stage := Push(pub.stage, Item(Local(p), |pub.offers|, data)))])
    case PubSignal(p) => WithPub(c, p, Signal(c.pubs[p].stage))
    case Attach(p, topic) => c.(pubs := c.pubs[p := Pub(topic, true, [], EMPTY)])
    case Detach(p) => c.(pubs := c.pubs[p := Cancelled(c.pubs[p])])
    case MasterRead(p) => WithPub(c, p, Read(c.pubs[p].stage))
    case MasterTake(p) => c.(draining := Some(p))
    case MasterPop(order) =>
      var s := c.pubs[c.draining.value].stage;
      var item := if s.queue == [] then Item(Remote(""), 0, "") else s.queue[0];
      WithPub(c, c.draining.value, Pop(s)).(hand := Some(item), todo := order)
    case MasterInner(topic, text, order) => c.(hand := Some(Item(Remote(topic), 0, text)), todo := order)
    case MasterPush =>
      var s := c.subs[c.todo[0]].stage;
      if |s.queue| >= QUEUE_SIZE then c.(todo := c.todo[1..]) else WithSub(c, c.todo[0], Push(s, c.hand.value))
    case MasterSignal => WithSub(c, c.todo[0], Signal(c.subs[c.todo[0]].stage)).(todo := c.todo[1..])
    case MasterNext =>
      var more := c.draining.Some? && c.draining.value in c.pubs && c.pubs[c.draining.value].stage.owed > 0;
      c.(hand := None, draining := if more then c.draining else None)
    case SubRead(s) => WithSub(c, s, Read(c.subs[s].stage))
    case SubPop(s) => WithSub(c, s, Pop(c.subs[s].stage))
    case Subscribe(s, topic) => c.(subs := c.subs[s := Sub(topic, true, EMPTY)])
    case Unsubscribe(s) => c.(subs := c.subs[s := c.subs[s].(listed := false)])
  }

  const INITIAL := System(map[], map[], None, None, [])

  ghost predicate IsRun(events: seq<Event>, c: System)
    decreases |events|
  {
    if events == [] then c == INITIAL
    else
      var e := events[|events| - 1];
      exists b :: IsRun(events[..|events| - 1], b) && Enabled(b, e) && c == Step(b, e)
  }

  /* ---- what every step keeps ---- */

  predicate ItemOf(p: nat, pub: Pub, x: Item) {
    x.source == Local(p) && x.index < |pub.offers| && x.data == pub.offers[x.index]
  }

  /** Messages of one local source appear in the order of their numbers, without repetition. */
  predicate InOrder(items: seq<Item>) {
    forall k, l :: 0 <= k < l < |items| && items[k].source.Local? && items[l].source == items[k].source
      ==> items[k].index < items[l].index
  }

  predicate PubRight(p: nat, pub: Pub) {
    Balanced(pub.stage) && InOrder(pub.stage.pushed) && forall x :: x in pub.stage.pushed ==> ItemOf(p, pub, x)
  }

  /** The master has taken the message from its publisher. */
  predicate Taken(pubs: map<nat, Pub>, x: Item) {
    x.source.Local? ==> x.source.pub in pubs && x in pubs[x.source.pub].stage.popped
  }

  predicate SubRight(pubs: map<nat, Pub>, sub: Sub) {
    Balanced(sub.stage) && InOrder(sub.stage.pushed) && forall x :: x in sub.stage.pushed ==> Taken(pubs, x)
  }

  /** Nothing in the list is as late as `item`. */
  predicate Earlier(items: seq<Item>, item: Item) {
    forall x :: x in items && x.source == item.source && item.source.Local? ==> x.index < item.index
  }

  predicate LastTaken(pubs: map<nat, Pub>, x: Item) {
    x.source.Local? ==>
      && x.source.pub in pubs && pubs[x.source.pub].stage.popped != []
      && pubs[x.source.pub].stage.popped[|pubs[x.source.pub].stage.popped| - 1] == x
  }

  predicate Waiting(c: System, item: Item, i: nat)
    requires i < |c.todo|
  {
    var s := c.todo[i];
    s in c.subs && (c.subs[s].stage.between ==> i == 0)
    && (!c.subs[s].stage.between ==> Earlier(c.subs[s].stage.pushed, item))
  }

  predicate HandRight(c: System) {
    c.hand.Some? ==>
      && LastTaken(c.pubs, c.hand.value) && AllDifferent(c.todo)
      && forall i :: 0 <= i < |c.todo| ==> Waiting(c, c.hand.value, i)
  }

  /** Only the subscriber being served can be between push and signal. */
  predicate Signalled(c: System) {
    forall s :: s in c.subs && c.subs[s].stage.between ==> c.hand.Some? && c.todo != [] && c.todo[0] == s
  }

  predicate Right(c: System) {
    && (forall p :: p in c.pubs ==> PubRight(p, c.pubs[p]))
    && (forall s :: s in c.subs ==> SubRight(c.pubs, c.subs[s]))
    && HandRight(c) && Signalled(c)
  }

  lemma InOrderSnoc(items: seq<Item>, x: Item)
    requires InOrder(items) && Earlier(items, x)
    ensures InOrder(items + [x])
  {
  }

  lemma OfferKeeps(p: nat, pub: Pub, data: string)
    requires PubRight(p, pub) && !pub.stage.between
    ensures PubRight(p, pub.(offers := pub.offers + [data],
      stage := Push(pub.stage, Item(Local(p), |pub.offers|, data))))
  {
    var x := Item(Local(p), |pub.offers|, data);
    var pub' := pub.(offers := pub.offers + [data], stage := Push(pub.stage, x));
    PushKeeps(pub.stage, x);
    forall y | y in pub.stage.pushed ensures ItemOf(p, pub', y) && y.index < x.index {
      assert ItemOf(p, pub, y);
    }
    InOrderSnoc(pub.stage.pushed, x);
  }

  /** What the publisher pushes next does not disturb what has been taken. */
  predicate TakesMore(pubs: map<nat, Pub>, later: map<nat, Pub>) {
    forall p :: p in pubs ==> p in later && pubs[p].stage.popped <= later[p].stage.popped
  }

  lemma TakenStays(pubs: map<nat, Pub>, later: map<nat, Pub>, sub: Sub)
    requires TakesMore(pubs, later) && SubRight(pubs, sub)
    ensures SubRight(later, sub)
  {
    forall x | x in sub.stage.pushed ensures Taken(later, x) {
      assert Taken(pubs, x);
    }
  }

  /** A step of a publisher. */
  lemma PubStepKeeps(c: System, p: nat, pub: Pub)
    requires Right(c) && p in c.pubs && PubRight(p, pub) && pub.stage.popped == c.pubs[p].stage.popped
    ensures Right(c.(pubs := c.pubs[p := pub]))
  {
    var d := c.(pubs := c.pubs[p := pub]);
    forall s | s in d.subs ensures SubRight(d.pubs, d.subs[s]) {
      TakenStays(c.pubs, d.pubs, c.subs[s]);
    }
    if d.hand.Some? {
      forall i | 0 <= i < |d.todo| ensures Waiting(d, d.hand.value, i) {
        assert Waiting(c, c.hand.value, i);
      }
    }
  }

  /** Everything that was taken before the head of the queue is earlier than it. */
  lemma HeadIsLater(p: nat, pub: Pub, x: Item)
    requires PubRight(p, pub) && pub.stage.queue != [] && x in pub.stage.popped
    ensures x.source == pub.stage.queue[0].source == Local(p) && x.index < pub.stage.queue[0].index
  {
    var s := pub.stage;
    var k :| 0 <= k < |s.popped| && s.popped[k] == x;
    assert s.pushed[k] == x && s.pushed[|s.popped|] == s.queue[0];
    assert ItemOf(p, pub, s.pushed[k]) && ItemOf(p, pub, s.pushed[|s.popped|]);
  }

  lemma MasterPopKeeps(c: System, order: seq<nat>)
    requires Right(c) && Enabled(c, MasterPop(order))
    ensures Right(Step(c, MasterPop(order))) && c.pubs[c.draining.value].stage.queue != []
  {
    var p, d := c.draining.value, Step(c, MasterPop(order));
    var pub := c.pubs[p];
    assert PubRight(p, pub);
    PopKeeps(pub.stage);
    var item := pub.stage.queue[0];
    assert pub.stage.pushed[|pub.stage.popped|] == item;
    assert ItemOf(p, pub, item);
    forall q | q in d.pubs ensures PubRight(q, d.pubs[q]) {
      assert PubRight(q, c.pubs[q]);
      forall x | x in d.pubs[q].stage.pushed ensures ItemOf(q, d.pubs[q], x) {
        assert ItemOf(q, c.pubs[q], x);
      }
    }
    forall s | s in d.subs ensures SubRight(d.pubs, d.subs[s]) {
      TakenStays(c.pubs, d.pubs, c.subs[s]);
    }
    forall i | 0 <= i < |order| ensures Waiting(d, item, i) {
      var stage := c.subs[order[i]].stage;
      forall x | x in stage.pushed && x.source == item.source ensures x.index < item.index {
        assert Taken(c.pubs, x);
        HeadIsLater(p, pub, x);
      }
    }
  }

  lemma MasterPushKeeps(c: System)
    requires Right(c) && Enabled(c, MasterPush)
    ensures Right(Step(c, MasterPush))
  {
    var s, item, d := c.todo[0], c.hand.value, Step(c, MasterPush);
    var stage := c.subs[s].stage;
    assert Waiting(c, item, 0) && SubRight(c.pubs, c.subs[s]);
    if |stage.queue| >= QUEUE_SIZE {
      forall i | 0 <= i < |d.todo| ensures Waiting(d, item, i) {
        assert Waiting(c, item, i + 1);
      }
    } else {
      PushKeeps(stage, item);
      InOrderSnoc(stage.pushed, item);
      forall t | t in d.subs ensures SubRight(d.pubs, d.subs[t]) {
        assert SubRight(c.pubs, c.subs[t]);
        forall x | x in d.subs[t].stage.pushed ensures Taken(d.pubs, x) {
          assert x in c.subs[t].stage.pushed ==> Taken(c.pubs, x);
        }
      }
      forall i | 0 <= i < |d.todo| ensures Waiting(d, item, i) {
        assert Waiting(c, item, i);
      }
    }
  }

  lemma MasterSignalKeeps(c: System)
    requires Right(c) && Enabled(c, MasterSignal)
    ensures Right(Step(c, MasterSignal))
  {
    var s, item, d := c.todo[0], c.hand.value, Step(c, MasterSignal);
    forall t | t in d.subs ensures SubRight(d.pubs, d.subs[t]) {
      assert SubRight(c.pubs, c.subs[t]);
      forall x | x in d.subs[t].stage.pushed ensures Taken(d.pubs, x) {
        assert x in c.subs[t].stage.pushed && Taken(c.pubs, x);
      }
    }
    forall i | 0 <= i < |d.todo| ensures Waiting(d, item, i) {
      assert Waiting(c, item, i + 1);
    }
  }

  /** A step of a subscriber. */
  lemma SubStepKeeps(c: System, s: nat, stage: Stage)
    requires Right(c) && s in c.subs && Balanced(stage)
    requires stage.pushed == c.subs[s].stage.pushed && stage.between == c.subs[s].stage.between
    ensures Right(WithSub(c, s, stage))
  {
    var d := WithSub(c, s, stage);
    forall t | t in d.subs ensures SubRight(d.pubs, d.subs[t]) {
      assert SubRight(c.pubs, c.subs[t]);
      forall x | x in d.subs[t].stage.pushed ensures Taken(d.pubs, x) {
        assert x in c.subs[t].stage.pushed && Taken(c.pubs, x);
      }
    }
    if d.hand.Some? {
      forall i | 0 <= i < |d.todo| ensures Waiting(d, d.hand.value, i) {
        assert Waiting(c, c.hand.value, i);
      }
    }
  }

  lemma StepKeeps(c: System, e: Event)
    requires Right(c) && Enabled(c, e)
    ensures Right(Step(c, e))
  {
    match e
    case Offer(p, data) =>
      OfferKeeps(p, c.pubs[p], data);
      var pub := c.pubs[p];
      PubStepKeeps(c, p, pub.(offers := pub.offers + [data],
        stage := Push(pub.stage, Item(Local(p), |pub.offers|, data))));
    case PubSignal(p) => SameItemsKeep(c, p, Signal(c.pubs[p].stage));
    case Attach(p, topic) => AttachKeeps(c, p, topic);
    case Detach(p) =>
      assert PubRight(p, c.pubs[p]);
      SamePubKeeps(c, p, Cancelled(c.pubs[p]));
    case MasterRead(p) =>
      assert PubRight(p, c.pubs[p]);
      SameItemsKeep(c, p, Read(c.pubs[p].stage));
    case MasterTake(p) =>
    case MasterPop(order) => MasterPopKeeps(c, order);
    case MasterInner(topic, text, order) => MasterInnerKeeps(c, topic, text, order);
    case MasterPush => MasterPushKeeps(c);
    case MasterSignal => MasterSignalKeeps(c);
    case MasterNext =>
    case SubRead(s) => SubStepKeeps(c, s, Read(c.subs[s].stage));
    case SubPop(s) =>
      assert SubRight(c.pubs, c.subs[s]);
      PopKeeps(c.subs[s].stage);
      SubStepKeeps(c, s, Pop(c.subs[s].stage));
    case Subscribe(s, topic) => SubscribeKeeps(c, s, Sub(topic, true, EMPTY));
    case Unsubscribe(s) =>
      assert SubRight(c.pubs, c.subs[s]);
      SubscribeKeeps(c, s, c.subs[s].(listed := false));
  }

  lemma MasterInnerKeeps(c: System, topic: string, text: string, order: seq<nat>)
    requires Right(c) && Enabled(c, MasterInner(topic, text, order))
    ensures Right(Step(c, MasterInner(topic, text, order)))
  {
  }

  lemma SubscribeKeeps(c: System, s: nat, sub: Sub)
    requires Right(c) && Idle(c) && SubRight(c.pubs, sub) && !sub.stage.between
    ensures Right(c.(subs := c.subs[s := sub]))
  {
  }

  lemma SameItemsKeep(c: System, p: nat, stage: Stage)
    requires Right(c) && p in c.pubs && Balanced(stage)
    requires stage.pushed == c.pubs[p].stage.pushed && stage.popped == c.pubs[p].stage.popped
    ensures Right(WithPub(c, p, stage))
  {
    SamePubKeeps(c, p, c.pubs[p].(stage := stage));
  }

  /** A publisher whose messages stay as they are. */
  lemma SamePubKeeps(c: System, p: nat, pub: Pub)
    requires Right(c) && p in c.pubs && Balanced(pub.stage) && pub.offers == c.pubs[p].offers
    requires pub.stage.pushed == c.pubs[p].stage.pushed && pub.stage.popped == c.pubs[p].stage.popped
    ensures Right(c.(pubs := c.pubs[p := pub]))
  {
    assert PubRight(p, c.pubs[p]);
    forall x | x in pub.stage.pushed ensures ItemOf(p, pub, x) {
      assert ItemOf(p, c.pubs[p], x);
    }
    PubStepKeeps(c, p, pub);
  }

  lemma AttachKeeps(c: System, p: nat, topic: string)
    requires Right(c) && Enabled(c, Attach(p, topic))
    ensures Right(Step(c, Attach(p, topic)))
  {
    var d := Step(c, Attach(p, topic));
    forall s | s in d.subs ensures SubRight(d.pubs, d.subs[s]) {
      TakenStays(c.pubs, d.pubs, c.subs[s]);
    }
  }

  lemma {:induction false} RunRight(events: seq<Event>, c: System)
    requires IsRun(events, c)
    ensures Right(c)
    decreases |events|
  {
    if events != [] {
      var e := events[|events| - 1];
      var b :| IsRun(events[..|events| - 1], b) && Enabled(b, e) && c == Step(b, e);
      RunRight(events[..|events| - 1], b);
      StepKeeps(b, e);
    }
  }

  /** In every interleaving the length of a queue is the counter, plus the pops still owed, plus
      one between push and signal; so no pop ever finds its queue empty. */
  lemma NoPopFails(events: seq<Event>, c: System)
    requires IsRun(events, c)
    ensures forall p :: p in c.pubs ==>
      Balanced(c.pubs[p].stage) && (c.pubs[p].stage.owed > 0 ==> c.pubs[p].stage.queue != [])
    ensures forall s :: s in c.subs ==>
      Balanced(c.subs[s].stage) && (c.subs[s].stage.owed > 0 ==> c.subs[s].stage.queue != [])
  {
    RunRight(events, c);
    forall p | p in c.pubs ensures Balanced(c.pubs[p].stage) {
      assert PubRight(p, c.pubs[p]);
    }
    forall s | s in c.subs ensures Balanced(c.subs[s].stage) {
      assert SubRight(c.pubs, c.subs[s]);
    }
  }

  /** In every run what a publisher or the master has pushed and the other end has not yet popped is
      exactly the queue, and there is nothing of it just when nothing is signalled, owed or half pushed. */
  lemma QuietIffDelivered(events: seq<Event>, c: System)
    requires IsRun(events, c)
    ensures forall p :: p in c.pubs ==> Quiet(c.pubs[p].stage) == (c.pubs[p].stage.popped == c.pubs[p].stage.pushed)
    ensures forall s :: s in c.subs ==> Quiet(c.subs[s].stage) == (c.subs[s].stage.popped == c.subs[s].stage.pushed)
  {
    NoPopFails(events, c);
    forall p | p in c.pubs
      ensures Quiet(c.pubs[p].stage) == (c.pubs[p].stage.popped == c.pubs[p].stage.pushed)
    {
      QuietStage(c.pubs[p].stage);
    }
    forall s | s in c.subs
      ensures Quiet(c.subs[s].stage) == (c.subs[s].stage.popped == c.subs[s].stage.pushed)
    {
      QuietStage(c.subs[s].stage);
    }
  }

  lemma QuietStage(s: Stage)
    requires Balanced(s)
    ensures Quiet(s) <==> s.popped == s.pushed
  {
    assert Quiet(s) <==> s.queue == [];
    assert |s.pushed| == |s.popped| + |s.queue|;
  }

  /** What a subscriber receives of one publisher is an in-order subsequence, without repetition,
      of what that publisher published. */
  lemma ReceivedInOrder(events: seq<Event>, c: System, s: nat, k: nat, l: nat)
    requires IsRun(events, c) && s in c.subs && k <= l < |c.subs[s].stage.popped|
    ensures var got := c.subs[s].stage.popped;
      && (got[k].source.Local? ==>
            && got[k].source.pub in c.pubs && got[k].index < |c.pubs[got[k].source.pub].offers|
            && c.pubs[got[k].source.pub].offers[got[k].index] == got[k].data)
      && (k < l && got[k].source.Local? && got[l].source == got[k].source ==> got[k].index < got[l].index)
  {
    RunRight(events, c);
    var stage := c.subs[s].stage;
    assert SubRight(c.pubs, c.subs[s]);
    var x := stage.popped[k];
    assert stage.pushed[k] == x && stage.pushed[l] == stage.popped[l];
    assert Taken(c.pubs, x);
    if x.source.Local? {
      var p := x.source.pub;
      assert PubRight(p, c.pubs[p]);
      assert x in c.pubs[p].stage.pushed;
      assert ItemOf(p, c.pubs[p], x);
    }
  }
}
