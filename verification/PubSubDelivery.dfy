/** What reaches whom: messages go to the subscribers of their topic, each of which gets them unless its
    queue is full, and the master is never stuck (src/Master/src/MiddlewareManager.cpp,
    src/Master/src/shm/Publish.cpp, src/Master/src/shm/Subscribe.cpp).
 */
module PubSubDeliveries {
  import opened Basics
  import opened PubSubChannels

  /* ---- where things come from ---- */

  /** What a publisher has published, in order. */
  function OffersOf(events: seq<Event>, p: nat): seq<string> {
    if events == [] then []
    else
      var e := events[|events| - 1];
      OffersOf(events[..|events| - 1], p) + if e.Offer? && e.pub == p then [e.data] else []
  }

  predicate PubKnown(events: seq<Event>, p: nat, pub: Pub) {
    && Attach(p, pub.topic) in events && pub.offers == OffersOf(events, p)
    && (!pub.reading ==> Detach(p) in events)
  }

  predicate SubKnown(events: seq<Event>, s: nat, sub: Sub) {
    Subscribe(s, sub.topic) in events && (sub.listed <==> Unsubscribe(s) !in events)
  }

  /** The objects are those of the events, in the state that the events leave them. */
  ghost predicate Known(events: seq<Event>, c: System) {
    && (forall p :: p in c.pubs ==> PubKnown(events, p, c.pubs[p]))
    && (forall s :: s in c.subs ==> SubKnown(events, s, c.subs[s]))
    && (forall p :: p !in c.pubs ==> OffersOf(events, p) == [])
    && (forall s :: s !in c.subs ==> Unsubscribe(s) !in events)
  }

  lemma OffersSnoc(events: seq<Event>, e: Event, p: nat)
    ensures OffersOf(events + [e], p)
         == if e.Offer? && e.pub == p then OffersOf(events, p) + [e.data] else OffersOf(events, p)
  {
    assert (events + [e])[..|events|] == events;
    assert OffersOf(events, p) + [] == OffersOf(events, p);
  }

  lemma PubKnownStep(events: seq<Event>, c: System, e: Event, p: nat)
    requires Enabled(c, e) && (if p in c.pubs then PubKnown(events, p, c.pubs[p]) else OffersOf(events, p) == [])
    ensures var d, all := Step(c, e), events + [e];
      if p in d.pubs then PubKnown(all, p, d.pubs[p]) else OffersOf(all, p) == []
  {
    OffersSnoc(events, e, p);
  }

  lemma SubKnownStep(events: seq<Event>, c: System, e: Event, s: nat)
    requires Enabled(c, e) && (if s in c.subs then SubKnown(events, s, c.subs[s]) else Unsubscribe(s) !in events)
    ensures var d, all := Step(c, e), events + [e];
      if s in d.subs then SubKnown(all, s, d.subs[s]) else Unsubscribe(s) !in all
  {
  }

  lemma KnownStep(events: seq<Event>, c: System, e: Event)
    requires Known(events, c) && Enabled(c, e)
    ensures Known(events + [e], Step(c, e))
  {
    var d, all := Step(c, e), events + [e];
    forall p: nat ensures if p in d.pubs then PubKnown(all, p, d.pubs[p]) else OffersOf(all, p) == [] {
      PubKnownStep(events, c, e, p);
    }
    forall s: nat ensures if s in d.subs then SubKnown(all, s, d.subs[s]) else Unsubscribe(s) !in all {
      SubKnownStep(events, c, e, s);
    }
  }

  lemma {:induction false} AllKnown(events: seq<Event>, c: System)
    requires IsRun(events, c)
    ensures Known(events, c)
    decreases |events|
  {
    if events != [] {
      var front, e := events[..|events| - 1], events[|events| - 1];
      var b :| IsRun(front, b) && Enabled(b, e) && c == Step(b, e);
      AllKnown(front, b);
      KnownStep(front, b, e);
      assert front + [e] == events;
    }
  }

  /* ---- only its topic ---- */

  function TopicOf(pubs: map<nat, Pub>, x: Item): Option<string> {
    match x.source
    case Local(p) => if p in pubs then Some(pubs[p].topic) else None
    case Remote(t) => Some(t)
  }

  /** A message of another host came in with its topic and text. */
  predicate CameIn(events: seq<Event>, x: Item) {
    x.source.Remote? ==> exists e :: e in events && e.MasterInner? && e.topic == x.source.topic && e.text == x.data
  }

  predicate ForTopic(events: seq<Event>, c: System, x: Item, t: string) {
    TopicOf(c.pubs, x) == Some(t) && CameIn(events, x)
  }

  /** What has been pushed to a subscriber, and what is about to be, is of its topic. */
  predicate Addressed(events: seq<Event>, c: System) {
    && (forall s, x :: s in c.subs && x in c.subs[s].stage.pushed ==> ForTopic(events, c, x, c.subs[s].topic))
    && (c.hand.Some? ==>
          forall s :: s in c.todo ==> s in c.subs && ForTopic(events, c, c.hand.value, c.subs[s].topic))
  }

  lemma ForTopicStays(events: seq<Event>, c: System, e: Event, x: Item, t: string)
    requires Enabled(c, e) && ForTopic(events, c, x, t)
    ensures ForTopic(events + [e], Step(c, e), x, t)
  {
    if x.source.Remote? {
      var f :| f in events && f.MasterInner? && f.topic == x.source.topic && f.text == x.data;
      assert f in events + [e];
    }
  }

  lemma PushedGrows(c: System, e: Event, s: nat, x: Item)
    requires Enabled(c, e) && s in Step(c, e).subs && x in Step(c, e).subs[s].stage.pushed
    ensures (s in c.subs && x in c.subs[s].stage.pushed)
         || (e.MasterPush? && s == c.todo[0] && x == c.hand.value)
  {
  }

  lemma HandAddressed(events: seq<Event>, c: System, e: Event, s: nat)
    requires Right(c) && Addressed(events, c) && Enabled(c, e)
    requires Step(c, e).hand.Some? && s in Step(c, e).todo
    ensures s in Step(c, e).subs
    ensures ForTopic(events + [e], Step(c, e), Step(c, e).hand.value, Step(c, e).subs[s].topic)
  {
    if e.MasterPop? {
      PoppedTopic(c, e.order);
    } else if e.MasterInner? {
      assert e in events + [e];
    } else {
      ForTopicStays(events, c, e, c.hand.value, c.subs[s].topic);
    }
  }

  lemma AddressedStep(events: seq<Event>, c: System, e: Event)
    requires Right(c) && Addressed(events, c) && Enabled(c, e)
    ensures Addressed(events + [e], Step(c, e))
  {
    var d, all := Step(c, e), events + [e];
    forall s, x | s in d.subs && x in d.subs[s].stage.pushed ensures ForTopic(all, d, x, d.subs[s].topic) {
      PushedGrows(c, e, s, x);
      ForTopicStays(events, c, e, x, c.subs[s].topic);
    }
    if d.hand.Some? {
      forall s | s in d.todo ensures s in d.subs && ForTopic(all, d, d.hand.value, d.subs[s].topic) {
        HandAddressed(events, c, e, s);
      }
    }
  }

  lemma PoppedTopic(c: System, order: seq<nat>)
    requires Right(c) && Enabled(c, MasterPop(order))
    ensures c.pubs[c.draining.value].stage.queue != []
    ensures Step(c, MasterPop(order)).hand.value.source == Local(c.draining.value)
  {
    MasterPopKeeps(c, order);
    var p := c.draining.value;
    var stage := c.pubs[p].stage;
    assert PubRight(p, c.pubs[p]);
    assert stage.pushed[|stage.popped|] == stage.queue[0];
    assert ItemOf(p, c.pubs[p], stage.queue[0]);
  }

  lemma {:induction false} AllAddressed(events: seq<Event>, c: System)
    requires IsRun(events, c)
    ensures Addressed(events, c)
    decreases |events|
  {
    if events != [] {
      var front, e := events[..|events| - 1], events[|events| - 1];
      var b :| IsRun(front, b) && Enabled(b, e) && c == Step(b, e);
      AllAddressed(front, b);
      RunRight(front, b);
      AddressedStep(front, b, e);
      assert front + [e] == events;
    }
  }

  /** In every run whatever is pushed to a subscriber was published under the topic that it subscribed to,
      or came in from another host with that topic. */
  lemma OnlyItsTopic(events: seq<Event>, c: System, s: nat, x: Item) returns (t: string)
    requires IsRun(events, c) && s in c.subs && x in c.subs[s].stage.pushed
    ensures Subscribe(s, t) in events
    ensures x.source.Local? ==>
      && Attach(x.source.pub, t) in events && x.index < |OffersOf(events, x.source.pub)|
      && OffersOf(events, x.source.pub)[x.index] == x.data
    ensures x.source.Remote? ==> exists e :: e in events && e.MasterInner? && e.topic == t && e.text == x.data
  {
    AllKnown(events, c);
    AllAddressed(events, c);
    RunRight(events, c);
    t := c.subs[s].topic;
    assert ForTopic(events, c, x, t) && SubKnown(events, s, c.subs[s]);
    if x.source.Local? {
      var p := x.source.pub;
      assert SubRight(c.pubs, c.subs[s]) && Taken(c.pubs, x) && PubKnown(events, p, c.pubs[p]);
      assert PubRight(p, c.pubs[p]);
      assert x in c.pubs[p].stage.pushed;
      assert ItemOf(p, c.pubs[p], x);
    }
  }

  /* ---- everybody on the topic ---- */

  ghost predicate RunsTo(b: System, events: seq<Event>, c: System)
    decreases |events|
  {
    if events == [] then b == c
    else
      var e := events[|events| - 1];
      exists d :: RunsTo(b, events[..|events| - 1], d) && Enabled(d, e) && c == Step(d, e)
  }

  /** The queue of the subscriber was full when it was its turn. */
  ghost predicate WasFull(b: System, events: seq<Event>, s: nat) {
    exists n, d :: FullAt(b, events, s, n, d)
  }

  ghost predicate FullAt(b: System, events: seq<Event>, s: nat, n: int, d: System) {
    && 0 <= n <= |events| && RunsTo(b, events[..n], d)
    && d.hand.Some? && d.todo != [] && d.todo[0] == s && s in d.subs && |d.subs[s].stage.queue| >= 10
  }

  predicate NoNext(events: seq<Event>) {
    forall e :: e in events ==> !e.MasterNext?
  }

  /** How far a message in hand has got with a subscriber that had received `before`. */
  ghost predicate Progress(b: System, events: seq<Event>, c: System, order: seq<nat>, x: Item, s: nat)
    requires s in b.subs && s in c.subs
  {
    var before, now := b.subs[s].stage.pushed, c.subs[s].stage.pushed;
    if s !in order then now == before
    else if s in c.todo then now == if c.subs[s].stage.between then before + [x] else before
    else now == before + [x] || (now == before && WasFull(b, events, s))
  }

  /** The message x is in hand since b, and the subscribers in `order` are being served. */
  ghost predicate Serves(b: System, events: seq<Event>, c: System, order: seq<nat>, x: Item) {
    && Right(c) && RunsTo(b, events, c) && c.hand == Some(x) && c.subs.Keys == b.subs.Keys
    && (forall s :: s in c.todo ==> s in order)
    && forall s :: s in b.subs ==> Progress(b, events, c, order, x, s)
  }

  lemma FullStays(b: System, events: seq<Event>, e: Event, s: nat)
    requires WasFull(b, events, s)
    ensures WasFull(b, events + [e], s)
  {
    var n, d :| FullAt(b, events, s, n, d);
    assert (events + [e])[..n] == events[..n];
    assert FullAt(b, events + [e], s, n, d);
  }

  lemma RunsOn(b: System, events: seq<Event>, c: System, e: Event)
    requires RunsTo(b, events, c) && Enabled(c, e)
    ensures RunsTo(b, events + [e], Step(c, e))
  {
    var all := events + [e];
    assert all[|all| - 1] == e && all[..|all| - 1] == events;
  }

  /** While a message is in hand only its pushes and signals concern the subscribers. */
  lemma OthersWait(c: System, e: Event, s: nat)
    requires c.hand.Some? && Enabled(c, e) && !e.MasterNext? && !e.MasterPush? && !e.MasterSignal?
    ensures var d := Step(c, e);
      && d.hand == c.hand && d.todo == c.todo && d.subs.Keys == c.subs.Keys
      && (s in c.subs ==> d.subs[s].stage.pushed == c.subs[s].stage.pushed
                          && d.subs[s].stage.between == c.subs[s].stage.between)
  {
  }

  /** What a push does to one subscriber. */
  lemma PushServes(c: System, s: nat)
    requires Right(c) && Enabled(c, MasterPush) && s in c.subs
    ensures var d, first := Step(c, MasterPush), c.todo[0];
      && d.hand == c.hand && d.subs.Keys == c.subs.Keys && (s != first ==> d.subs[s] == c.subs[s])
      && if |c.subs[first].stage.queue| >= 10 then d.todo == c.todo[1..] && d.subs == c.subs
         else d.todo == c.todo && d.subs[first].stage.between
              && d.subs[first].stage.pushed == c.subs[first].stage.pushed + [c.hand.value]
  {
  }

  lemma SignalServes(c: System, s: nat)
    requires Right(c) && Enabled(c, MasterSignal) && s in c.subs
    ensures var d := Step(c, MasterSignal);
      && d.hand == c.hand && d.subs.Keys == c.subs.Keys && d.todo == c.todo[1..]
      && d.subs[s].stage.pushed == c.subs[s].stage.pushed && (s != c.todo[0] ==> d.subs[s] == c.subs[s])
  {
  }

  lemma Rest(todo: seq<nat>, s: nat)
    requires todo != [] && AllDifferent(todo)
    ensures s in todo[1..] <==> s in todo && s != todo[0]
  {
  }

  lemma PushProgress(b: System, events: seq<Event>, c: System, order: seq<nat>, x: Item, s: nat)
    requires Right(c) && RunsTo(b, events, c) && c.hand == Some(x) && Enabled(c, MasterPush) && c.todo[0] in order
    requires s in b.subs && s in c.subs && Progress(b, events, c, order, x, s)
    ensures s in Step(c, MasterPush).subs
    ensures Progress(b, events + [MasterPush], Step(c, MasterPush), order, x, s)
  {
    PushServes(c, s);
    Rest(c.todo, s);
    if WasFull(b, events, s) {
      FullStays(b, events, MasterPush, s);
    }
    if |c.subs[c.todo[0]].stage.queue| >= 10 {
      assert (events + [MasterPush])[..|events|] == events;
      assert FullAt(b, events + [MasterPush], c.todo[0], |events|, c);
    }
  }

  lemma SignalProgress(b: System, events: seq<Event>, c: System, order: seq<nat>, x: Item, s: nat)
    requires Right(c) && c.hand == Some(x) && Enabled(c, MasterSignal) && c.todo[0] in order
    requires s in b.subs && s in c.subs && Progress(b, events, c, order, x, s)
    ensures s in Step(c, MasterSignal).subs
    ensures Progress(b, events + [MasterSignal], Step(c, MasterSignal), order, x, s)
  {
    SignalServes(c, s);
    Rest(c.todo, s);
    if WasFull(b, events, s) {
      FullStays(b, events, MasterSignal, s);
    }
  }

  lemma OtherProgress(b: System, events: seq<Event>, c: System, order: seq<nat>, x: Item, e: Event, s: nat)
    requires c.hand == Some(x) && Enabled(c, e) && !e.MasterNext? && !e.MasterPush? && !e.MasterSignal?
    requires s in b.subs && s in c.subs && Progress(b, events, c, order, x, s)
    ensures s in Step(c, e).subs && Progress(b, events + [e], Step(c, e), order, x, s)
  {
    OthersWait(c, e, s);
    if WasFull(b, events, s) {
      FullStays(b, events, e, s);
    }
  }

  lemma TodoShrinks(c: System, e: Event, s: nat)
    requires Right(c) && c.hand.Some? && Enabled(c, e) && !e.MasterNext?
    ensures var d := Step(c, e); d.hand == c.hand && d.subs.Keys == c.subs.Keys && (s in d.todo ==> s in c.todo)
  {
    if e.MasterPush? {
      PushServes(c, c.todo[0]);
    } else if e.MasterSignal? {
      SignalServes(c, c.todo[0]);
    } else {
      OthersWait(c, e, s);
    }
  }

  lemma ServesOn(b: System, events: seq<Event>, c: System, order: seq<nat>, x: Item, e: Event)
    requires Serves(b, events, c, order, x) && Enabled(c, e) && !e.MasterNext?
    ensures Serves(b, events + [e], Step(c, e), order, x)
  {
    StepKeeps(c, e);
    RunsOn(b, events, c, e);
    forall s ensures s in Step(c, e).todo ==> s in order {
      TodoShrinks(c, e, s);
    }
    TodoShrinks(c, e, 0);
    forall s | s in b.subs ensures s in Step(c, e).subs && Progress(b, events + [e], Step(c, e), order, x, s) {
      if e.MasterPush? {
        PushProgress(b, events, c, order, x, s);
      } else if e.MasterSignal? {
        SignalProgress(b, events, c, order, x, s);
      } else {
        OtherProgress(b, events, c, order, x, e, s);
      }
    }
  }

  lemma {:induction false} ServesAll(b: System, events: seq<Event>, c: System, order: seq<nat>, x: Item)
    requires Serves(b, [], b, order, x) && RunsTo(b, events, c) && NoNext(events)
    ensures Serves(b, events, c, order, x)
    decreases |events|
  {
    if events != [] {
      var front, e := events[..|events| - 1], events[|events| - 1];
      var d :| RunsTo(b, front, d) && Enabled(d, e) && c == Step(d, e);
      assert e in events && front + [e] == events;
      ServesAll(b, front, d, order, x);
      ServesOn(b, front, d, order, x, e);
    }
  }

  /** The event that takes a message in hand, and which message of which topic it is. */
  predicate Takes(b: System, e: Event, x: Item, t: string) {
    match e
    case MasterPop(_) =>
      && b.draining.Some? && b.draining.value in b.pubs && b.pubs[b.draining.value].topic == t
      && b.pubs[b.draining.value].stage.queue != [] && x == b.pubs[b.draining.value].stage.queue[0]
    case MasterInner(topic, text, _) => topic == t && x == Item(Remote(t), 0, text)
    case _ => false
  }

  /** The subscriber has received the message in addition, or its queue was full when it was its turn. */
  ghost predicate Got(b: System, a: System, events: seq<Event>, c: System, x: Item, s: nat)
    requires s in b.subs && s in c.subs
  {
    || c.subs[s].stage.pushed == b.subs[s].stage.pushed + [x]
    || (c.subs[s].stage.pushed == b.subs[s].stage.pushed && WasFull(a, events, s))
  }

  lemma StartsServing(b: System, e: Event, x: Item, t: string)
    requires Right(b) && Enabled(b, e) && Takes(b, e, x, t)
    ensures Serves(Step(b, e), [], Step(b, e), e.order, x)
    ensures Step(b, e).subs == b.subs
    ensures forall s :: s in b.subs ==> (s in e.order <==> b.subs[s].listed && b.subs[s].topic == t)
  {
    StepKeeps(b, e);
    var d := Step(b, e);
    forall s | s in d.subs ensures Progress(d, [], d, e.order, x, s) {
      assert b.hand.None?;
    }
  }

  /** Whenever the master has taken a message, and at any later moment at which nobody is left to be
      served with it, each subscriber that was listed under the topic of the message has received it, or
      its queue was full when it was its turn; and no other subscriber has received anything. */
  lemma DeliveredToTopic(events: seq<Event>, b: System, e: Event, x: Item, t: string, mid: seq<Event>, c: System)
    requires IsRun(events, b) && Enabled(b, e) && Takes(b, e, x, t)
    requires RunsTo(Step(b, e), mid, c) && NoNext(mid) && c.todo == []
    ensures c.subs.Keys == b.subs.Keys
    ensures forall s :: s in b.subs ==>
      if b.subs[s].listed && b.subs[s].topic == t then Got(b, Step(b, e), mid, c, x, s)
      else c.subs[s].stage.pushed == b.subs[s].stage.pushed
  {
    RunRight(events, b);
    StartsServing(b, e, x, t);
    ServesAll(Step(b, e), mid, c, e.order, x);
    forall s | s in b.subs
      ensures if b.subs[s].listed && b.subs[s].topic == t then Got(b, Step(b, e), mid, c, x, s)
              else c.subs[s].stage.pushed == b.subs[s].stage.pushed
    {
      assert Progress(Step(b, e), mid, c, e.order, x, s);
    }
  }

  /* ---- what is offered, and that the master is never stuck ---- */

  /** An offer enters the queue, as the next message of its publisher, exactly when there is room. */
  lemma OfferEnters(events: seq<Event>, c: System, p: nat, data: string)
    requires IsRun(events, c) && p in c.pubs && !c.pubs[p].stage.between
    ensures Enabled(c, Offer(p, data))
    ensures var before, after := c.pubs[p].stage, Step(c, Offer(p, data)).pubs[p].stage;
      after.pushed == before.pushed
        + if |before.queue| < 10 then [Item(Local(p), |OffersOf(events, p)|, data)] else []
  {
    AllKnown(events, c);
    assert PubKnown(events, p, c.pubs[p]);
  }

  /** A queue is drained as long as there is something owed. */
  predicate Working(c: System) {
    c.draining.Some? && c.hand.None? ==> c.draining.value in c.pubs && c.pubs[c.draining.value].stage.owed > 0
  }

  lemma {:induction false} AllWorking(events: seq<Event>, c: System)
    requires IsRun(events, c)
    ensures Working(c)
    decreases |events|
  {
    if events != [] {
      var front, e := events[..|events| - 1], events[|events| - 1];
      var b :| IsRun(front, b) && Enabled(b, e) && c == Step(b, e);
      AllWorking(front, b);
    }
  }

  lemma {:induction false} Ordered(of: set<nat>) returns (order: seq<nat>)
    ensures AllDifferent(order) && forall s :: s in order <==> s in of
    decreases |of|
  {
    if of == {} {
      order := [];
    } else {
      var s :| s in of;
      var rest := Ordered(of - {s});
      order := [s] + rest;
    }
  }

  /** Something is left for the master to do. */
  predicate Busy(c: System) {
    || !Idle(c)
    || exists p :: p in c.pubs && (c.pubs[p].stage.owed > 0 || (c.pubs[p].reading && c.pubs[p].stage.counter > 0))
  }

  /** In every reachable state with something left to do the master can take a step, and each of its steps
      except the reads is one of serving or taking messages. */
  lemma NeverStuck(events: seq<Event>, c: System) returns (e: Event)
    requires IsRun(events, c) && Busy(c)
    ensures Enabled(c, e)
    ensures e.MasterRead? || e.MasterTake? || e.MasterPop? || e.MasterPush? || e.MasterSignal? || e.MasterNext?
  {
    RunRight(events, c);
    AllWorking(events, c);
    if c.hand.Some? {
      if c.todo == [] {
        e := MasterNext;
      } else {
        assert Waiting(c, c.hand.value, 0);
        e := if c.subs[c.todo[0]].stage.between then MasterSignal else MasterPush;
      }
    } else if c.draining.Some? {
      var t := c.pubs[c.draining.value].topic;
      var order := Ordered(set s | s in c.subs && c.subs[s].listed && c.subs[s].topic == t);
      e := MasterPop(order);
    } else {
      var p :| p in c.pubs && (c.pubs[p].stage.owed > 0 || (c.pubs[p].reading && c.pubs[p].stage.counter > 0));
      e := if c.pubs[p].stage.owed > 0 then MasterTake(p) else MasterRead(p);
    }
  }

  /** The master has let go of a publisher. */
  predicate Left(c: System, p: nat) {
    p in c.pubs && !c.pubs[p].reading && c.pubs[p].stage.owed == 0 && c.draining != Some(p)
  }

  /** A publisher that is removed while no read of it has completed is never popped again; otherwise the
      master goes on reading it. */
  lemma {:induction false} RemovedIsLeft(b: System, events: seq<Event>, c: System, p: nat)
    requires p in b.pubs && Enabled(b, Detach(p)) && RunsTo(Step(b, Detach(p)), events, c)
    ensures b.pubs[p].stage.owed == 0 ==> Left(c, p) && c.pubs[p].stage.popped == b.pubs[p].stage.popped
    ensures b.pubs[p].stage.owed > 0 ==> Step(b, Detach(p)).pubs[p].reading == b.pubs[p].reading
    decreases |events|
  {
    if events != [] {
      var front, e := events[..|events| - 1], events[|events| - 1];
      var d :| RunsTo(Step(b, Detach(p)), front, d) && Enabled(d, e) && c == Step(d, e);
      RemovedIsLeft(b, front, d, p);
      if b.pubs[p].stage.owed == 0 {
        LeftStays(d, e, p);
      }
    }
  }

  lemma LeftStays(c: System, e: Event, p: nat)
    requires Left(c, p) && Enabled(c, e)
    ensures Left(Step(c, e), p) && Step(c, e).pubs[p].stage.popped == c.pubs[p].stage.popped
  {
  }
}
