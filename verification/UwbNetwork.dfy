/** Several UWB nodes on one channel that may lose, repeat, delay and reorder frames but does
    not alter them: an acknowledged frame has been accepted (src/Master/src/uwb/UwbHandle.cpp).
 */
module UwbNetworks {
  import opened Basics
  import opened UwbFrameCodec
  import opened UwbHttpText
  import opened UwbHandles

  /** `air` holds every frame that was ever transmitted: any node may receive any of them, at any
      time and any number of times. */
  datatype Network = Network(nodes: map<Byte, Node>, air: set<Frame>)

  datatype Action = Action(node: Byte, event: Event)

  function Quiet(ids: set<Byte>): Network {
    Network(map a | a in ids :: Fresh(a), {})
  }

  ghost predicate CanAct(net: Network, act: Action) {
    && act.node in net.nodes && Enabled(net.nodes[act.node], act.event)
    && (act.event.Frames? ==> act.event.frame in net.air)
  }

  function Act(net: Network, act: Action): Network {
    if act.node !in net.nodes then net
    else
      var n := net.nodes[act.node];
      Network(net.nodes[act.node := Step(n, act.event)],
              if act.event.Slot? then net.air + (set f | f in Transmitted(n)) else net.air)
  }

  ghost predicate IsNetRun(start: Network, acts: seq<Action>, end: Network)
    decreases |acts|
  {
    if acts == [] then start == end
    else
      var act := acts[|acts| - 1];
      exists mid :: IsNetRun(start, acts[..|acts| - 1], mid) && CanAct(mid, act) && end == Act(mid, act)
  }

  /* ---- one step of one node ---- */

  /** The frames sent and accepted so far stay on record. */
  predicate Grows(n: Node, m: Node) {
    m.id == n.id && n.sent <= m.sent && n.accepted <= m.accepted
  }

  lemma StepGrows(n: Node, e: Event)
    ensures Grows(n, Step(n, e))
  {
    if e.Stop? {
      ClearedLocal(n.(running := false), e.order);
    }
  }

  /** What enters the send queue has been sent before, or is a heartbeat. */
  lemma StepSends(n: Node, e: Event, f: Frame)
    requires Sound(n) && f in Step(n, e).sendQueue && f !in n.sendQueue
    ensures f.kind.HEARTBEAT? || f in Step(n, e).sent
  {
    if e.Stop? {
      ClearedLocal(n.(running := false), e.order);
    }
    if e.Expire? && e.key in n.pending {
      assert PendingAt(n, e.key);
    }
  }

  /** What enters the acknowledgement queue answers the frame that was just accepted. */
  lemma StepAcks(n: Node, e: Event, f: Frame)
    requires f in Step(n, e).ackQueue && f !in n.ackQueue
    ensures e.Frames? && f == AckFor(n, e.frame) && e.frame in Step(n, e).accepted && e.frame.dst == n.id
  {
    if e.Stop? {
      ClearedLocal(n.(running := false), e.order);
    }
  }

  lemma StepAccepts(n: Node, e: Event, f: Frame)
    requires f in Step(n, e).accepted && f !in n.accepted
    ensures e.Frames? && f == e.frame && f.kind.DATA? && (f.dst == n.id || f.dst == BROADCAST_ID)
  {
    if e.Stop? {
      ClearedLocal(n.(running := false), e.order);
    }
  }

  lemma {:induction false} ClearedFires(n: Node, order: seq<Byte>, o: Outcome)
    requires o in Cleared(n, order).fired && o.ok
    ensures o in n.fired
  {
    if order != [] {
      ClearedFires(n, order[..|order| - 1], o);
    }
  }

  /** A callback reports success for an acknowledgement, or at once for a broadcast. */
  lemma StepFires(n: Node, e: Event, o: Outcome)
    requires o in Step(n, e).fired && o !in n.fired && o.ok
    ensures || (e.End? && o.id < |n.sent| && n.sent[o.id].dst == BROADCAST_ID)
            || (&& e.Frames? && e.frame.kind.ACK? && (e.frame.dst == n.id || e.frame.dst == BROADCAST_ID)
                && e.frame.seqNo in n.pending && n.pending[e.frame.seqNo].id == o.id)
  {
    if e.Stop? {
      ClearedFires(n.(running := false), e.order, o);
    }
  }

  /* ---- what every action keeps ---- */

  predicate Owned(net: Network, f: Frame) {
    f.src in net.nodes && f in net.nodes[f.src].sent
  }

  predicate Answers(ack: Frame, f: Frame) {
    f.src == ack.dst && f.dst == ack.src && f.seqNo == ack.seqNo
  }

  predicate Backed(net: Network, ack: Frame) {
    ack.src in net.nodes && exists f :: f in net.nodes[ack.src].accepted && Answers(ack, f)
  }

  /** DATA frames come from their sender, acknowledgements from a node that accepted the frame. */
  predicate Genuine(net: Network, f: Frame) {
    (f.kind.DATA? ==> Owned(net, f)) && (f.kind.ACK? ==> Backed(net, f))
  }

  predicate AllGenuine(net: Network, frames: seq<Frame>) {
    forall f :: f in frames ==> Genuine(net, f)
  }

  predicate Addressed(net: Network, a: Byte, f: Frame) {
    Owned(net, f) && (f.dst == a || f.dst == BROADCAST_ID)
  }

  predicate AllAddressed(net: Network, a: Byte, frames: seq<Frame>) {
    forall f :: f in frames ==> Addressed(net, a, f)
  }

  /** The callback of a unicast reported success, so the addressee has accepted the frame. */
  predicate Delivered(net: Network, n: Node, o: Outcome) {
    o.ok && o.id < |n.sent| && |n.sent| <= 255 && n.sent[o.id].dst != BROADCAST_ID
    ==> n.sent[o.id].dst in net.nodes && n.sent[o.id] in net.nodes[n.sent[o.id].dst].accepted
  }

  predicate AllDelivered(net: Network, n: Node) {
    forall o :: o in n.fired ==> Delivered(net, n, o)
  }

  ghost predicate NodeRight(net: Network, a: Byte)
    requires a in net.nodes
  {
    var n := net.nodes[a];
    && a != BROADCAST_ID && n.id == a && Sound(n)
    && AllGenuine(net, n.sendQueue) && AllGenuine(net, n.ackQueue) && AllAddressed(net, a, n.accepted)
    && AllDelivered(net, n)
  }

  ghost predicate NetRight(net: Network) {
    && (forall a :: a in net.nodes ==> NodeRight(net, a))
    && (forall f :: f in net.air ==> Genuine(net, f))
  }

  predicate NetGrows(net: Network, later: Network) {
    later.nodes.Keys == net.nodes.Keys && forall a :: a in net.nodes ==> Grows(net.nodes[a], later.nodes[a])
  }

  lemma ActGrows(net: Network, act: Action)
    requires CanAct(net, act)
    ensures NetGrows(net, Act(net, act))
  {
    StepGrows(net.nodes[act.node], act.event);
  }

  lemma GenuineStays(net: Network, later: Network, f: Frame)
    requires NetGrows(net, later) && Genuine(net, f)
    ensures Genuine(later, f)
  {
    if f.kind.DATA? {
      assert Grows(net.nodes[f.src], later.nodes[f.src]);
    } else if f.kind.ACK? {
      assert Grows(net.nodes[f.src], later.nodes[f.src]);
      var g :| g in net.nodes[f.src].accepted && Answers(f, g);
      assert g in later.nodes[f.src].accepted;
    }
  }

  lemma AddressedStays(net: Network, later: Network, a: Byte, f: Frame)
    requires NetGrows(net, later) && Addressed(net, a, f)
    ensures Addressed(later, a, f)
  {
    assert Grows(net.nodes[f.src], later.nodes[f.src]);
  }

  /** A frame that its addressee accepted and that is on record at its sender. */
  lemma DeliveredStays(net: Network, later: Network, n: Node, m: Node, o: Outcome)
    requires NetGrows(net, later) && Delivered(net, n, o) && n.sent <= m.sent && o.id < |n.sent|
    ensures Delivered(later, m, o)
  {
    var dst := n.sent[o.id].dst;
    if dst in net.nodes {
      assert Grows(net.nodes[dst], later.nodes[dst]);
    }
  }

  lemma {:induction false} FiredWereSent(fired: seq<Outcome>, o: Outcome)
    requires o in fired
    ensures Firings(fired, o.id) > 0
  {
    if fired[|fired| - 1] != o {
      FiredWereSent(fired[..|fired| - 1], o);
    }
  }

  lemma SameNumberSameFrame(n: Node, f: Frame, g: Frame)
    requires Sound(n) && |n.sent| <= 255 && f in n.sent && g in n.sent && f.seqNo == g.seqNo
    ensures f == g
  {
    var i :| 0 <= i < |n.sent| && n.sent[i] == f;
    var j :| 0 <= j < |n.sent| && n.sent[j] == g;
    assert SentAt(n, i) && SentAt(n, j);
    if i < j {
      SeqDistinct(i, j);
    } else if j < i {
      SeqDistinct(j, i);
    }
  }

  /** The heart of the argument: with at most 255 sends, an acknowledgement that finds a pending
      entry answers exactly the frame of that entry. */
  lemma AckMeansAccepted(net: Network, a: Byte, ack: Frame)
    requires NetRight(net) && a in net.nodes && Genuine(net, ack) && ack.kind.ACK?
    requires ack.dst == a || ack.dst == BROADCAST_ID
    requires ack.seqNo in net.nodes[a].pending && |net.nodes[a].sent| <= 255
    ensures var f := net.nodes[a].pending[ack.seqNo].frame;
      f.dst in net.nodes && f in net.nodes[f.dst].accepted
  {
    var b, n := ack.src, net.nodes[a];
    assert NodeRight(net, a) && NodeRight(net, b);
    var g :| g in net.nodes[b].accepted && Answers(ack, g);
    assert Addressed(net, b, g);
    assert NodeRight(net, g.src);
    assert PendingAt(n, ack.seqNo);
    SameNumberSameFrame(n, n.pending[ack.seqNo].frame, g);
  }

  lemma NewGenuine(net: Network, act: Action, f: Frame)
    requires NetRight(net) && CanAct(net, act)
    requires var m := Act(net, act).nodes[act.node]; f in m.sendQueue || f in m.ackQueue
    ensures Genuine(Act(net, act), f)
  {
    var n, m, later := net.nodes[act.node], Step(net.nodes[act.node], act.event), Act(net, act);
    ActGrows(net, act);
    StepKeeps(n, act.event);
    assert NodeRight(net, act.node);
    if f in n.sendQueue || f in n.ackQueue {
      GenuineStays(net, later, f);
    } else if f in m.ackQueue {
      StepAcks(n, act.event, f);
      assert Answers(f, act.event.frame);
    } else {
      StepSends(n, act.event, f);
      if f in m.sent {
        var i :| 0 <= i < |m.sent| && m.sent[i] == f;
        assert SentAt(m, i) && m.id == act.node;
      }
    }
  }

  lemma NewAddressed(net: Network, act: Action, f: Frame)
    requires NetRight(net) && CanAct(net, act) && f in Act(net, act).nodes[act.node].accepted
    ensures Addressed(Act(net, act), act.node, f)
  {
    var n := net.nodes[act.node];
    ActGrows(net, act);
    assert NodeRight(net, act.node);
    if f !in n.accepted {
      StepAccepts(n, act.event, f);
      assert Genuine(net, f);
    }
    AddressedStays(net, Act(net, act), act.node, f);
  }

  lemma NewDelivered(net: Network, act: Action, o: Outcome)
    requires NetRight(net) && CanAct(net, act) && o in Act(net, act).nodes[act.node].fired
    ensures Delivered(Act(net, act), Act(net, act).nodes[act.node], o)
  {
    var n, m, later := net.nodes[act.node], Step(net.nodes[act.node], act.event), Act(net, act);
    ActGrows(net, act);
    assert Grows(n, m);
    assert NodeRight(net, act.node);
    if o in n.fired {
      FiredWereSent(n.fired, o);
      assert FateOf(n, o.id);
      DeliveredStays(net, later, n, m, o);
    } else if o.ok && |m.sent| <= 255 {
      StepFires(n, act.event, o);
      if act.event.Frames? {
        assert PendingAt(n, act.event.frame.seqNo);
        AckMeansAccepted(net, act.node, act.event.frame);
        DeliveredStays(net, later, n, m, o);
      }
    }
  }

  lemma OtherRight(net: Network, act: Action, a: Byte)
    requires NetRight(net) && CanAct(net, act) && a in net.nodes && a != act.node
    ensures NodeRight(Act(net, act), a)
  {
    var n, later := net.nodes[a], Act(net, act);
    assert NodeRight(net, a);
    ActGrows(net, act);
    forall f | f in n.sendQueue || f in n.ackQueue ensures Genuine(later, f) {
      GenuineStays(net, later, f);
    }
    forall f | f in n.accepted ensures Addressed(later, a, f) {
      AddressedStays(net, later, a, f);
    }
    forall o | o in n.fired ensures Delivered(later, n, o) {
      FiredWereSent(n.fired, o);
      assert FateOf(n, o.id);
      DeliveredStays(net, later, n, n, o);
    }
  }

  lemma ActorRight(net: Network, act: Action)
    requires NetRight(net) && CanAct(net, act)
    ensures NodeRight(Act(net, act), act.node)
  {
    var m, later := Act(net, act).nodes[act.node], Act(net, act);
    assert NodeRight(net, act.node);
    StepKeeps(net.nodes[act.node], act.event);
    StepGrows(net.nodes[act.node], act.event);
    forall f | f in m.sendQueue || f in m.ackQueue ensures Genuine(later, f) {
      NewGenuine(net, act, f);
    }
    forall f | f in m.accepted ensures Addressed(later, act.node, f) {
      NewAddressed(net, act, f);
    }
    forall o | o in m.fired ensures Delivered(later, m, o) {
      NewDelivered(net, act, o);
    }
  }

  lemma ActKeeps(net: Network, act: Action)
    requires NetRight(net) && CanAct(net, act)
    ensures NetRight(Act(net, act))
  {
    var later := Act(net, act);
    forall a | a in later.nodes ensures NodeRight(later, a) {
      if a == act.node {
        ActorRight(net, act);
      } else {
        OtherRight(net, act, a);
      }
    }
    ActGrows(net, act);
    forall f | f in later.air ensures Genuine(later, f) {
      assert NodeRight(net, act.node);
      GenuineStays(net, later, f);
    }
  }

  lemma QuietRight(ids: set<Byte>)
    requires BROADCAST_ID !in ids
    ensures NetRight(Quiet(ids))
  {
    forall a | a in ids ensures NodeRight(Quiet(ids), a) {
      FreshSound(a);
    }
  }

  lemma {:induction false} RunRight(ids: set<Byte>, acts: seq<Action>, net: Network)
    requires BROADCAST_ID !in ids && IsNetRun(Quiet(ids), acts, net)
    ensures NetRight(net)
    decreases |acts|
  {
    if acts == [] {
      QuietRight(ids);
    } else {
      var act := acts[|acts| - 1];
      var mid :| IsNetRun(Quiet(ids), acts[..|acts| - 1], mid) && CanAct(mid, act) && net == Act(mid, act);
      RunRight(ids, acts[..|acts| - 1], mid);
      ActKeeps(mid, act);
    }
  }

  lemma {:induction false} RoutedContains(accepted: seq<Frame>, f: Frame, req: Request)
    requires f in accepted && Parsed(f.payload) == Some(req)
    ensures req in Routed(accepted)
  {
    if accepted[|accepted| - 1] != f {
      RoutedContains(accepted[..|accepted| - 1], f, req);
    }
  }

  /** In every run of any set of nodes: when the callback of a unicast reports success and its
      sender has made at most 255 sends, the addressee has accepted exactly that frame, and a
      well-formed request has reached the addressee's router, with its length prepared. */
  lemma AcknowledgedImpliesDelivered(ids: set<Byte>, acts: seq<Action>, net: Network, a: Byte, o: Outcome, req: Request)
    requires BROADCAST_ID !in ids && IsNetRun(Quiet(ids), acts, net)
    requires a in net.nodes && o in net.nodes[a].fired && o.ok && |net.nodes[a].sent| <= 255
    ensures o.id < |net.nodes[a].sent|
    ensures var f := net.nodes[a].sent[o.id];
      && (f.dst != BROADCAST_ID ==> f.dst in net.nodes && f in net.nodes[f.dst].accepted)
      && (f.dst != BROADCAST_ID && f.payload == Serialized(req) && WellFormed(req)
          ==> Prepared(req) in Routed(net.nodes[f.dst].accepted))
  {
    RunRight(ids, acts, net);
    var n := net.nodes[a];
    assert NodeRight(net, a);
    FiredWereSent(n.fired, o);
    assert FateOf(n, o.id);
    assert Delivered(net, n, o);
    var f := n.sent[o.id];
    if f.dst != BROADCAST_ID && f.payload == Serialized(req) && WellFormed(req) {
      ParseSerialize(req);
      RoutedContains(net.nodes[f.dst].accepted, f, Prepared(req));
    }
  }

  /* ---- the bound of 255 sends cannot be raised ---- */

  lemma Next(start: Network, acts: seq<Action>, net: Network, act: Action) returns (acts': seq<Action>, net': Network)
    requires IsNetRun(start, acts, net) && CanAct(net, act)
    ensures net' == Act(net, act) && acts' == acts + [act] && IsNetRun(start, acts', net')
  {
    acts', net' := acts + [act], Act(net, act);
    assert acts'[..|acts'| - 1] == acts;
    assert IsNetRun(start, acts'[..|acts'| - 1], net) && CanAct(net, act);
    assert acts'[|acts'| - 1] == act;
  }

  /** Node 1 has made k sends and is idle; nothing has reached node 2 since `got`. */
  predicate Idle(net: Network, k: nat, pending: map<Byte, Pending>, got: seq<Frame>) {
    && 1 in net.nodes && 2 in net.nodes && net.nodes[2].accepted == got
    && var n := net.nodes[1];
       n.id == 1 && n.running && n.pending == pending && n.nextSeq == SeqAt(k) && |n.sent| == k && n.midway == {}
  }

  lemma BroadcastSent(n: Node, k: nat)
    requires n.id == 1 && n.running && n.nextSeq == SeqAt(k) && |n.sent| == k && n.midway == {}
    ensures var m := SendEnd(SendBegin(n, "x", BROADCAST_ID), k, 0);
      && m.id == 1 && m.running && m.pending == n.pending && m.nextSeq == SeqAt(k + 1) && |m.sent| == k + 1
      && m.midway == {} && m.lost == n.lost
  {
    NextSeqAt(k);
  }

  lemma OneBroadcast(start: Network, acts: seq<Action>, net: Network, k: nat, pending: map<Byte, Pending>,
          got: seq<Frame>)
    returns (acts': seq<Action>, net': Network)
    requires IsNetRun(start, acts, net) && Idle(net, k, pending, got)
    ensures IsNetRun(start, acts', net') && Idle(net', k + 1, pending, got) && net.air <= net'.air
    ensures net.nodes[1].lost == net'.nodes[1].lost
  {
    BroadcastSent(net.nodes[1], k);
    acts', net' := Next(start, acts, net, Action(1, Begin("x", BROADCAST_ID)));
    acts', net' := Next(start, acts', net', Action(1, End(k, 0)));
  }

  lemma {:induction false} Broadcasts(start: Network, acts: seq<Action>, net: Network, k: nat,
                                      pending: map<Byte, Pending>, got: seq<Frame>, count: nat)
    returns (acts': seq<Action>, net': Network)
    requires IsNetRun(start, acts, net) && Idle(net, k, pending, got)
    ensures IsNetRun(start, acts', net') && Idle(net', k + count, pending, got) && net.air <= net'.air
    decreases count
  {
    if count == 0 {
      acts', net' := acts, net;
    } else {
      acts', net' := OneBroadcast(start, acts, net, k, pending, got);
      acts', net' := Broadcasts(start, acts', net', k + 1, pending, got, count - 1);
    }
  }

  /** A DATA frame from node 1 to node 2 under sequence number 1. */
  predicate Carries(f: Frame, payload: Octets) {
    f.src == 1 && f.dst == 2 && f.seqNo == 1 && f.kind.DATA? && f.payload == payload
  }

  predicate Pair(start: Network) {
    1 in start.nodes && 2 in start.nodes && start.nodes[1] == Fresh(1) && start.nodes[2] == Fresh(2)
  }

  lemma Started(start: Network) returns (acts: seq<Action>, net: Network)
    requires Pair(start)
    ensures IsNetRun(start, acts, net) && 1 in net.nodes && 2 in net.nodes
    ensures net.nodes[1] == Fresh(1).(running := true) && net.nodes[2] == Fresh(2).(running := true)
  {
    acts, net := Next(start, [], start, Action(1, Start));
    acts, net := Next(start, acts, net, Action(2, Start));
  }

  lemma SentFirst(n: Node, payload: Octets)
    requires |payload| < 10 && n == Fresh(1).(running := true)
    ensures var m := SendEnd(SendBegin(n, payload, 2), 0, 0);
      && m.id == 1 && m.running && |m.sent| == 1 && Carries(m.sent[0], payload) && m.sendQueue == [m.sent[0]]
      && m.pending == map[1 := Pending(m.sent[0], 0, 0, 0, 0)] && m.nextSeq == SeqAt(1) && m.midway == {}
  {
  }

  /** Both nodes are started and node 1 has queued and registered one frame for node 2. */
  lemma FirstSend(start: Network, payload: Octets) returns (acts: seq<Action>, net: Network, f: Frame)
    requires |payload| < 10 && Pair(start)
    ensures IsNetRun(start, acts, net) && Carries(f, payload)
    ensures Idle(net, 1, map[1 := Pending(f, 0, 0, 0, 0)], []) && net.nodes[1].sendQueue == [f]
    ensures net.nodes[2] == Fresh(2).(running := true)
  {
    acts, net := Started(start);
    SentFirst(net.nodes[1], payload);
    acts, net := Next(start, acts, net, Action(1, Begin(payload, 2)));
    f := net.nodes[1].sent[0];
    acts, net := Next(start, acts, net, Action(1, End(0, 0)));
  }

  lemma Accepting(n: Node, f: Frame, payload: Octets)
    requires n == Fresh(2).(running := true) && Carries(f, payload)
    ensures var m := Step(n, Frames(f));
      && m.accepted == [f] && m.ackQueue == [AckFor(n, f)]
      && AckFor(n, f).kind.ACK? && AckFor(n, f).dst == 1 && AckFor(n, f).seqNo == 1
  {
  }

  /** The frame is on the air and node 2 has accepted it. */
  lemma FirstDelivery(start: Network, payload: Octets) returns (acts: seq<Action>, net: Network, f: Frame, ack: Frame)
    requires |payload| < 10 && Pair(start)
    ensures IsNetRun(start, acts, net) && Carries(f, payload)
    ensures Idle(net, 1, map[1 := Pending(f, 0, 0, 0, 0)], [f]) && net.nodes[2].ackQueue == [ack]
    ensures ack.kind.ACK? && ack.dst == 1 && ack.seqNo == 1
  {
    acts, net, f := FirstSend(start, payload);
    assert f in Transmitted(net.nodes[1]);
    acts, net := Next(start, acts, net, Action(1, Slot));
    ack := AckFor(net.nodes[2], f);
    Accepting(net.nodes[2], f, payload);
    acts, net := Next(start, acts, net, Action(2, Frames(f)));
  }

  /** The acknowledgement comes back, and it stays on the air for ever. */
  lemma FirstExchange(start: Network, payload: Octets) returns (acts: seq<Action>, net: Network, f: Frame, ack: Frame)
    requires |payload| < 10 && Pair(start)
    ensures IsNetRun(start, acts, net) && Idle(net, 1, map[], [f]) && Carries(f, payload)
    ensures ack in net.air && ack.kind.ACK? && ack.dst == 1 && ack.seqNo == 1
  {
    acts, net, f, ack := FirstDelivery(start, payload);
    assert ack in Transmitted(net.nodes[2]);
    acts, net := Next(start, acts, net, Action(2, Slot));
    acts, net := Next(start, acts, net, Action(1, Frames(ack)));
  }

  lemma SentAgain(n: Node, payload: Octets)
    requires |payload| < 10 && n.id == 1 && n.running && n.nextSeq == 1 && |n.sent| == 255 && n.midway == {}
    ensures var m := SendEnd(SendBegin(n, payload, 2), 255, 0);
      && m.id == 1 && m.running && |m.sent| == 256 && Carries(m.sent[255], payload)
      && m.pending == (if 1 in n.pending then n.pending else n.pending[1 := Pending(m.sent[255], 0, 0, 255, 0)])
      && (1 in n.pending ==> 255 in m.lost)
  {
  }

  lemma StaleFires(n: Node, ack: Frame)
    requires n.id == 1 && n.running && 1 in n.pending && n.pending[1].id == 255
    requires ack.kind.ACK? && ack.dst == 1 && ack.seqNo == 1
    ensures var m := Step(n, Frames(ack)); m.sent == n.sent && Outcome(255, true) in m.fired
  {
    var m := Step(n, Frames(ack));
    assert m.fired[|m.fired| - 1] == Outcome(255, true);
  }

  /** Send number 256 takes sequence number 1 again. */
  lemma WrappedSend(start: Network, acts: seq<Action>, net: Network, payload: Octets, pending: map<Byte, Pending>,
          got: seq<Frame>)
    returns (acts': seq<Action>, net': Network)
    requires |payload| < 10 && IsNetRun(start, acts, net) && Idle(net, 255, pending, got)
    ensures IsNetRun(start, acts', net') && 1 in net'.nodes && 2 in net'.nodes && net'.air == net.air
    ensures net'.nodes[2].accepted == got
    ensures var n := net'.nodes[1];
      && n.id == 1 && n.running && |n.sent| == 256 && Carries(n.sent[255], payload)
      && n.pending == (if 1 in pending then pending else pending[1 := Pending(n.sent[255], 0, 0, 255, 0)])
      && (1 in pending ==> 255 in n.lost)
  {
    var start := start;
    SentAgain(net.nodes[1], payload);
    acts', net' := Next(start, acts, net, Action(1, Begin(payload, 2)));
    acts', net' := Next(start, acts', net', Action(1, End(255, 0)));
  }

  /** The old acknowledgement is on the air while send number 256 waits under its number. */
  lemma StaleSituation(start: Network, one: Octets, two: Octets)
    returns (acts: seq<Action>, net: Network, first: Frame, ack: Frame)
    requires Pair(start) && |one| < 10 && |two| < 10
    ensures IsNetRun(start, acts, net) && 1 in net.nodes && 2 in net.nodes
    ensures Carries(first, one) && net.nodes[2].accepted == [first]
    ensures ack in net.air && ack.kind.ACK? && ack.dst == 1 && ack.seqNo == 1
    ensures var n := net.nodes[1];
      && n.id == 1 && n.running && |n.sent| == 256 && Carries(n.sent[255], two)
      && 1 in n.pending && n.pending[1].id == 255
  {
    acts, net, first, ack := FirstExchange(start, one);
    acts, net := Broadcasts(start, acts, net, 1, map[], [first], 254);
    acts, net := WrappedSend(start, acts, net, two, map[], [first]);
  }

  /** With 256 sends the promise fails: a repeated old acknowledgement reports success for a frame
      that the addressee has never accepted. */
  lemma StaleAcknowledgement(one: Octets, two: Octets) returns (acts: seq<Action>, net: Network, o: Outcome)
    requires |one| < 10 && |two| < 10 && one != two
    ensures IsNetRun(Quiet({1, 2}), acts, net) && 1 in net.nodes && 2 in net.nodes && |net.nodes[1].sent| == 256
    ensures o in net.nodes[1].fired && o.ok && o.id == 255
    ensures net.nodes[1].sent[255].dst == 2 && net.nodes[1].sent[255] !in net.nodes[2].accepted
  {
    var start := Quiet({1, 2});
    var first, ack;
    acts, net, first, ack := StaleSituation(start, one, two);
    o := Outcome(255, true);
    StaleFires(net.nodes[1], ack);
    acts, net := Next(start, acts, net, Action(1, Frames(ack)));
  }

  /** With 256 sends a callback can also be dropped without ever being run. */
  lemma DroppedCallback(payload: Octets) returns (acts: seq<Action>, net: Network)
    requires |payload| < 10
    ensures IsNetRun(Quiet({1, 2}), acts, net) && 1 in net.nodes && |net.nodes[1].sent| == 256
    ensures 255 in net.nodes[1].lost
  {
    var start := Quiet({1, 2});
    var f;
    acts, net, f := FirstSend(start, payload);
    var pending := map[1 as Byte := Pending(f, 0, 0, 0, 0)];
    acts, net := Broadcasts(start, acts, net, 1, pending, [], 254);
    acts, net := WrappedSend(start, acts, net, payload, pending, []);
  }

  /* ---- what the duplicate filter remembers ---- */

  /** The node looks the frame up in its filter, under the given sender. */
  predicate Filtered(n: Node, g: Frame, src: Byte) {
    (g.dst == n.id || g.dst == BROADCAST_ID) && !g.kind.ACK? && g.src == src
  }

  function ReceiveAll(n: Node, fs: seq<Frame>): Node {
    if fs == [] then n else Receive(ReceiveAll(n, fs[..|fs| - 1]), fs[|fs| - 1])
  }

  /** The last of the frames that the node looks up under the sender, if any. */
  function LastFiltered(n: Node, fs: seq<Frame>, src: Byte): Option<Frame> {
    if fs == [] then None
    else if Filtered(n, fs[|fs| - 1], src) then Some(fs[|fs| - 1])
    else LastFiltered(n, fs[..|fs| - 1], src)
  }

  function Remembered(n: Node, src: Byte): Option<Byte> {
    if src in n.last then Some(n.last[src]) else None
  }

  /** The filter holds the number of the last such frame, and of nothing else. */
  lemma {:induction false} FilterRemembers(n: Node, fs: seq<Frame>, src: Byte)
    ensures var m := ReceiveAll(n, fs);
      && m.id == n.id
      && Remembered(m, src) ==
          match LastFiltered(n, fs, src) case Some(g) => Some(g.seqNo) case None => Remembered(n, src)
  {
    if fs != [] {
      FilterRemembers(n, fs[..|fs| - 1], src);
    }
  }

  /** After a DATA frame has been received, a further copy of it is dropped exactly when the last frame
      of its sender that the node has looked up since then, DATA or heartbeat, carries its number, or
      when there has been none. Otherwise the copy is accepted again. */
  lemma CopyDroppedIff(n: Node, f: Frame, fs: seq<Frame>)
    requires f.kind.DATA? && Filtered(n, f, f.src)
    ensures var m, last := ReceiveAll(Receive(n, f), fs), LastFiltered(n, fs, f.src);
      && (Receive(m, f) == m <==> (last.Some? ==> last.value.seqNo == f.seqNo))
      && (Receive(m, f) != m ==> Receive(m, f).accepted == m.accepted + [f])
  {
    var m1 := Receive(n, f);
    assert Remembered(m1, f.src) == Some(f.seqNo) && m1.id == n.id;
    FilterRemembers(m1, fs, f.src);
    SameFiltered(n, m1, fs, f.src);
    var m := ReceiveAll(m1, fs);
    assert IsDuplicate(m, f) <==> Remembered(m, f.src) == Some(f.seqNo);
    if !IsDuplicate(m, f) {
      assert |Receive(m, f).accepted| == |m.accepted| + 1;
    }
  }

  lemma {:induction false} SameFiltered(n: Node, m: Node, fs: seq<Frame>, src: Byte)
    requires n.id == m.id
    ensures LastFiltered(n, fs, src) == LastFiltered(m, fs, src)
  {
    if fs != [] {
      SameFiltered(n, m, fs[..|fs| - 1], src);
    }
  }

  /** So one frame in between, a heartbeat or another DATA frame, makes the filter accept the same frame
      twice; without one it does not. */
  lemma OneInBetween(n: Node, f: Frame, g: Frame)
    requires f.kind.DATA? && Filtered(n, f, f.src) && !IsDuplicate(n, f)
    ensures Receive(Receive(n, f), f).accepted == n.accepted + [f]
    ensures Filtered(n, g, f.src) && g.seqNo != f.seqNo ==>
      Receive(Receive(Receive(n, f), g), f).accepted
      == n.accepted + [f] + (if g.kind.DATA? then [g] else []) + [f]
  {
    CopyDroppedIff(n, f, []);
    CopyDroppedIff(n, f, [g]);
    assert [g][..0] == [];
    assert ReceiveAll(Receive(n, f), [g]) == Receive(Receive(n, f), g);
  }
}
