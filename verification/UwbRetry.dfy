/** Whole runs of one UWB node: every frame goes on the line as often as it was queued, and a frame
    that nobody acknowledges is sent four times and then given up
    (src/Master/src/uwb/UwbHandle.cpp).
 */
module UwbRetries {
  import opened Basics
  import opened UwbFrameCodec
  import opened UwbHandles

  /* ---- what goes on the line ---- */

  function RunFrom(n: Node, events: seq<Event>): Node {
    if events == [] then n else Step(RunFrom(n, events[..|events| - 1]), events[|events| - 1])
  }

  /** All frames written in a run. */
  function Written(n: Node, events: seq<Event>): seq<Frame> {
    if events == [] then []
    else
      Written(n, events[..|events| - 1])
      + if events[|events| - 1].Slot? then Transmitted(RunFrom(n, events[..|events| - 1])) else []
  }

  lemma {:induction false} RunIs(n: Node, events: seq<Event>, m: Node)
    requires IsRun(n, events, m)
    ensures m == RunFrom(n, events)
    decreases |events|
  {
    if events != [] {
      var front, e := events[..|events| - 1], events[|events| - 1];
      var mid :| IsRun(n, front, mid) && Enabled(mid, e) && m == Step(mid, e);
      RunIs(n, front, mid);
    }
  }

  function Count(frames: seq<Frame>, f: Frame): nat {
    if frames == [] then 0 else Count(frames[..|frames| - 1], f) + if frames[|frames| - 1] == f then 1 else 0
  }

  lemma {:induction false} CountAppend(a: seq<Frame>, b: seq<Frame>, f: Frame)
    ensures Count(a + b, f) == Count(a, f) + Count(b, f)
    decreases |b|
  {
    if b == [] {
      assert a + b == a;
    } else {
      CountAppend(a, b[..|b| - 1], f);
      assert (a + b)[..|a + b| - 1] == a + b[..|b| - 1];
    }
  }

  /** How often the calls that sent this frame have queued it. */
  function Copies(sent: seq<Frame>, queued: seq<nat>, f: Frame): nat
    requires |sent| == |queued|
  {
    if sent == [] then 0
    else
      Copies(sent[..|sent| - 1], queued[..|queued| - 1], f)
      + if sent[|sent| - 1] == f then queued[|queued| - 1] else 0
  }

  lemma CopiesSnoc(sent: seq<Frame>, queued: seq<nat>, g: Frame, f: Frame)
    requires |sent| == |queued|
    ensures Copies(sent + [g], queued + [1], f) == Copies(sent, queued, f) + if g == f then 1 else 0
  {
    assert (sent + [g])[..|sent|] == sent && (queued + [1])[..|queued|] == queued;
  }

  lemma {:induction false} CopiesMore(sent: seq<Frame>, queued: seq<nat>, i: nat, f: Frame)
    requires |sent| == |queued| && i < |sent|
    ensures Copies(sent, queued[i := queued[i] + 1], f) == Copies(sent, queued, f) + if sent[i] == f then 1 else 0
    decreases |sent|
  {
    var last := |sent| - 1;
    if i < last {
      CopiesMore(sent[..last], queued[..last], i, f);
      assert queued[i := queued[i] + 1][..last] == queued[..last][i := queued[i] + 1];
    } else {
      assert queued[i := queued[i] + 1][..last] == queued[..last];
    }
  }

  predicate AcksOnly(frames: seq<Frame>) {
    forall f :: f in frames ==> f.kind.ACK?
  }

  lemma {:induction false} NoData(frames: seq<Frame>, f: Frame)
    requires AcksOnly(frames) && f.kind.DATA?
    ensures Count(frames, f) == 0
  {
    if frames != [] {
      NoData(frames[..|frames| - 1], f);
    }
  }

  /** What has been written and what waits in the queue make up what was queued. */
  ghost predicate Conserved(n: Node, line: seq<Frame>, f: Frame) {
    && AcksOnly(n.ackQueue)
    && |n.sent| == |n.queued| && Count(line, f) + Count(n.sendQueue, f) == Copies(n.sent, n.queued, f)
  }

  lemma QueuedMore(n: Node, m: Node, line: seq<Frame>, f: Frame, g: Frame)
    requires Conserved(n, line, f) && m.ackQueue == n.ackQueue && m.sendQueue == n.sendQueue + [g]
    requires |m.sent| == |m.queued|
    requires Copies(m.sent, m.queued, f) == Copies(n.sent, n.queued, f) + if g == f then 1 else 0
    ensures Conserved(m, line, f)
  {
    CountAppend(n.sendQueue, [g], f);
    assert [g][..0] == [];
    assert Count([g], f) == if g == f then 1 else 0;
  }

  lemma SlotConserves(n: Node, line: seq<Frame>, f: Frame)
    requires Conserved(n, line, f) && f.kind.DATA?
    ensures Conserved(Step(n, Slot), line + Transmitted(n), f)
  {
    CountAppend(line, Transmitted(n), f);
    CountAppend(n.sendQueue, n.ackQueue, f);
    NoData(n.ackQueue, f);
  }

  lemma SameQueueConserves(n: Node, m: Node, line: seq<Frame>, f: Frame)
    requires Conserved(n, line, f) && m.sent == n.sent && m.queued == n.queued
    requires m.sendQueue == n.sendQueue && AcksOnly(m.ackQueue)
    ensures Conserved(m, line, f)
  {
  }

  lemma RetryQueues(n: Node, k: Byte, now: int)
    requires Sound(n) && k in n.pending && IsDue(n.pending[k], now) && n.pending[k].retries < MAX_RETRIES
    ensures var m, i := ExpireOne(n, k, now), n.pending[k].id;
      && i < |n.sent| && i < |n.queued| && n.sent[i] == n.pending[k].frame
      && m.sent == n.sent && m.queued == n.queued[i := n.queued[i] + 1]
      && m.ackQueue == n.ackQueue && m.sendQueue == n.sendQueue + [n.sent[i]]
  {
    assert PendingAt(n, k);
  }

  lemma CopyConserves(n: Node, m: Node, line: seq<Frame>, f: Frame, i: nat)
    requires Conserved(n, line, f) && i < |n.sent| && m.sent == n.sent && m.queued == n.queued[i := n.queued[i] + 1]
    requires m.ackQueue == n.ackQueue && m.sendQueue == n.sendQueue + [n.sent[i]]
    ensures Conserved(m, line, f)
  {
    CopiesMore(n.sent, n.queued, i, f);
    QueuedMore(n, m, line, f, n.sent[i]);
  }

  lemma ExpireConserves(n: Node, line: seq<Frame>, f: Frame, k: Byte, now: int)
    requires Sound(n) && Conserved(n, line, f)
    ensures Conserved(ExpireOne(n, k, now), line, f)
  {
    var m := ExpireOne(n, k, now);
    if k in n.pending && IsDue(n.pending[k], now) && n.pending[k].retries < MAX_RETRIES {
      RetryQueues(n, k, now);
      CopyConserves(n, m, line, f, n.pending[k].id);
    } else {
      SameQueueConserves(n, m, line, f);
    }
  }

  /** A received frame queues an acknowledgement at most. */
  lemma ReceiveQueues(n: Node, f: Frame)
    requires AcksOnly(n.ackQueue)
    ensures var m := Receive(n, f);
      && AcksOnly(m.ackQueue) && m.sendQueue == n.sendQueue && m.sent == n.sent && m.queued == n.queued && m.id == n.id
  {
  }

  lemma BeginConserves(n: Node, line: seq<Frame>, f: Frame, payload: Octets, dst: Byte)
    requires Conserved(n, line, f)
    ensures Conserved(Step(n, Begin(payload, dst)), line, f)
  {
    if !Refuses(n, payload) {
      var g := MakeFrame(n.id, dst, n.nextSeq, DATA, payload);
      CopiesSnoc(n.sent, n.queued, g, f);
      QueuedMore(n, Step(n, Begin(payload, dst)), line, f, g);
    }
  }

  lemma PulseConserves(n: Node, line: seq<Frame>, f: Frame)
    requires Conserved(n, line, f) && f.kind.DATA?
    ensures Conserved(Step(n, Pulse), line, f)
  {
    if n.running {
      QueuedMore(n, Step(n, Pulse), line, f, Heartbeat(n));
    }
  }

  lemma StepConserves(n: Node, line: seq<Frame>, f: Frame, e: Event)
    requires Sound(n) && Conserved(n, line, f) && f.kind.DATA? && !e.Slot?
    ensures Conserved(Step(n, e), line, f)
  {
    match e
    case Begin(payload, dst) => BeginConserves(n, line, f, payload, dst);
    case Expire(k, now) => ExpireConserves(n, line, f, k, now);
    case Pulse => PulseConserves(n, line, f);
    case _ =>
      QuietStep(n, e);
      SameQueueConserves(n, Step(n, e), line, f);
  }

  lemma QuietStep(n: Node, e: Event)
    requires AcksOnly(n.ackQueue) && (e.Start? || e.Stop? || e.End? || e.Frames?)
    ensures var m := Step(n, e);
      && AcksOnly(m.ackQueue) && m.sendQueue == n.sendQueue && m.sent == n.sent && m.queued == n.queued
  {
    if e.Stop? {
      ClearedLocal(n.(running := false), e.order);
    } else if e.Frames? {
      ReceiveQueues(n, e.frame);
    }
  }

  /** In every run each DATA frame has been written, or waits to be, exactly as often as the calls that
      sent it have queued it. */
  lemma {:induction false} CopiesOnLine(id: Byte, events: seq<Event>, n: Node, f: Frame)
    requires IsRun(Fresh(id), events, n) && f.kind.DATA?
    ensures Conserved(n, Written(Fresh(id), events), f)
    decreases |events|
  {
    if events != [] {
      var front, e := events[..|events| - 1], events[|events| - 1];
      var mid :| IsRun(Fresh(id), front, mid) && Enabled(mid, e) && n == Step(mid, e);
      RetryAccounting(id, front, mid);
      CopiesOnLine(id, front, mid, f);
      RunIs(Fresh(id), front, mid);
      var line := Written(Fresh(id), front);
      if e.Slot? {
        SlotConserves(mid, line, f);
      } else {
        StepConserves(mid, line, f, e);
        assert line + [] == line;
      }
    }
  }

  function Sum(counts: seq<nat>): nat {
    if counts == [] then 0 else Sum(counts[..|counts| - 1]) + counts[|counts| - 1]
  }

  lemma SumSnoc(counts: seq<nat>, n: nat)
    ensures Sum(counts + [n]) == Sum(counts) + n
  {
    assert (counts + [n])[..|counts|] == counts;
  }

  lemma {:induction false} SumMore(counts: seq<nat>, i: nat)
    requires i < |counts|
    ensures Sum(counts[i := counts[i] + 1]) == Sum(counts) + 1
    decreases |counts|
  {
    var last := |counts| - 1;
    if i < last {
      SumMore(counts[..last], i);
      assert counts[i := counts[i] + 1][..last] == counts[..last][i := counts[i] + 1];
    } else {
      assert counts[i := counts[i] + 1][..last] == counts[..last];
    }
  }

  /** In every run the statistics count every copy but the first of each call as a retransmission. */
  lemma {:induction false} RetransmissionsCounted(id: Byte, events: seq<Event>, n: Node)
    requires IsRun(Fresh(id), events, n)
    ensures Sum(n.queued) == |n.sent| + n.tally.retransmissions
    decreases |events|
  {
    if events != [] {
      var front, e := events[..|events| - 1], events[|events| - 1];
      var mid :| IsRun(Fresh(id), front, mid) && Enabled(mid, e) && n == Step(mid, e);
      RetryAccounting(id, front, mid);
      RetransmissionsCounted(id, front, mid);
      CountStep(mid, e);
    }
  }

  predicate Counted(n: Node) {
    Sum(n.queued) == |n.sent| + n.tally.retransmissions
  }

  lemma RetryCounts(n: Node, k: Byte, now: int)
    requires Sound(n) && Counted(n)
    ensures Counted(ExpireOne(n, k, now))
  {
    if k in n.pending && IsDue(n.pending[k], now) && n.pending[k].retries < MAX_RETRIES {
      RetryQueues(n, k, now);
      SumMore(n.queued, n.pending[k].id);
    }
  }

  lemma CountStep(n: Node, e: Event)
    requires Sound(n) && Counted(n)
    ensures Counted(Step(n, e))
  {
    match e
    case Begin(payload, dst) => SumSnoc(n.queued, 1);
    case Stop(order) => ClearedCounts(n.(running := false), order);
    case Expire(k, now) => RetryCounts(n, k, now);
    case _ =>
  }

  lemma {:induction false} ClearedCounts(n: Node, order: seq<Byte>)
    ensures Cleared(n, order).tally.retransmissions == n.tally.retransmissions
    ensures Cleared(n, order).queued == n.queued && Cleared(n, order).sent == n.sent
  {
    if order != [] {
      ClearedCounts(n, order[..|order| - 1]);
    }
  }

  /* ---- a frame that is not acknowledged ---- */

  /** The node takes the frame as the acknowledgement of number k. */
  predicate Acknowledges(id: Byte, f: Frame, k: Byte) {
    f.kind.ACK? && f.seqNo == k && (f.dst == id || f.dst == 255)
  }

  /** Nothing answers number k, and the node is not stopped. */
  predicate Unanswered(id: Byte, events: seq<Event>, k: Byte) {
    forall e :: e in events ==> Ignores(id, e, k)
  }

  predicate Ignores(id: Byte, e: Event, k: Byte) {
    !e.Stop? && !(e.Frames? && Acknowledges(id, e.frame, k))
  }

  /** How often the timeout of an entry has been checked two seconds or more after the time before that
      counted, and when that was last. */
  function Dues(events: seq<Event>, k: Byte, since: int): (nat, int) {
    if events == [] then (0, since)
    else
      var (count, last) := Dues(events[..|events| - 1], k, since);
      var e := events[|events| - 1];
      if e.Expire? && e.key == k && e.at - last >= 2000 then (count + 1, e.at) else (count, last)
  }

  /** Call i waits under number k, its frame has been queued once and `count` times more. */
  predicate WaitsStill(n: Node, k: Byte, i: nat, count: nat, last: int) {
    && k in n.pending && n.pending[k].id == i && n.pending[k].retries == count && n.pending[k].sendTime == last
    && i < |n.queued| && n.queued[i] == 1 + count
  }

  /** Call i has failed after four copies. */
  predicate HasFailed(n: Node, i: nat) {
    Outcome(i, false) in n.fired && i < |n.queued| && n.queued[i] == 4
  }

  /** Another number's timeout, and everything but timeouts. */
  lemma WaitingStays(n: Node, e: Event, k: Byte, i: nat, count: nat, last: int)
    requires Numbered(n) && AllPending(n) && WaitsStill(n, k, i, count, last) && Ignores(n.id, e, k)
    requires !(e.Expire? && e.key == k && e.at - last >= 2000)
    ensures WaitsStill(Step(n, e), k, i, count, last)
  {
    assert PendingAt(n, k);
    if e.Expire? && e.key != k && e.key in n.pending {
      assert PendingAt(n, e.key) && SentAt(n, i) && SentAt(n, n.pending[e.key].id);
    }
  }

  lemma WaitingDue(n: Node, k: Byte, at: int, i: nat, count: nat, last: int)
    requires AllPending(n) && WaitsStill(n, k, i, count, last) && at - last >= 2000 && count <= 3
    ensures var m := Step(n, Expire(k, at));
      if count < 3 then WaitsStill(m, k, i, count + 1, at) else HasFailed(m, i)
  {
    assert PendingAt(n, k);
    if count == 3 {
      assert Step(n, Expire(k, at)).fired[|n.fired|] == Outcome(i, false);
    }
  }

  lemma {:induction false} FiredCounts(fired: seq<Outcome>, i: nat, ok: bool)
    requires Outcome(i, ok) in fired
    ensures Firings(fired, i) >= 1
  {
    if fired[|fired| - 1] != Outcome(i, ok) {
      FiredCounts(fired[..|fired| - 1], i, ok);
    }
  }

  lemma FailedStep(n: Node, e: Event, i: nat)
    requires Sound(n) && HasFailed(n, i) && !e.Stop?
    ensures HasFailed(Step(n, e), i)
  {
    FiredCounts(n.fired, i, false);
    assert FateOf(n, i);
    if e.Expire? && e.key in n.pending {
      assert PendingAt(n, e.key) && SentAt(n, n.pending[e.key].id);
      assert n.pending[e.key].id != i;
    }
  }

  predicate Fares(n: Node, k: Byte, i: nat, dues: (nat, int)) {
    if dues.0 < 4 then WaitsStill(n, k, i, dues.0, dues.1) else HasFailed(n, i)
  }

  lemma FaresOn(n: Node, e: Event, k: Byte, i: nat, front: seq<Event>, since: int)
    requires Sound(n) && Fares(n, k, i, Dues(front, k, since)) && Ignores(n.id, e, k)
    ensures Fares(Step(n, e), k, i, Dues(front + [e], k, since))
  {
    assert (front + [e])[..|front|] == front;
    var (count, last) := Dues(front, k, since);
    if count >= 4 {
      FailedStep(n, e, i);
    } else if e.Expire? && e.key == k && e.at - last >= 2000 {
      WaitingDue(n, k, e.at, i, count, last);
    } else {
      WaitingStays(n, e, k, i, count, last);
    }
  }

  lemma StepKeepsId(n: Node, e: Event)
    ensures Step(n, e).id == n.id
  {
    if e.Stop? {
      ClearedLocal(n.(running := false), e.order);
    }
  }

  /** A registered call that is neither acknowledged nor stopped has been queued once more for each due
      check; at the fourth it fails, after exactly four copies. */
  lemma {:induction false} GivenUpAtFourth(n: Node, events: seq<Event>, m: Node, k: Byte)
    requires Sound(n) && k in n.pending && n.pending[k].retries == 0
    requires IsRun(n, events, m) && Unanswered(n.id, events, k)
    ensures Sound(m) && m.id == n.id
    ensures Fares(m, k, n.pending[k].id, Dues(events, k, n.pending[k].sendTime))
    decreases |events|
  {
    if events == [] {
      assert PendingAt(n, k);
    } else {
      var front, e := events[..|events| - 1], events[|events| - 1];
      var mid :| IsRun(n, front, mid) && Enabled(mid, e) && m == Step(mid, e);
      assert front + [e] == events && e in events;
      GivenUpAtFourth(n, front, mid, k);
      StepKeeps(mid, e);
      StepKeepsId(mid, e);
      FaresOn(mid, e, k, n.pending[k].id, front, n.pending[k].sendTime);
    }
  }

  /** In particular from the moment at which a call has been registered in any run of the node. */
  lemma UnansweredFails(id: Byte, events: seq<Event>, n: Node, call: nat, now: int, more: seq<Event>, m: Node)
    requires IsRun(Fresh(id), events, n) && call in n.midway && call < |n.sent|
    requires n.sent[call].dst != 255 && n.sent[call].seqNo !in n.pending
    requires IsRun(Step(n, End(call, now)), more, m) && Unanswered(n.id, more, n.sent[call].seqNo)
    ensures Fares(m, n.sent[call].seqNo, call, Dues(more, n.sent[call].seqNo, now))
  {
    RetryAccounting(id, events, n);
    StepKeeps(n, End(call, now));
    GivenUpAtFourth(Step(n, End(call, now)), more, m, n.sent[call].seqNo);
  }

  /* ---- a stopped node ---- */

  /** A node that does not run neither accepts nor remembers frames, queues no acknowledgement, and sends
      nothing new, until it is started. */
  lemma {:induction false} StoppedIsQuiet(n: Node, events: seq<Event>, m: Node)
    requires !n.running && IsRun(n, events, m) && Start !in events
    ensures !m.running && m.accepted == n.accepted && m.last == n.last && m.sent == n.sent
    ensures m.ackQueue == n.ackQueue || m.ackQueue == []
    decreases |events|
  {
    if events != [] {
      var front, e := events[..|events| - 1], events[|events| - 1];
      var mid :| IsRun(n, front, mid) && Enabled(mid, e) && m == Step(mid, e);
      assert e in events;
      StoppedIsQuiet(n, front, mid);
      QuietWhenStopped(mid, e);
    }
  }

  lemma QuietWhenStopped(n: Node, e: Event)
    requires !n.running && !e.Start? && Enabled(n, e)
    ensures var m := Step(n, e);
      && !m.running && m.accepted == n.accepted && m.last == n.last && m.sent == n.sent
      && (m.ackQueue == n.ackQueue || m.ackQueue == [])
  {
  }

  /* ---- heartbeats ---- */

  /** A heartbeat reaches every node and changes nothing there but the number remembered of its sender,
      which becomes 0. */
  lemma HeartbeatHeard(n: Node, m: Node)
    ensures var after := Receive(m, Heartbeat(n));
      && n.id in after.last && after.last[n.id] == 0
      && (forall k :: k != n.id ==> (k in after.last <==> k in m.last) && (k in m.last ==> after.last[k] == m.last[k]))
      && after.(last := m.last) == m
  {
  }
}
