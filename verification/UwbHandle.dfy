/** One UWB node: sending with acknowledgement and retransmission, the duplicate filter, and
    the accounting of callbacks (src/Master/src/uwb/UwbHandle.cpp).
 */
module UwbHandles {
  import opened Basics
  import opened UwbFrameCodec
  import opened UwbHttpText

  const ACK_TIMEOUT_MS := 2000
  const MAX_RETRIES := 3

  /** A frame that waits for its acknowledgement. `id` names the call of send_http_reliable whose
      callback is stored; `since` is the time of registration. */
  datatype Pending = Pending(frame: Frame, sendTime: int, retries: nat, id: nat, since: int)

  /** One invocation of a callback. A null callback is one that nobody listens to. */
  datatype Outcome = Outcome(id: nat, ok: bool)

  /** The fields of Handle, followed by its history. Calls of send_http_reliable that are not
      refused are numbered in order: call i sent frame sent[i] and queued it queued[i] times. */
  datatype Node = Node(
    id: Byte,
    running: bool,
    nextSeq: Byte,
    sendQueue: seq<Frame>,
    ackQueue: seq<Frame>,
    pending: map<Byte, Pending>,
    last: map<Byte, Byte>,
    midway: set<nat>,
    sent: seq<Frame>,
    queued: seq<nat>,
    fired: seq<Outcome>,
    lost: set<nat>,
    accepted: seq<Frame>,
    tally: Tally)

  /** Events counted without bound; the program's own counters hold them modulo 2^32. */
  datatype Tally = Tally(refused: nat, registered: nat, acks: nat, timeouts: nat, retransmissions: nat, cleared: nat)

  function Fresh(id: Byte): Node {
    Node(id, false, 1, [], [], map[], map[], {}, [], [], [], {}, [], Tally(0, 0, 0, 0, 0, 0))
  }

  /* ---- the steps ---- */

  function NextSeq(s: Byte): Byte {
    if s == 255 then 1 else s + 1
  }

  function Fire(n: Node, id: nat, ok: bool): Node {
    n.(fired := n.fired + [Outcome(id, ok)])
  }

  predicate Refuses(n: Node, payload: Octets) {
    !n.running || |payload| > MAX_PAYLOAD
  }

  /** send_http_reliable up to the push onto the send queue. A refused call fails at once. */
  function SendBegin(n: Node, payload: Octets, dst: Byte): Node {
    if Refuses(n, payload) then n.(tally := n.tally.(refused := n.tally.refused + 1))
    else
      var f := MakeFrame(n.id, dst, n.nextSeq, DATA, payload);
      n.(nextSeq := NextSeq(n.nextSeq), sendQueue := n.sendQueue + [f], midway := n.midway + {|n.sent|},
         sent := n.sent + [f], queued := n.queued + [1])
  }

  /** The rest of the call: a broadcast succeeds at once, a unicast is registered. emplace leaves
      an entry that is already there alone, and the new callback is dropped. */
  function SendEnd(n: Node, i: nat, now: int): Node {
    if i !in n.midway || i >= |n.sent| then n
    else
      var f, m := n.sent[i], n.(midway := n.midway - {i});
      if f.dst == BROADCAST_ID then Fire(m, i, true)
      else if f.seqNo in n.pending then m.(lost := n.lost + {i})
      else m.(pending := n.pending[f.seqNo := Pending(f, now, 0, i, now)],
              tally := n.tally.(registered := n.tally.registered + 1))
  }

  function ReceiveAck(n: Node, f: Frame): Node {
    if f.seqNo !in n.pending then n
    else Fire(n, n.pending[f.seqNo].id, true).(pending := n.pending - {f.seqNo},
                                              tally := n.tally.(acks := n.tally.acks + 1))
  }

  predicate IsDuplicate(n: Node, f: Frame) {
    f.src in n.last && n.last[f.src] == f.seqNo
  }

  predicate WantsAck(f: Frame) {
    f.dst != BROADCAST_ID && f.kind.DATA?
  }

  function AckFor(n: Node, f: Frame): Frame {
    MakeFrame(n.id, f.src, f.seqNo, ACK, [])
  }

  /** A DATA frame or a heartbeat: a repetition of the last number of its sender is dropped
      without a new acknowledgement. */
  function ReceiveData(n: Node, f: Frame): Node {
    if IsDuplicate(n, f) then n
    else n.(last := n.last[f.src := f.seqNo],
            ackQueue := if WantsAck(f) then n.ackQueue + [AckFor(n, f)] else n.ackQueue,
            accepted := if f.kind.DATA? then n.accepted + [f] else n.accepted)
  }

  /** handle_received_frame. */
  function Receive(n: Node, f: Frame): Node {
    if f.dst != n.id && f.dst != BROADCAST_ID then n
    else if f.kind.ACK? then ReceiveAck(n, f)
    else ReceiveData(n, f)
  }

  /** on_my_slot puts the data frames and then the acknowledgements on the line. */
  function Transmitted(n: Node): seq<Frame> {
    n.sendQueue + n.ackQueue
  }

  function Drained(n: Node): Node {
    n.(sendQueue := [], ackQueue := [])
  }

  predicate IsDue(p: Pending, now: int) {
    now - p.sendTime >= ACK_TIMEOUT_MS
  }

  /** check_timeouts, for one entry. */
  function ExpireOne(n: Node, k: Byte, now: int): Node {
    if k !in n.pending || !IsDue(n.pending[k], now) then n
    else
      var p := n.pending[k];
      if p.retries < MAX_RETRIES then
        n.(pending := n.pending[k := p.(retries := p.retries + 1, sendTime := now)],
           sendQueue := n.sendQueue + [p.frame],
           queued := if p.id < |n.queued| then n.queued[p.id := n.queued[p.id] + 1] else n.queued,
           tally := n.tally.(retransmissions := n.tally.retransmissions + 1))
      else GivenUp(n, k)
  }

  function GivenUp(n: Node, k: Byte): Node
    requires k in n.pending
  {
    Fire(n, n.pending[k].id, false).(pending := n.pending - {k}, tally := n.tally.(timeouts := n.tally.timeouts + 1))
  }

  function Expired(n: Node, order: seq<Byte>, now: int): Node {
    if order == [] then n
    else ExpireOne(Expired(n, order[..|order| - 1], now), order[|order| - 1], now)
  }

  /** stop, for one entry. */
  function ClearOne(n: Node, k: Byte): Node {
    if k !in n.pending then n else Notified(n, k).(pending := n.pending - {k})
  }

  function Notified(n: Node, k: Byte): Node
    requires k in n.pending
  {
    Fire(n, n.pending[k].id, false).(tally := n.tally.(cleared := n.tally.cleared + 1))
  }

  function Cleared(n: Node, order: seq<Byte>): Node {
    if order == [] then n else ClearOne(Cleared(n, order[..|order| - 1]), order[|order| - 1])
  }

  function Heartbeat(n: Node): Frame {
    MakeFrame(n.id, BROADCAST_ID, 0, HEARTBEAT, "HB:" + Decimal(n.id))
  }

  function Beat(n: Node): Node {
    if !n.running then n else n.(sendQueue := n.sendQueue + [Heartbeat(n)])
  }

  /** Everything that can happen inside one node. */
  datatype Event =
    | Start
    | Stop(order: seq<Byte>)
    | Begin(payload: Octets, dst: Byte)
    | End(call: nat, now: int)
    | Frames(frame: Frame)
    | Slot
    | Expire(key: Byte, at: int)
    | Pulse

  /** stop visits each entry once, in some order. */
  ghost predicate Lists(order: seq<Byte>, keys: set<Byte>) {
    && (forall k :: k in order <==> k in keys)
    && forall i, j :: 0 <= i < j < |order| ==> order[i] != order[j]
  }

  ghost predicate Enabled(n: Node, e: Event) {
    e.Stop? ==> n.running && Lists(e.order, n.pending.Keys)
  }

  function Step(n: Node, e: Event): Node {
    match e
    case Start => n.(running := true)
    case Stop(order) => Cleared(n.(running := false), order)
    case Begin(payload, dst) => SendBegin(n, payload, dst)
    case End(call, now) => SendEnd(n, call, now)
    case Frames(f) => if n.running then Receive(n, f) else n
    case Slot => Drained(n)
    case Expire(k, now) => ExpireOne(n, k, now)
    case Pulse => Beat(n)
  }

  /** A run in which each event is one the node can take. */
  ghost predicate IsRun(start: Node, events: seq<Event>, end: Node)
    decreases |events|
  {
    if events == [] then start == end
    else
      var e := events[|events| - 1];
      exists mid :: IsRun(start, events[..|events| - 1], mid) && Enabled(mid, e) && end == Step(mid, e)
  }

  /* ---- what every step keeps ---- */

  /** The sequence number of call i: 1 to 255, over and over. */
  function SeqAt(i: nat): Byte {
    i % 255 + 1
  }

  lemma NextSeqAt(i: nat)
    ensures NextSeq(SeqAt(i)) == SeqAt(i + 1)
  {
  }

  /** Any 255 consecutive sends use distinct numbers, none of them zero. */
  lemma SeqDistinct(i: nat, j: nat)
    requires i < j
    ensures SeqAt(i) != 0 && (j < i + 255 ==> SeqAt(i) != SeqAt(j)) && SeqAt(i) == SeqAt(i + 255)
  {
  }

  predicate SentAt(n: Node, i: nat)
    requires i < |n.sent|
  {
    n.sent[i].seqNo == SeqAt(i) && n.sent[i].src == n.id && n.sent[i].kind.DATA?
  }

  predicate Numbered(n: Node) {
    n.nextSeq == SeqAt(|n.sent|) && |n.queued| == |n.sent| && forall i :: 0 <= i < |n.sent| ==> SentAt(n, i)
  }

  predicate PendingAt(n: Node, k: Byte)
    requires k in n.pending
  {
    var p := n.pending[k];
    && p.id < |n.sent| && p.id < |n.queued| && p.frame == n.sent[p.id]
    && p.frame.seqNo == k && p.frame.dst != BROADCAST_ID
    && p.retries <= MAX_RETRIES && n.queued[p.id] == 1 + p.retries
    && p.sendTime >= p.since + ACK_TIMEOUT_MS * p.retries
  }

  predicate AllPending(n: Node) {
    forall k :: k in n.pending ==> PendingAt(n, k)
  }

  predicate CopiesAt(n: Node, i: nat)
    requires i < |n.queued|
  {
    1 <= n.queued[i] <= 1 + MAX_RETRIES
  }

  predicate Copies(n: Node) {
    forall i :: 0 <= i < |n.queued| ==> CopiesAt(n, i)
  }

  /** How often the callback of call i has been invoked. */
  function Firings(fired: seq<Outcome>, i: nat): nat {
    if fired == [] then 0
    else Firings(fired[..|fired| - 1], i) + if fired[|fired| - 1].id == i then 1 else 0
  }

  predicate Waits(n: Node, i: nat) {
    SeqAt(i) in n.pending && n.pending[SeqAt(i)].id == i
  }

  function One(b: bool): nat {
    if b then 1 else 0
  }

  /** Call i is between its two halves, or waits, or was dropped, or its callback ran once. */
  predicate FateOf(n: Node, i: nat) {
    One(i in n.midway) + One(Waits(n, i)) + One(i in n.lost) + Firings(n.fired, i) == One(i < |n.sent|)
  }

  ghost predicate Fates(n: Node) {
    forall i: nat :: FateOf(n, i)
  }

  predicate Balanced(n: Node) {
    n.tally.registered == |n.pending| + n.tally.acks + n.tally.timeouts + n.tally.cleared
  }

  predicate MidwayAt(n: Node, i: nat) {
    i < |n.queued| && n.queued[i] == 1
  }

  predicate AllMidway(n: Node) {
    forall i :: i in n.midway ==> MidwayAt(n, i)
  }

  ghost predicate Sound(n: Node) {
    Numbered(n) && AllPending(n) && AllMidway(n) && Copies(n) && Fates(n) && Balanced(n)
  }

  lemma FireOnce(fired: seq<Outcome>, o: Outcome, i: nat)
    ensures Firings(fired + [o], i) == Firings(fired, i) + One(o.id == i)
  {
    assert (fired + [o])[..|fired|] == fired;
  }

  lemma FreshSound(id: Byte)
    ensures Sound(Fresh(id))
  {
  }

  predicate SameFate(n: Node, m: Node, i: nat) {
    && (i in m.midway <==> i in n.midway) && (i in m.lost <==> i in n.lost)
    && (Waits(m, i) <==> Waits(n, i)) && Firings(m.fired, i) == Firings(n.fired, i)
  }

  /** The calls and the copies of their frames are as before. */
  predicate SameSends(n: Node, m: Node) {
    m.id == n.id && m.nextSeq == n.nextSeq && m.sent == n.sent && m.queued == n.queued
  }

  lemma KeptNumbered(n: Node, m: Node)
    requires Numbered(n) && Copies(n) && SameSends(n, m)
    ensures Numbered(m) && Copies(m)
  {
    forall i | 0 <= i < |m.sent| ensures SentAt(m, i) {
      assert SentAt(n, i);
    }
    forall i | 0 <= i < |m.queued| ensures CopiesAt(m, i) {
      assert CopiesAt(n, i);
    }
  }

  lemma KeptPending(n: Node, m: Node)
    requires AllPending(n) && AllMidway(n) && m.sent == n.sent && m.queued == n.queued && m.midway <= n.midway
    requires forall k :: k in m.pending ==> k in n.pending && m.pending[k] == n.pending[k]
    ensures AllPending(m) && AllMidway(m)
  {
    forall k | k in m.pending ensures PendingAt(m, k) {
      assert PendingAt(n, k);
    }
    forall i | i in m.midway ensures MidwayAt(m, i) {
      assert MidwayAt(n, i);
    }
  }

  lemma KeptFates(n: Node, m: Node)
    requires Fates(n) && |m.sent| == |n.sent| && forall i: nat :: SameFate(n, m, i)
    ensures Fates(m)
  {
    forall i: nat ensures FateOf(m, i) {
      assert FateOf(n, i) && SameFate(n, m, i);
    }
  }

  /** A step that touches none of the calls. */
  lemma SameCalls(n: Node, m: Node)
    requires Sound(n) && SameSends(n, m) && m.pending == n.pending && m.midway == n.midway
    requires m.fired == n.fired && m.lost == n.lost && m.tally.(refused := 0) == n.tally.(refused := 0)
    ensures Sound(m)
  {
    KeptNumbered(n, m);
    KeptPending(n, m);
    KeptFates(n, m);
  }

  lemma BeginFates(n: Node, m: Node)
    requires Fates(n) && |m.sent| == |n.sent| + 1 && m.midway == n.midway + {|n.sent|}
    requires m.fired == n.fired && m.lost == n.lost && m.pending == n.pending
    ensures Fates(m)
  {
    forall i: nat ensures FateOf(m, i) {
      assert FateOf(n, i);
      assert Waits(m, i) == Waits(n, i);
    }
  }

  /** One more call, whose frame has been queued once. */
  predicate OneMore(n: Node, m: Node) {
    && m.id == n.id && m.pending == n.pending && m.midway == n.midway + {|n.sent|}
    && |m.sent| == |n.sent| + 1 && m.sent[..|n.sent|] == n.sent && m.queued == n.queued + [1]
  }

  lemma BeginEntries(n: Node, m: Node)
    requires AllPending(n) && AllMidway(n) && |n.queued| == |n.sent| && OneMore(n, m)
    ensures AllPending(m) && AllMidway(m)
  {
    forall k | k in m.pending ensures PendingAt(m, k) {
      assert PendingAt(n, k);
      assert m.sent[n.pending[k].id] == m.sent[..|n.sent|][n.pending[k].id];
    }
    forall i | i in m.midway ensures MidwayAt(m, i) {
      assert i in n.midway ==> MidwayAt(n, i);
    }
  }

  lemma BeginNumbers(n: Node, m: Node)
    requires Numbered(n) && Copies(n) && OneMore(n, m) && SentAt(m, |n.sent|) && m.nextSeq == NextSeq(n.nextSeq)
    ensures Numbered(m) && Copies(m)
  {
    NextSeqAt(|n.sent|);
    forall i | 0 <= i < |m.sent| ensures SentAt(m, i) {
      if i < |n.sent| {
        assert SentAt(n, i);
        assert m.sent[i] == m.sent[..|n.sent|][i];
      }
    }
    forall i | 0 <= i < |m.queued| ensures CopiesAt(m, i) {
      if i < |n.sent| {
        assert CopiesAt(n, i);
      }
    }
  }

  lemma BeginKeeps(n: Node, payload: Octets, dst: Byte)
    requires Sound(n) && !Refuses(n, payload)
    ensures Sound(SendBegin(n, payload, dst))
  {
    var m := SendBegin(n, payload, dst);
    assert OneMore(n, m);
    BeginFates(n, m);
    BeginEntries(n, m);
    BeginNumbers(n, m);
  }

  /** Call j changes its place, and no other call does. */
  lemma MovedFates(n: Node, m: Node, j: nat)
    requires Fates(n) && |m.sent| == |n.sent| && FateOf(m, j) && forall i: nat :: i != j ==> SameFate(n, m, i)
    ensures Fates(m)
  {
    forall i: nat ensures FateOf(m, i) {
      assert FateOf(n, i);
      assert i != j ==> SameFate(n, m, i);
    }
  }

  /** The callback of call j runs and its entry k, if it has one, is gone. */
  lemma FiredKeeps(n: Node, m: Node, j: nat, ok: bool, k: Byte)
    requires Sound(n) && SameSends(n, m) && m.lost == n.lost && m.fired == n.fired + [Outcome(j, ok)]
    requires || (j in n.midway && m.midway == n.midway - {j} && m.pending == n.pending)
             || (k in n.pending && n.pending[k].id == j && m.midway == n.midway && m.pending == n.pending - {k})
    requires Balanced(m)
    ensures Sound(m)
  {
    KeptNumbered(n, m);
    KeptPending(n, m);
    if k in n.pending {
      assert PendingAt(n, k);
      if n.pending[k].id < |n.sent| {
        assert SentAt(n, n.pending[k].id);
      }
    }
    forall i: nat | i != j ensures SameFate(n, m, i) {
      FireOnce(n.fired, Outcome(j, ok), i);
    }
    FireOnce(n.fired, Outcome(j, ok), j);
    assert FateOf(n, j);
    MovedFates(n, m, j);
  }

  lemma EntryGone(p: map<Byte, Pending>, k: Byte)
    requires k in p
    ensures |p - {k}| == |p| - 1
  {
    assert (p - {k}).Keys == p.Keys - {k};
    assert |(p - {k}).Keys| == |p.Keys| - 1;
  }

  lemma RegisterKeeps(n: Node, j: nat, now: int)
    requires Sound(n) && j in n.midway && j < |n.sent| && n.sent[j].dst != BROADCAST_ID && n.sent[j].seqNo !in n.pending
    ensures Sound(SendEnd(n, j, now))
  {
    var m, k := SendEnd(n, j, now), n.sent[j].seqNo;
    KeptNumbered(n, m);
    assert FateOf(n, j) && SentAt(n, j) && MidwayAt(n, j);
    forall i: nat | i != j ensures SameFate(n, m, i) {
    }
    MovedFates(n, m, j);
    forall q | q in m.pending ensures PendingAt(m, q) {
      if q != k {
        assert PendingAt(n, q);
      }
    }
    forall i | i in m.midway ensures MidwayAt(m, i) {
      assert MidwayAt(n, i);
    }
    assert |m.pending| == |n.pending| + 1;
  }

  lemma LostKeeps(n: Node, j: nat, now: int)
    requires Sound(n) && j in n.midway && j < |n.sent| && n.sent[j].dst != BROADCAST_ID && n.sent[j].seqNo in n.pending
    ensures Sound(SendEnd(n, j, now))
  {
    var m := SendEnd(n, j, now);
    KeptNumbered(n, m);
    KeptPending(n, m);
    assert FateOf(n, j);
    forall i: nat | i != j ensures SameFate(n, m, i) {
    }
    MovedFates(n, m, j);
  }

  lemma EndKeeps(n: Node, j: nat, now: int)
    requires Sound(n)
    ensures Sound(SendEnd(n, j, now))
  {
    if j in n.midway && j < |n.sent| {
      if n.sent[j].dst == BROADCAST_ID {
        FiredKeeps(n, SendEnd(n, j, now), j, true, 0);
      } else if n.sent[j].seqNo in n.pending {
        LostKeeps(n, j, now);
      } else {
        RegisterKeeps(n, j, now);
      }
    }
  }

  lemma AckKeeps(n: Node, f: Frame)
    requires Sound(n)
    ensures Sound(ReceiveAck(n, f))
  {
    if f.seqNo in n.pending {
      EntryGone(n.pending, f.seqNo);
      FiredKeeps(n, ReceiveAck(n, f), n.pending[f.seqNo].id, true, f.seqNo);
    }
  }

  lemma ReceiveKeeps(n: Node, f: Frame)
    requires Sound(n)
    ensures Sound(Receive(n, f))
  {
    AckKeeps(n, f);
    SameCalls(n, ReceiveData(n, f));
  }

  lemma ClearKeeps(n: Node, k: Byte)
    requires Sound(n)
    ensures Sound(ClearOne(n, k))
  {
    if k in n.pending {
      EntryGone(n.pending, k);
      FiredKeeps(n, ClearOne(n, k), n.pending[k].id, false, k);
    }
  }

  lemma {:induction false} ClearedKeeps(n: Node, order: seq<Byte>)
    requires Sound(n)
    ensures Sound(Cleared(n, order))
  {
    if order != [] {
      ClearedKeeps(n, order[..|order| - 1]);
      ClearKeeps(Cleared(n, order[..|order| - 1]), order[|order| - 1]);
    }
  }

  lemma RetryKeeps(n: Node, k: Byte, now: int)
    requires Sound(n) && k in n.pending && IsDue(n.pending[k], now) && n.pending[k].retries < MAX_RETRIES
    ensures Sound(ExpireOne(n, k, now))
  {
    var m, j := ExpireOne(n, k, now), n.pending[k].id;
    assert PendingAt(n, k) && SentAt(n, j) && FateOf(n, j);
    forall i: nat ensures SameFate(n, m, i) {
    }
    KeptFates(n, m);
    forall i | 0 <= i < |m.sent| ensures SentAt(m, i) {
      assert SentAt(n, i);
    }
    forall q | q in m.pending ensures PendingAt(m, q) {
      assert PendingAt(n, q);
    }
    forall i | i in m.midway ensures MidwayAt(m, i) {
      assert MidwayAt(n, i);
    }
    forall i | 0 <= i < |m.queued| ensures CopiesAt(m, i) {
      assert CopiesAt(n, i);
    }
    assert m.pending.Keys == n.pending.Keys;
    assert |m.pending.Keys| == |n.pending.Keys|;
  }

  lemma ExpireKeeps(n: Node, k: Byte, now: int)
    requires Sound(n)
    ensures Sound(ExpireOne(n, k, now))
  {
    if k in n.pending && IsDue(n.pending[k], now) {
      if n.pending[k].retries < MAX_RETRIES {
        RetryKeeps(n, k, now);
      } else {
        EntryGone(n.pending, k);
        FiredKeeps(n, ExpireOne(n, k, now), n.pending[k].id, false, k);
      }
    }
  }

  lemma StepKeeps(n: Node, e: Event)
    requires Sound(n)
    ensures Sound(Step(n, e))
  {
    match e
    case Start => SameCalls(n, Step(n, e));
    case Stop(order) =>
      SameCalls(n, n.(running := false));
      ClearedKeeps(n.(running := false), order);
    case Begin(payload, dst) =>
      if Refuses(n, payload) {
        SameCalls(n, Step(n, e));
      } else {
        BeginKeeps(n, payload, dst);
      }
    case End(call, now) => EndKeeps(n, call, now);
    case Frames(f) => ReceiveKeeps(n, f);
    case Slot => SameCalls(n, Step(n, e));
    case Expire(k, now) => ExpireKeeps(n, k, now);
    case Pulse => SameCalls(n, Step(n, e));
  }

  /** The accounting of every run: each call of send_http_reliable is under way, waits, lost its
      callback to an older entry of the same number, or has had its callback run exactly once; its
      frame has been queued one to four times; and registrations add up. */
  lemma {:induction false} RetryAccounting(id: Byte, events: seq<Event>, n: Node)
    requires IsRun(Fresh(id), events, n)
    ensures Sound(n)
    ensures forall i: nat :: i < |n.sent| ==>
      One(i in n.midway) + One(Waits(n, i)) + One(i in n.lost) + Firings(n.fired, i) == 1
    ensures |n.queued| == |n.sent| && forall i :: 0 <= i < |n.queued| ==> 1 <= n.queued[i] <= 1 + MAX_RETRIES
    ensures n.tally.registered == |n.pending| + n.tally.acks + n.tally.timeouts + n.tally.cleared
    decreases |events|
  {
    if events == [] {
      FreshSound(id);
    } else {
      var e := events[|events| - 1];
      var mid :| IsRun(Fresh(id), events[..|events| - 1], mid) && Enabled(mid, e) && n == Step(mid, e);
      RetryAccounting(id, events[..|events| - 1], mid);
      StepKeeps(mid, e);
    }
    forall i: nat | i < |n.sent|
      ensures One(i in n.midway) + One(Waits(n, i)) + One(i in n.lost) + Firings(n.fired, i) == 1 {
      assert FateOf(n, i);
    }
    forall i | 0 <= i < |n.queued| ensures 1 <= n.queued[i] <= 1 + MAX_RETRIES {
      assert CopiesAt(n, i);
    }
  }

  predicate LostLate(n: Node) {
    n.lost != {} ==> |n.sent| > 255
  }

  lemma {:induction false} ClearedLocal(n: Node, order: seq<Byte>)
    ensures var m := Cleared(n, order);
      && m.id == n.id && m.sent == n.sent && m.accepted == n.accepted && m.lost == n.lost
      && m.sendQueue == n.sendQueue && m.ackQueue == n.ackQueue && m.running == n.running && m.queued == n.queued
  {
    if order != [] {
      ClearedLocal(n, order[..|order| - 1]);
    }
  }

  lemma SameNumberFar(i: nat, j: nat)
    requires i != j && SeqAt(i) == SeqAt(j)
    ensures i >= 255 || j >= 255
  {
    if i < j {
      SeqDistinct(i, j);
    } else {
      SeqDistinct(j, i);
    }
  }

  lemma EndLostLate(n: Node, i: nat, now: int)
    requires Sound(n) && LostLate(n) && i in n.midway && i < |n.sent| && n.sent[i].seqNo in n.pending
    ensures LostLate(SendEnd(n, i, now))
  {
    var k := n.sent[i].seqNo;
    var j := n.pending[k].id;
    assert PendingAt(n, k) && SentAt(n, i) && SentAt(n, j) && FateOf(n, i);
    assert Waits(n, j);
    SameNumberFar(i, j);
  }

  lemma StepLostLate(n: Node, e: Event)
    requires Sound(n) && LostLate(n)
    ensures LostLate(Step(n, e))
  {
    if e.Stop? {
      ClearedLocal(n.(running := false), e.order);
    } else if e.End? {
      if e.call in n.midway && e.call < |n.sent| && n.sent[e.call].seqNo in n.pending {
        EndLostLate(n, e.call, e.now);
      }
    }
  }

  /** No callback is dropped before a number has been used twice. */
  lemma {:induction false} NoneLostEarly(id: Byte, events: seq<Event>, n: Node)
    requires IsRun(Fresh(id), events, n) && |n.sent| <= 255
    ensures n.lost == {}
  {
    AllLostLate(id, events, n);
  }

  lemma {:induction false} AllLostLate(id: Byte, events: seq<Event>, n: Node)
    requires IsRun(Fresh(id), events, n)
    ensures LostLate(n)
    decreases |events|
  {
    if events != [] {
      var e := events[|events| - 1];
      var mid :| IsRun(Fresh(id), events[..|events| - 1], mid) && Enabled(mid, e) && n == Step(mid, e);
      RetryAccounting(id, events[..|events| - 1], mid);
      AllLostLate(id, events[..|events| - 1], mid);
      StepLostLate(mid, e);
    }
  }

  /** check_timeouts gives a frame up only after four copies and eight seconds. */
  lemma GivenUpLate(n: Node, k: Byte, now: int)
    requires Sound(n) && k in n.pending && ExpireOne(n, k, now).tally.timeouts > n.tally.timeouts
    ensures n.queued[n.pending[k].id] == 1 + MAX_RETRIES && now >= n.pending[k].since + 4 * ACK_TIMEOUT_MS
  {
    assert PendingAt(n, k);
  }

  /* ---- one round of check_timeouts ---- */

  /** Two seconds have passed since the frame was last queued. */
  predicate Overdue(p: Pending, now: int) {
    now - p.sendTime >= 2000
  }

  /** The frames to be sent again, and the calls to be told of a failure: a frame is sent again three
      times. */
  function DueFrames(pending: map<Byte, Pending>, order: seq<Byte>, now: int): seq<Frame>
    requires forall k :: k in order ==> k in pending
  {
    if order == [] then []
    else
      var p := pending[order[|order| - 1]];
      DueFrames(pending, order[..|order| - 1], now) + if Overdue(p, now) && p.retries < 3 then [p.frame] else []
  }

  function DueFailures(pending: map<Byte, Pending>, order: seq<Byte>, now: int): seq<Outcome>
    requires forall k :: k in order ==> k in pending
  {
    if order == [] then []
    else
      var p := pending[order[|order| - 1]];
      DueFailures(pending, order[..|order| - 1], now)
      + if Overdue(p, now) && p.retries >= 3 then [Outcome(p.id, false)] else []
  }

  /** What becomes of an entry. */
  predicate Treated(p: Pending, pending: map<Byte, Pending>, k: Byte, now: int) {
    if !Overdue(p, now) then k in pending && pending[k] == p
    else if p.retries < 3 then k in pending && pending[k] == p.(retries := p.retries + 1, sendTime := now)
    else k !in pending
  }

  predicate Selects(order: seq<Byte>, n: Node) {
    && (forall k :: k in order ==> k in n.pending)
    && forall i, j :: 0 <= i < j < |order| ==> order[i] != order[j]
  }

  /** Each entry is treated once, and the others stay. */
  lemma {:induction false} ExpiredEntries(n: Node, order: seq<Byte>, now: int)
    requires Selects(order, n)
    ensures Expired(n, order, now).pending.Keys <= n.pending.Keys
    ensures forall k :: k in order ==> Treated(n.pending[k], Expired(n, order, now).pending, k, now)
    ensures forall k :: k in n.pending && k !in order ==>
      k in Expired(n, order, now).pending && Expired(n, order, now).pending[k] == n.pending[k]
  {
    if order != [] {
      var front, k := order[..|order| - 1], order[|order| - 1];
      ExpiredEntries(n, front, now);
      assert k !in front;
      assert forall q :: q in order <==> q in front || q == k;
    }
  }

  /** What a round sends again, and whom it tells. */
  lemma {:induction false} ExpiredEffect(n: Node, order: seq<Byte>, now: int)
    requires Selects(order, n)
    ensures Expired(n, order, now).sendQueue == n.sendQueue + DueFrames(n.pending, order, now)
    ensures Expired(n, order, now).fired == n.fired + DueFailures(n.pending, order, now)
  {
    if order == [] {
      assert n.sendQueue + [] == n.sendQueue && n.fired + [] == n.fired;
    } else {
      var front, k := order[..|order| - 1], order[|order| - 1];
      ExpiredEffect(n, front, now);
      ExpiredEntries(n, front, now);
      assert k !in front;
      var m := Expired(n, front, now);
      assert m.pending[k] == n.pending[k];
      assert m.sendQueue + [] == m.sendQueue && m.fired + [] == m.fired;
    }
  }

  /** The calls that stop tells of a failure. */
  function Failures(pending: map<Byte, Pending>, order: seq<Byte>): seq<Outcome>
    requires forall k :: k in order ==> k in pending
  {
    if order == [] then []
    else Failures(pending, order[..|order| - 1]) + [Outcome(pending[order[|order| - 1]].id, false)]
  }

  lemma {:induction false} ClearedEffect(n: Node, order: seq<Byte>)
    requires Selects(order, n)
    ensures Cleared(n, order).fired == n.fired + Failures(n.pending, order)
    ensures Cleared(n, order).pending == map k | k in n.pending && k !in order :: n.pending[k]
  {
    if order == [] {
      assert n.fired + [] == n.fired;
    } else {
      var front, k := order[..|order| - 1], order[|order| - 1];
      ClearedEffect(n, front);
      assert k !in front && forall q :: q in order <==> q in front || q == k;
    }
  }

  /* ---- the class ---- */

  function Wrapped(count: nat): uint32 {
    count % U32
  }

  function Increment(x: uint32): uint32 {
    if x == U32 - 1 then 0 else x + 1
  }

  lemma WrappedIncrement(count: nat)
    ensures Wrapped(count + 1) == Increment(Wrapped(count))
  {
  }

  /** The requests handed to InterfaceRouter::handle: the accepted frames whose text parses. */
  function Routed(accepted: seq<Frame>): seq<Request> {
    if accepted == [] then []
    else Routed(accepted[..|accepted| - 1]) + Delivery(Parsed(accepted[|accepted| - 1].payload))
  }

  function Delivery(r: Option<Request>): seq<Request> {
    if r.None? then [] else [r.value]
  }

  lemma RoutedNext(accepted: seq<Frame>, f: Frame, r: Option<Request>)
    requires r == Parsed(f.payload)
    ensures Routed(accepted + [f]) == Routed(accepted) + Delivery(r)
  {
    assert (accepted + [f])[..|accepted|] == accepted;
  }

  class Handle {
    const nodeId: Byte
    var running: bool
    var sendQueue: seq<Frame>
    var ackQueue: seq<Frame>
    var pendingAcks: map<Byte, Pending>
    var lastReceivedSeq: map<Byte, Byte>
    var nextSeq: Byte
    var acksReceived: uint32
    var retransmissions: uint32
    var timeouts: uint32
    var callbacks: seq<Outcome>
    var routed: seq<Request>

    ghost var midway: set<nat>
    ghost var sent: seq<Frame>
    ghost var queued: seq<nat>
    ghost var lost: set<nat>
    ghost var accepted: seq<Frame>
    ghost var tally: Tally

    ghost function View(): Node
      reads this
    {
      Node(nodeId, running, nextSeq, sendQueue, ackQueue, pendingAcks, lastReceivedSeq,
           midway, sent, queued, callbacks, lost,
           accepted, tally)
    }

    /** The counters of get_stats. */
    ghost predicate CountersRight()
      reads this
    {
      && acksReceived == Wrapped(tally.acks) && retransmissions == Wrapped(tally.retransmissions)
      && timeouts == Wrapped(tally.timeouts)
    }

    /** What has reached the router. */
    ghost predicate RoutedRight()
      reads `routed, `accepted
    {
      routed == Routed(accepted)
    }

    constructor (nodeId: Byte)
      ensures CountersRight() && RoutedRight() && View() == Fresh(nodeId)
    {
      this.nodeId := nodeId;
      running, nextSeq := false, 1;
      sendQueue, ackQueue, pendingAcks, lastReceivedSeq := [], [], map[], map[];
      acksReceived, retransmissions, timeouts := 0, 0, 0;
      callbacks, routed := [], [];
      midway, sent, queued, lost, accepted, tally := {}, [], [], {}, [], Tally(0, 0, 0, 0, 0, 0);
    }

    /** `serialOk` is the result of init_serial. */
    method Run(serialOk: bool)
      modifies `running
      ensures View() == if serialOk then Step(old(View()), Start) else old(View())
    {
      if running || !serialOk {
        return;
      }
      running := true;
    }

    /** Callbacks are numbered in the order of the calls that are not refused. */
    method SendHttpReliable(req: Request, dst: Byte, callback: nat, now: int) returns (refused: bool)
      requires CountersRight() && callback == |sent|
      modifies `nextSeq, `sendQueue, `midway, `sent, `queued, `pendingAcks, `callbacks, `lost, `tally
      ensures CountersRight()
      ensures refused == Refuses(old(View()), Serialized(req))
      ensures refused <==> !old(running) || |Serialized(req)| > 65535
      ensures !refused ==>
        && sendQueue == old(sendQueue) + [MakeFrame(nodeId, dst, old(nextSeq), DATA, Serialized(req))]
        && (dst == 255 ==> callbacks == old(callbacks) + [Outcome(callback, true)])
        && (dst != 255 && old(nextSeq !in pendingAcks) ==>
              old(nextSeq) in pendingAcks && pendingAcks[old(nextSeq)]
              == Pending(MakeFrame(nodeId, dst, old(nextSeq), DATA, Serialized(req)), now, 0, callback, now))
      ensures View() == if refused then SendBegin(old(View()), Serialized(req), dst)
                        else SendEnd(SendBegin(old(View()), Serialized(req), dst), callback, now)
    {
      if !running {
        tally := tally.(refused := tally.refused + 1);
        return true;
      }
      var serialized := SerializeHttpRequest(req);
      if |serialized| > MAX_PAYLOAD {
        tally := tally.(refused := tally.refused + 1);
        return true;
      }
      var frame := Enqueue(serialized, dst);
      AwaitAck(frame, callback, now);
      refused := false;
    }

    method Enqueue(serialized: Octets, dst: Byte) returns (frame: Frame)
      requires !Refuses(View(), serialized)
      modifies `nextSeq, `sendQueue, `midway, `sent, `queued
      ensures View() == SendBegin(old(View()), serialized, dst) && sent == old(sent) + [frame]
    {
      var s := TakeSeq();
      frame := MakeFrame(nodeId, dst, s, DATA, serialized);
      sendQueue := sendQueue + [frame];
      midway, sent, queued := midway + {|sent|}, sent + [frame], queued + [1];
    }

    method TakeSeq() returns (s: Byte)
      modifies `nextSeq
      ensures s == old(nextSeq) && nextSeq == NextSeq(s)
    {
      s := nextSeq;
      nextSeq := if nextSeq == 255 then 0 else nextSeq + 1;
      if nextSeq == 0 {
        nextSeq := 1;
      }
    }

    /** emplace does nothing when the number is taken. */
    method AwaitAck(frame: Frame, callback: nat, now: int)
      requires callback in midway && callback < |sent| && frame == sent[callback]
      modifies `midway, `pendingAcks, `callbacks, `lost, `tally
      ensures View() == SendEnd(old(View()), callback, now)
      ensures old(CountersRight()) ==> CountersRight()
    {
      midway := midway - {callback};
      if frame.dst != BROADCAST_ID {
        if frame.seqNo !in pendingAcks {
          pendingAcks := pendingAcks[frame.seqNo := Pending(frame, now, 0, callback, now)];
          tally := tally.(registered := tally.registered + 1);
        } else {
          lost := lost + {callback};
        }
      } else {
        callbacks := callbacks + [Outcome(callback, true)];
      }
    }

    method HandleReceivedFrame(frame: Frame)
      requires CountersRight() && RoutedRight()
      modifies `pendingAcks, `callbacks, `acksReceived, `lastReceivedSeq, `ackQueue, `routed, `accepted, `tally
      ensures CountersRight() && RoutedRight() && View() == Receive(old(View()), frame)
    {
      if frame.dst != nodeId && frame.dst != BROADCAST_ID {
        return;
      }
      if frame.kind.ACK? {
        HandleAck(frame);
      } else {
        HandleData(frame);
      }
    }

    method HandleAck(frame: Frame)
      requires CountersRight()
      modifies `pendingAcks, `callbacks, `acksReceived, `tally
      ensures CountersRight() && View() == ReceiveAck(old(View()), frame)
    {
      if frame.seqNo in pendingAcks {
        WrappedIncrement(tally.acks);
        callbacks := callbacks + [Outcome(pendingAcks[frame.seqNo].id, true)];
        pendingAcks := pendingAcks - {frame.seqNo};
        acksReceived := Increment(acksReceived);
        tally := tally.(acks := tally.acks + 1);
      }
    }

    method HandleData(frame: Frame)
      requires RoutedRight() && !frame.kind.ACK?
      modifies `lastReceivedSeq, `ackQueue, `routed, `accepted
      ensures RoutedRight() && View() == ReceiveData(old(View()), frame)
    {
      var isDuplicate := NoteSequence(frame);
      if isDuplicate {
        return;
      }
      Process(frame);
    }

    method Process(frame: Frame)
      requires RoutedRight() && !frame.kind.ACK?
      modifies `ackQueue, `routed, `accepted
      ensures RoutedRight()
      ensures ackQueue == if WantsAck(frame) then old(ackQueue) + [AckFor(View(), frame)] else old(ackQueue)
      ensures accepted == if frame.kind.DATA? then old(accepted) + [frame] else old(accepted)
    {
      if frame.dst != BROADCAST_ID && !frame.kind.HEARTBEAT? {
        Acknowledge(frame);
      }
      if frame.kind.DATA? {
        Route(frame);
      }
    }

    /** The duplicate filter remembers one number for each sender. */
    method NoteSequence(frame: Frame) returns (isDuplicate: bool)
      modifies `lastReceivedSeq
      ensures isDuplicate == IsDuplicate(old(View()), frame)
      ensures lastReceivedSeq ==
        if isDuplicate then old(lastReceivedSeq) else old(lastReceivedSeq)[frame.src := frame.seqNo]
    {
      isDuplicate := false;
      if frame.src in lastReceivedSeq && lastReceivedSeq[frame.src] == frame.seqNo {
        isDuplicate := true;
      } else {
        lastReceivedSeq := lastReceivedSeq[frame.src := frame.seqNo];
      }
    }

    method Acknowledge(frame: Frame)
      modifies `ackQueue
      ensures ackQueue == old(ackQueue) + [AckFor(View(), frame)]
    {
      ackQueue := ackQueue + [MakeFrame(nodeId, frame.src, frame.seqNo, ACK, [])];
    }

    method Route(frame: Frame)
      requires RoutedRight()
      modifies `routed, `accepted
      ensures RoutedRight() && accepted == old(accepted) + [frame]
    {
      var req := ParseHttpRequest(frame.payload);
      RoutedNext(accepted, frame, req);
      if req.Some? {
        routed := routed + [req.value];
      }
      accepted := accepted + [frame];
    }

    /** The frames go to the serial port in this order. */
    method OnMySlot() returns (written: seq<Frame>)
      modifies `sendQueue, `ackQueue
      ensures View() == Drained(old(View())) && written == Transmitted(old(View()))
      ensures written == old(sendQueue) + old(ackQueue) && sendQueue == [] && ackQueue == []
    {
      written := [];
      while sendQueue != []
        invariant written + sendQueue == old(sendQueue) && ackQueue == old(ackQueue)
        decreases |sendQueue|
      {
        written, sendQueue := written + [sendQueue[0]], sendQueue[1..];
      }
      assert written == old(sendQueue);
      while ackQueue != []
        invariant written + ackQueue == old(sendQueue) + old(ackQueue) && sendQueue == []
        decreases |ackQueue|
      {
        written, ackQueue := written + [ackQueue[0]], ackQueue[1..];
      }
      assert written == old(sendQueue) + old(ackQueue);
    }

    method CheckEntry(k: Byte, now: int)
      requires CountersRight() && k in pendingAcks && pendingAcks[k].id < |queued|
      modifies `pendingAcks, `callbacks, `sendQueue, `retransmissions, `timeouts, `queued, `tally
      ensures CountersRight() && View() == ExpireOne(old(View()), k, now)
    {
      var elapsed := now - pendingAcks[k].sendTime;
      if elapsed >= ACK_TIMEOUT_MS {
        if pendingAcks[k].retries < MAX_RETRIES {
          Retransmit(k, now);
        } else {
          GiveUp(k);
        }
      }
    }

    method Retransmit(k: Byte, now: int)
      requires CountersRight() && k in pendingAcks && pendingAcks[k].id < |queued|
      requires IsDue(pendingAcks[k], now) && pendingAcks[k].retries < MAX_RETRIES
      modifies `pendingAcks, `sendQueue, `retransmissions, `queued, `tally
      ensures CountersRight() && View() == ExpireOne(old(View()), k, now)
    {
      var p := pendingAcks[k];
      WrappedIncrement(tally.retransmissions);
      pendingAcks := pendingAcks[k := p.(retries := p.retries + 1, sendTime := now)];
      sendQueue := sendQueue + [p.frame];
      retransmissions := Increment(retransmissions);
      queued := queued[p.id := queued[p.id] + 1];
      tally := tally.(retransmissions := tally.retransmissions + 1);
    }

    method GiveUp(k: Byte)
      requires CountersRight() && k in pendingAcks
      modifies `pendingAcks, `callbacks, `timeouts, `tally
      ensures CountersRight()
      ensures View() == GivenUp(old(View()), k)
    {
      WrappedIncrement(tally.timeouts);
      callbacks := callbacks + [Outcome(pendingAcks[k].id, false)];
      timeouts := Increment(timeouts);
      pendingAcks := pendingAcks - {k};
      tally := tally.(timeouts := tally.timeouts + 1);
    }

    /** The map is visited in an unspecified order. */
    method CheckTimeouts(now: int) returns (ghost order: seq<Byte>)
      requires CountersRight() && Sound(View())
      modifies `pendingAcks, `callbacks, `sendQueue, `retransmissions, `timeouts, `queued, `tally
      ensures CountersRight() && Lists(order, old(pendingAcks).Keys)
      ensures View() == Expired(old(View()), order, now)
      ensures forall k :: k in old(pendingAcks) ==> Treated(old(pendingAcks)[k], pendingAcks, k, now)
      ensures pendingAcks.Keys <= old(pendingAcks).Keys
      ensures sendQueue == old(sendQueue) + DueFrames(old(pendingAcks), order, now)
      ensures callbacks == old(callbacks) + DueFailures(old(pendingAcks), order, now)
    {
      order := [];
      var todo := pendingAcks.Keys;
      ghost var start := View();
      while todo != {}
        invariant CountersRight() && Visiting(start, View(), order, todo, now)
        decreases |todo|
      {
        var k :| k in todo;
        VisitNext(start, View(), order, todo, k, now);
        CheckEntry(k, now);
        order, todo := order + [k], todo - {k};
      }
      assert start.pending.Keys - todo == start.pending.Keys;
      ExpiredEntries(start, order, now);
      ExpiredEffect(start, order, now);
    }

    /** Every callback that still waits is told of the failure, and then the table is emptied. */
    method Stop() returns (ghost order: seq<Byte>)
      modifies `running, `pendingAcks, `callbacks, `tally
      ensures old(CountersRight()) ==> CountersRight()
      ensures Lists(order, if old(running) then old(pendingAcks).Keys else {})
      ensures View() == if old(running) then Step(old(View()), Event.Stop(order)) else old(View())
      ensures old(running) ==> !running && pendingAcks == map[]
      ensures old(running) ==> callbacks == old(callbacks) + Failures(old(pendingAcks), order)
    {
      order := [];
      if !running {
        return;
      }
      running := false;
      ghost var start := View();
      order := NotifyAll();
      pendingAcks := map[];
      ClearedEffect(start, order);
    }

    method Notify(k: Byte)
      requires k in pendingAcks
      modifies `callbacks, `tally
      ensures View() == Notified(old(View()), k)
    {
      callbacks := callbacks + [Outcome(pendingAcks[k].id, false)];
      tally := tally.(cleared := tally.cleared + 1);
    }

    method NotifyAll() returns (ghost order: seq<Byte>)
      modifies `callbacks, `tally
      ensures Lists(order, pendingAcks.Keys)
      ensures View().(pending := map[]) == Cleared(old(View()), order)
      ensures tally.(cleared := 0) == old(tally).(cleared := 0)
    {
      order := [];
      var todo := pendingAcks.Keys;
      ghost var start := View();
      while todo != {}
        invariant Notifying(start, View(), order, todo)
        invariant tally.(cleared := 0) == start.tally.(cleared := 0)
        decreases |todo|
      {
        var k :| k in todo;
        NotifyNext(start, View(), order, todo, k);
        Notify(k);
        order, todo := order + [k], todo - {k};
      }
      NotifyDone(start, View(), order);
    }

    method BeatOnce()
      modifies `sendQueue
      ensures View() == Beat(old(View()))
      ensures old(running) ==>
        sendQueue == old(sendQueue) + [MakeFrame(nodeId, 255, 0, HEARTBEAT, "HB:" + Decimal(nodeId))]
    {
      if running {
        var data := "HB:" + Decimal(nodeId);
        sendQueue := sendQueue + [MakeFrame(nodeId, BROADCAST_ID, 0, HEARTBEAT, data)];
      }
    }
  }

  lemma ListsNext(order: seq<Byte>, keys: set<Byte>, k: Byte)
    requires Lists(order, keys) && k !in keys
    ensures Lists(order + [k], keys + {k})
  {
  }

  /** check_timeouts has still to visit `todo`. */
  ghost predicate Visiting(start: Node, n: Node, order: seq<Byte>, todo: set<Byte>, now: int) {
    && Sound(n) && n == Expired(start, order, now)
    && todo <= n.pending.Keys && todo <= start.pending.Keys && Lists(order, start.pending.Keys - todo)
  }

  lemma VisitNext(start: Node, n: Node, order: seq<Byte>, todo: set<Byte>, k: Byte, now: int)
    requires Visiting(start, n, order, todo, now) && k in todo
    ensures n.pending[k].id < |n.queued| && Visiting(start, ExpireOne(n, k, now), order + [k], todo - {k}, now)
  {
    assert PendingAt(n, k);
    ExpireKeeps(n, k, now);
    ListsNext(order, start.pending.Keys - todo, k);
    assert start.pending.Keys - (todo - {k}) == (start.pending.Keys - todo) + {k};
    assert (order + [k])[..|order|] == order;
  }

  ghost predicate Notifying(start: Node, n: Node, order: seq<Byte>, todo: set<Byte>) {
    var keys := start.pending.Keys;
    && n.pending == start.pending && todo <= keys && Lists(order, keys - todo)
    && n.(pending := n.pending - (keys - todo)) == Cleared(start, order)
  }

  lemma NotifyDone(start: Node, n: Node, order: seq<Byte>)
    requires Notifying(start, n, order, {})
    ensures n.(pending := map[]) == Cleared(start, order) && Lists(order, start.pending.Keys)
  {
    var keys := start.pending.Keys;
    assert keys - {} == keys;
    assert n.pending - keys == map[];
  }

  lemma NotifyNext(start: Node, n: Node, order: seq<Byte>, todo: set<Byte>, k: Byte)
    requires Notifying(start, n, order, todo) && k in todo
    ensures Notifying(start, Notified(n, k), order + [k], todo - {k})
  {
    var keys := start.pending.Keys;
    ListsNext(order, keys - todo, k);
    assert keys - (todo - {k}) == (keys - todo) + {k};
    assert n.pending - ((keys - todo) + {k}) == (n.pending - (keys - todo)) - {k};
    assert (order + [k])[..|order|] == order;
  }
}
