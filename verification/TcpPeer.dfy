/** The connection to one neighbour over TCP: connecting, writing one request at a time, and the
    counter that reports the link as failed (src/Master/src/tcp/TcpHostInterface.cpp and
    src/Master/src/interface/HostInterface.cpp).
 */
module TcpPeers {
  /** A prepared request. */
  type Request = string

  /** What the peer has told the other hosts about its link. */
  datatype Notice = NewHost | InitWeight | MaxWeight

  /** The fields of TcpHostInterface and HostInterface; the operations under way on the stream;
      and the history: requests passed to send, requests handed to async_write, notices, and the
      failures since the last successful connect. */
  datatype Peer = Peer(
    isConnected: bool,
    isConnecting: bool,
    isReady: bool,
    failTimes: nat,
    queue: seq<Request>,
    connects: nat,
    writes: nat,
    sent: seq<Request>,
    attempted: seq<Request>,
    notices: seq<Notice>,
    failures: nat)

  function Idle(): Peer {
    Peer(false, false, true, 0, [], 0, 0, [], [], [], 0)
  }

  /* ---- the operations ---- */

  function DoConnect(p: Peer): Peer {
    if p.isConnecting then p else p.(isConnected := false, isConnecting := true, connects := p.connects + 1)
  }

  predicate CanWrite(p: Peer) {
    p.isReady && p.isConnected && p.queue != []
  }

  function DoWrite(p: Peer): Peer {
    if !CanWrite(p) then p
    else p.(isReady := false, queue := p.queue[1..], attempted := p.attempted + [p.queue[0]], writes := p.writes + 1)
  }

  function Send(p: Peer, req: Request): Peer {
    var q := p.(queue := p.queue + [req], sent := p.sent + [req]);
    if !q.isConnected then DoConnect(q) else DoWrite(q)
  }

  /** The requests of a broadcast that are routed through this peer re-enter it here. */
  function SendAll(p: Peer, reqs: seq<Request>): Peer {
    if reqs == [] then p else Send(SendAll(p, reqs[..|reqs| - 1]), reqs[|reqs| - 1])
  }

  function Announce(p: Peer, notice: Notice, routed: seq<Request>): Peer {
    SendAll(p.(notices := p.notices + [notice]), routed)
  }

  /** The /new broadcast, the weight broadcast, and the counter is reset. */
  function OnNew(p: Peer, news: seq<Request>, weights: seq<Request>): Peer {
    Announce(Announce(p, NewHost, news), InitWeight, weights).(failTimes := 0, failures := 0)
  }

  function OnFail(p: Peer, weights: seq<Request>): Peer {
    var q := p.(failures := p.failures + 1);
    if q.failTimes > 5 then q
    else
      var r := q.(failTimes := q.failTimes + 1);
      if r.failTimes > 5 then Announce(r, MaxWeight, weights) else r
  }

  /** Completion of async_connect. */
  function OnConnect(p: Peer, ok: bool, news: seq<Request>, weights: seq<Request>): Peer {
    var q := p.(isConnecting := false, connects := if p.connects == 0 then 0 else p.connects - 1);
    if !ok then OnFail(q, weights) else OnNew(DoWrite(q.(isConnected := true)), news, weights)
  }

  /** Completion of async_write. The request of a failed write is not queued again. */
  function OnWrite(p: Peer, ok: bool, weights: seq<Request>): Peer {
    var q := p.(isReady := true, writes := if p.writes == 0 then 0 else p.writes - 1);
    if !ok then DoConnect(OnFail(q, weights)) else DoWrite(q)
  }

  function OnReconnectTimeout(p: Peer, ok: bool): Peer {
    if ok && !p.isConnected then DoConnect(p) else p
  }

  /* ---- runs ---- */

  datatype Event =
    | Run
    | Request(req: Request)
    | Connected(ok: bool, news: seq<Request>, weights: seq<Request>)
    | Written(ok: bool, weights: seq<Request>)
    | Timer(ok: bool)

  /** A completion needs an operation that is under way; run is called before the first connect. */
  predicate Enabled(p: Peer, e: Event) {
    && (e.Run? ==> !p.isConnected)
    && (e.Connected? ==> p.connects > 0) && (e.Written? ==> p.writes > 0)
  }

  function Step(p: Peer, e: Event): Peer {
    match e
    case Run => DoConnect(p)
    case Request(req) => Send(p, req)
    case Connected(ok, news, weights) => OnConnect(p, ok, news, weights)
    case Written(ok, weights) => OnWrite(p, ok, weights)
    case Timer(ok) => OnReconnectTimeout(p, ok)
  }

  ghost predicate IsRun(events: seq<Event>, p: Peer)
    decreases |events|
  {
    if events == [] then p == Idle()
    else
      var e := events[|events| - 1];
      exists q :: IsRun(events[..|events| - 1], q) && Enabled(q, e) && p == Step(q, e)
  }

  /* ---- invariants ---- */

  /** Holds at every moment, also while a broadcast re-enters the peer. */
  predicate Consistent(p: Peer) {
    && (p.isConnected ==> !p.isConnecting) && (!p.isReady ==> p.isConnected)
    && p.connects == (if p.isConnecting then 1 else 0) && p.writes == (if p.isReady then 0 else 1)
    && p.sent == p.attempted + p.queue
  }

  /** The counter and the last notice agree. */
  predicate Reported(p: Peer) {
    && p.failTimes == (if p.failures < 6 then p.failures else 6)
    && (p.failTimes > 5 <==> p.notices != [] && p.notices[|p.notices| - 1] == MaxWeight)
  }

  /** A failed link is announced once before it is announced as restored. */
  predicate Alternating(notices: seq<Notice>) {
    forall i :: 0 < i < |notices| && notices[i] == MaxWeight ==> notices[i - 1] == InitWeight
  }

  /** Every /new broadcast is followed by a weight broadcast of the same handler. */
  predicate EndsHandler(notices: seq<Notice>) {
    notices != [] ==> notices[|notices| - 1] != NewHost
  }

  /** Holds between handlers. */
  predicate Settled(p: Peer) {
    && Consistent(p) && Reported(p) && Alternating(p.notices) && EndsHandler(p.notices)
    && (p.isConnected ==> p.failTimes == 0)
    && (p.isConnected && p.queue != [] ==> !p.isReady)
  }

  lemma Popped(p: Peer)
    requires p.sent == p.attempted + p.queue && p.queue != []
    ensures p.sent == (p.attempted + [p.queue[0]]) + p.queue[1..]
  {
  }

  lemma DoWriteKeeps(p: Peer)
    requires Consistent(p)
    ensures var q := DoWrite(p);
      && Consistent(q) && (q.isConnected && q.queue != [] ==> !q.isReady)
      && q == p.(isReady := q.isReady, queue := q.queue, attempted := q.attempted, writes := q.writes)
  {
    if CanWrite(p) {
      Popped(p);
    }
  }

  lemma SendKeeps(p: Peer, req: Request)
    requires Consistent(p)
    ensures var q := Send(p, req);
      && Consistent(q) && (q.isConnected && q.queue != [] ==> !q.isReady) && q.isConnected == p.isConnected
      && q.failTimes == p.failTimes && q.failures == p.failures && q.notices == p.notices && q.sent == p.sent + [req]
  {
    var q := p.(queue := p.queue + [req], sent := p.sent + [req]);
    assert q.sent == q.attempted + q.queue;
    DoWriteKeeps(q);
  }

  /** Re-entrant sends keep the peer consistent and neither connect nor disconnect it. */
  lemma {:induction false} SendAllKeeps(p: Peer, reqs: seq<Request>)
    requires Consistent(p)
    ensures var q := SendAll(p, reqs);
      && Consistent(q) && q.isConnected == p.isConnected
      && q.failTimes == p.failTimes && q.failures == p.failures && q.notices == p.notices && q.sent == p.sent + reqs
      && ((p.isConnected && p.queue != [] ==> !p.isReady) ==> (q.isConnected && q.queue != [] ==> !q.isReady))
    decreases |reqs|
  {
    if reqs == [] {
      assert p.sent + reqs == p.sent;
    } else {
      SendAllKeeps(p, reqs[..|reqs| - 1]);
      SendKeeps(SendAll(p, reqs[..|reqs| - 1]), reqs[|reqs| - 1]);
      assert reqs == reqs[..|reqs| - 1] + [reqs[|reqs| - 1]];
    }
  }

  lemma AnnounceKeeps(p: Peer, notice: Notice, routed: seq<Request>)
    requires Consistent(p) && (p.isConnected && p.queue != [] ==> !p.isReady)
    ensures var q := Announce(p, notice, routed);
      && Consistent(q) && q.isConnected == p.isConnected && q.notices == p.notices + [notice]
      && q.failTimes == p.failTimes && q.failures == p.failures && (q.isConnected && q.queue != [] ==> !q.isReady)
  {
    SendAllKeeps(p.(notices := p.notices + [notice]), routed);
  }

  lemma OnNewKeeps(p: Peer, news: seq<Request>, weights: seq<Request>)
    requires Consistent(p) && p.isConnected && (p.queue != [] ==> !p.isReady) && Alternating(p.notices)
    ensures Settled(OnNew(p, news, weights))
  {
    var q := Announce(p, NewHost, news);
    AnnounceKeeps(p, NewHost, news);
    AnnounceKeeps(q, InitWeight, weights);
  }

  /** A failure while the peer is not connected. */
  lemma OnFailKeeps(p: Peer, weights: seq<Request>)
    requires Consistent(p) && !p.isConnected && Reported(p) && Alternating(p.notices) && EndsHandler(p.notices)
    ensures Settled(OnFail(p, weights))
  {
    var q := p.(failures := p.failures + 1);
    if q.failTimes == 5 {
      AnnounceKeeps(q.(failTimes := 6), MaxWeight, weights);
    }
  }

  /** A write error finds the counter at zero, so the sixth failure is never counted there and
      nothing is broadcast while the stream is about to be closed. */
  lemma WriteErrorIsQuiet(p: Peer, weights: seq<Request>)
    requires Settled(p) && p.writes > 0
    ensures var q := OnWrite(p, false, weights);
      && q.notices == p.notices && q.queue == p.queue && q.sent == p.sent && q.failTimes == 1
      && q == OnWrite(p, false, [])
  {
  }

  /** Without that, a broadcast in a write error would start a write on the dying connection and
      leave it under way while the next connect is. */
  lemma BroadcastInWriteErrorBreaks(p: Peer, req: Request)
    requires Consistent(p) && p.writes > 0 && p.failTimes == 5
    ensures var q := OnWrite(p, false, [req]); q.writes > 0 && q.connects > 0 && !Consistent(q)
  {
    assert SendAll(Announce(p, MaxWeight, []), []) == Announce(p, MaxWeight, []);
    var q := p.(isReady := true, writes := p.writes - 1, failures := p.failures + 1, failTimes := 6);
    var r := q.(notices := q.notices + [MaxWeight]);
    assert SendAll(r, [req][..0]) == r;
    assert SendAll(r, [req]) == Send(r, req);
  }

  lemma StepKeeps(p: Peer, e: Event)
    requires Settled(p) && Enabled(p, e)
    ensures Settled(Step(p, e))
  {
    match e
    case Run =>
    case Request(req) => SendKeeps(p, req);
    case Connected(ok, news, weights) =>
      var q := p.(isConnecting := false, connects := p.connects - 1);
      if ok {
        DoWriteKeeps(q.(isConnected := true));
        OnNewKeeps(DoWrite(q.(isConnected := true)), news, weights);
      } else {
        OnFailKeeps(q, weights);
      }
    case Written(ok, weights) =>
      if ok {
        DoWriteKeeps(p.(isReady := true, writes := p.writes - 1));
      } else {
        WriteErrorIsQuiet(p, weights);
      }
    case Timer(ok) =>
  }

  /** In every run, with any requests re-entering from the broadcasts: at most one connect or
      write is under way; a write only when connected; connected means not connecting and no
      failures counted; what was attempted followed by the queue is what was passed to send; a
      connected peer with work to do is writing; and failures and repairs alternate. */
  lemma {:induction false} PeerInvariant(events: seq<Event>, p: Peer)
    requires IsRun(events, p)
    ensures Settled(p)
    ensures p.connects + p.writes <= 1
    ensures p.isConnected ==> !p.isConnecting && p.failTimes == 0
    ensures p.writes > 0 ==> p.isConnected && !p.isReady
    ensures p.sent == p.attempted + p.queue
    ensures p.isConnected && p.queue != [] ==> p.writes == 1
    decreases |events|
  {
    if events != [] {
      var e := events[|events| - 1];
      var q :| IsRun(events[..|events| - 1], q) && Enabled(q, e) && p == Step(q, e);
      PeerInvariant(events[..|events| - 1], q);
      StepKeeps(q, e);
    }
  }

  /* ---- progress ---- */

  /** One connect is under way and nothing else. */
  predicate Reconnecting(p: Peer) {
    !p.isConnected && p.isConnecting && p.connects == 1 && p.writes == 0
  }

  /** The first of some requests, if any. */
  function FirstOf(reqs: seq<Request>): seq<Request> {
    if reqs == [] then [] else [reqs[0]]
  }

  /** In every run a peer that is not connected starts a connect, unless one is under way, when it is
      run, when a request is sent, and when the timer expires; and so does any peer after a write
      error. */
  lemma AlwaysReconnects(events: seq<Event>, p: Peer, e: Event)
    requires IsRun(events, p) && Enabled(p, e)
    ensures e.Run? || (!p.isConnected && (e.Request? || e == Timer(true))) || (e.Written? && !e.ok) ==>
      Reconnecting(Step(p, e))
  {
    PeerInvariant(events, p);
    if e.Written? && !e.ok {
      StepKeeps(p, e);
    } else if e.Request? && !p.isConnected {
      SendKeeps(p, e.req);
    }
  }

  /** Otherwise the timer does nothing, and after a failed connect the peer waits for it, disconnected. */
  lemma TimerOnly(events: seq<Event>, p: Peer, e: Event)
    requires IsRun(events, p) && Enabled(p, e)
    ensures e.Timer? && (!e.ok || p.isConnected) ==> Step(p, e) == p
    ensures e.Connected? && !e.ok ==> !Step(p, e).isConnected
  {
    PeerInvariant(events, p);
    if e.Connected? && !e.ok {
      FailNotices(p.(isConnecting := false, connects := p.connects - 1), e.weights);
    }
  }

  lemma FailNotices(p: Peer, weights: seq<Request>)
    requires Consistent(p) && !p.isConnected && Reported(p)
    ensures var q := OnFail(p, weights);
      && q.isConnected == p.isConnected && q.failures == p.failures + 1
      && q.notices == p.notices + (if p.failures == 5 then [MaxWeight] else [])
      && q.sent == p.sent + (if p.failures == 5 then weights else [])
  {
    var q := p.(failures := p.failures + 1);
    if p.failures == 5 {
      SendAllKeeps(q.(failTimes := 6, notices := q.notices + [MaxWeight]), weights);
    }
  }

  /** While a write is under way, further requests only join the queue. */
  lemma {:induction false} SendAllQueues(p: Peer, reqs: seq<Request>)
    requires p.isConnected && !p.isReady
    ensures SendAll(p, reqs) == p.(queue := p.queue + reqs, sent := p.sent + reqs)
  {
    if reqs == [] {
      assert p.queue + reqs == p.queue && p.sent + reqs == p.sent;
    } else {
      var front, last := reqs[..|reqs| - 1], reqs[|reqs| - 1];
      SendAllQueues(p, front);
      assert reqs == front + [last];
      assert (p.queue + front) + [last] == p.queue + reqs && (p.sent + front) + [last] == p.sent + reqs;
    }
  }

  /** An idle connected peer hands the first request over and queues the others. */
  lemma SendAllStarts(p: Peer, reqs: seq<Request>)
    requires Consistent(p) && p.isConnected && (p.isReady ==> p.queue == [])
    ensures var q := SendAll(p, reqs);
      && q.isConnected && q.attempted + q.queue == p.attempted + p.queue + reqs
      && q.attempted == p.attempted + (if p.isReady then FirstOf(reqs) else [])
      && (q.isReady <==> p.isReady && reqs == []) && q.notices == p.notices
    decreases |reqs|
  {
    SendAllKeeps(p, reqs);
    if !p.isReady {
      SendAllQueues(p, reqs);
      assert p.attempted + (p.queue + reqs) == p.attempted + p.queue + reqs;
    } else if reqs != [] {
      var front, last := reqs[..|reqs| - 1], reqs[|reqs| - 1];
      SendAllStarts(p, front);
      var q := SendAll(p, front);
      assert reqs == front + [last];
      if front == [] {
        assert q.queue + [last] == [last];
      } else {
        assert FirstOf(reqs) == FirstOf(front);
      }
    } else {
      assert p.attempted + p.queue + reqs == p.attempted + p.queue;
    }
  }

  /** A broadcast while connected: the first request is handed over if nothing is under way. */
  lemma AnnounceStarts(p: Peer, notice: Notice, reqs: seq<Request>)
    requires Consistent(p) && p.isConnected && (p.isReady ==> p.queue == [])
    ensures var q := Announce(p, notice, reqs);
      && Consistent(q) && q.isConnected && (q.isReady <==> p.isReady && reqs == []) && (q.isReady ==> q.queue == [])
      && q.attempted == p.attempted + (if p.isReady then FirstOf(reqs) else [])
      && q.notices == p.notices + [notice] && q.sent == p.sent + reqs
  {
    SendAllStarts(p.(notices := p.notices + [notice]), reqs);
    SendAllKeeps(p.(notices := p.notices + [notice]), reqs);
  }

  lemma FirstOfThree(a: seq<Request>, b: seq<Request>, c: seq<Request>)
    ensures FirstOf(a + b + c)
         == FirstOf(a) + (if a == [] then FirstOf(b) else []) + (if a == [] && b == [] then FirstOf(c) else [])
  {
  }

  /** A successful connect makes the peer connected, announces it, and hands over the first request that
      waits; the requests that the announcements route through the peer wait behind the others. */
  lemma ConnectAttempts(p: Peer, news: seq<Request>, weights: seq<Request>)
    requires Settled(p) && p.connects > 0
    ensures var q := Step(p, Connected(true, news, weights));
      && Settled(q) && q.isConnected && q.notices == p.notices + [NewHost, InitWeight]
      && q.attempted == p.attempted + FirstOf(p.queue + news + weights) && q.sent == p.sent + news + weights
  {
    var o := p.(isConnecting := false, connects := p.connects - 1, isConnected := true);
    var r := DoWrite(o);
    StepKeeps(p, Connected(true, news, weights));
    DoWriteKeeps(o);
    assert r.attempted == p.attempted + FirstOf(p.queue) && (r.isReady <==> p.queue == []);
    NewAttempts(r, news, weights);
    FirstOfThree(p.queue, news, weights);
  }

  lemma NewAttempts(p: Peer, news: seq<Request>, weights: seq<Request>)
    requires Consistent(p) && p.isConnected && (p.isReady ==> p.queue == [])
    ensures var q := OnNew(p, news, weights);
      && q.isConnected && q.notices == p.notices + [NewHost, InitWeight] && q.sent == p.sent + news + weights
      && q.attempted == p.attempted + (if p.isReady then FirstOf(news) else [])
                        + (if p.isReady && news == [] then FirstOf(weights) else [])
  {
    AnnounceStarts(p, NewHost, news);
    AnnounceStarts(Announce(p, NewHost, news), InitWeight, weights);
  }

  /** A successful write hands over the next request. */
  lemma WriteAttempts(p: Peer, weights: seq<Request>)
    requires Settled(p) && p.writes > 0
    ensures var q := Step(p, Written(true, weights));
      && Settled(q) && q.isConnected && q.sent == p.sent && q.notices == p.notices
      && q.attempted == p.attempted + FirstOf(p.queue) && |q.queue| == if p.queue == [] then 0 else |p.queue| - 1
  {
    StepKeeps(p, Written(true, weights));
    DoWriteKeeps(p.(isReady := true, writes := p.writes - 1));
  }

  ghost predicate Possible(p: Peer, events: seq<Event>)
    decreases |events|
  {
    events != [] ==> Enabled(p, events[0]) && Possible(Step(p, events[0]), events[1..])
  }

  function RunFrom(p: Peer, events: seq<Event>): Peer
    decreases |events|
  {
    if events == [] then p else RunFrom(Step(p, events[0]), events[1..])
  }

  function Writes(n: nat): seq<Event> {
    if n == 0 then [] else [Written(true, [])] + Writes(n - 1)
  }

  /** As many successful writes as requests are queued leave every request attempted. */
  lemma {:induction false} WritesDrain(p: Peer)
    requires Settled(p) && p.isConnected
    ensures Possible(p, Writes(|p.queue|))
    ensures var q := RunFrom(p, Writes(|p.queue|));
      Settled(q) && q.isConnected && q.queue == [] && q.attempted == q.sent == p.sent
    decreases |p.queue|
  {
    if p.queue == [] {
      assert p.attempted + [] == p.attempted;
    } else {
      var e := Written(true, []);
      WriteAttempts(p, []);
      WritesDrain(Step(p, e));
      assert Writes(|p.queue|)[1..] == Writes(|p.queue| - 1);
    }
  }

  /** The events that bring a peer back: the timer, a successful connect, and the writes. */
  function Recovery(p: Peer, news: seq<Request>, weights: seq<Request>, n: nat): seq<Event> {
    if p.isConnected then Writes(n) else [Timer(true)] + ([Connected(true, news, weights)] + Writes(n))
  }

  /** From every reachable state the timer, one successful connect and the successful writes leave every
      request attempted that was ever sent. */
  lemma Recovers(events: seq<Event>, p: Peer, news: seq<Request>, weights: seq<Request>) returns (n: nat)
    requires IsRun(events, p)
    ensures n <= |p.queue| + |news| + |weights|
    ensures Possible(p, Recovery(p, news, weights, n))
    ensures var q := RunFrom(p, Recovery(p, news, weights, n));
      q.isConnected && q.queue == [] && q.attempted == q.sent
      && q.sent == p.sent + (if p.isConnected then [] else news + weights)
  {
    PeerInvariant(events, p);
    if p.isConnected {
      n := |p.queue|;
      WritesDrain(p);
      assert p.sent + [] == p.sent;
    } else {
      AlwaysReconnects(events, p, Timer(true));
      StepKeeps(p, Timer(true));
      n := Reconnected(Step(p, Timer(true)), news, weights);
      assert ([Timer(true)] + ([Connected(true, news, weights)] + Writes(n)))[1..]
          == [Connected(true, news, weights)] + Writes(n);
    }
  }

  lemma Reconnected(p: Peer, news: seq<Request>, weights: seq<Request>) returns (n: nat)
    requires Settled(p) && Reconnecting(p)
    ensures n <= |p.queue| + |news| + |weights|
    ensures Possible(p, [Connected(true, news, weights)] + Writes(n))
    ensures var q := RunFrom(p, [Connected(true, news, weights)] + Writes(n));
      q.isConnected && q.queue == [] && q.attempted == q.sent == p.sent + (news + weights)
  {
    var e := Connected(true, news, weights);
    ConnectAttempts(p, news, weights);
    var q := Step(p, e);
    n := |q.queue|;
    assert |q.sent| == |q.attempted| + |q.queue| && |p.sent| == |p.attempted| + |p.queue|;
    WritesDrain(q);
    assert ([e] + Writes(n))[1..] == Writes(n);
    assert p.sent + news + weights == p.sent + (news + weights);
  }

  /* ---- the class ---- */

  class TcpHostInterface {
    var isConnected: bool
    var isConnecting: bool
    var isReady: bool
    var failTimes: nat
    var requestQueue: seq<Request>
    var connects: nat
    var writes: nat
    ghost var sent: seq<Request>
    ghost var attempted: seq<Request>
    ghost var notices: seq<Notice>
    ghost var failures: nat

    ghost function View(): Peer
      reads this
    {
      Peer(isConnected, isConnecting, isReady, failTimes, requestQueue, connects, writes,
        sent, attempted, notices, failures)
    }

    constructor ()
      ensures View() == Idle()
    {
      isConnected, isConnecting, isReady, failTimes, requestQueue := false, false, true, 0, [];
      connects, writes := 0, 0;
      sent, attempted, notices, failures := [], [], [], 0;
    }

    method Connect()
      modifies `isConnected, `isConnecting, `connects
      ensures View() == DoConnect(old(View()))
      ensures isConnecting && (!old(isConnecting) ==> !isConnected && connects == old(connects) + 1)
    {
      if isConnecting {
        return;
      }
      isConnected := false;
      isConnecting := true;
      connects := connects + 1;
    }

    method Write()
      modifies `isReady, `requestQueue, `writes, `attempted
      ensures View() == DoWrite(old(View()))
    {
      if isReady && isConnected && requestQueue != [] {
        isReady := false;
        attempted := attempted + [requestQueue[0]];
        requestQueue := requestQueue[1..];
        writes := writes + 1;
      }
    }

    method SendRequest(req: Request)
      modifies `isConnected, `isConnecting, `connects, `isReady, `requestQueue, `writes, `attempted, `sent
      ensures View() == Send(old(View()), req)
      ensures !old(isConnected) ==> isConnecting && requestQueue == old(requestQueue) + [req]
    {
      requestQueue, sent := requestQueue + [req], sent + [req];
      if !isConnected {
        Connect();
        return;
      }
      Write();
    }

    /** The part of a broadcast that is routed through this peer. */
    method Broadcast(ghost notice: Notice, routed: seq<Request>)
      modifies `isConnected, `isConnecting, `connects, `isReady, `requestQueue, `writes, `attempted, `sent, `notices
      ensures View() == Announce(old(View()), notice, routed)
    {
      notices := notices + [notice];
      ghost var start := View();
      for i := 0 to |routed|
        invariant View() == SendAll(start, routed[..i])
      {
        assert routed[..i + 1][..i] == routed[..i];
        SendRequest(routed[i]);
      }
      assert routed[..|routed|] == routed;
    }

    method New(news: seq<Request>, weights: seq<Request>)
      modifies this
      ensures View() == OnNew(old(View()), news, weights)
    {
      Broadcast(NewHost, news);
      Broadcast(InitWeight, weights);
      failTimes, failures := 0, 0;
    }

    method Fail(weights: seq<Request>)
      modifies this
      ensures View() == OnFail(old(View()), weights)
    {
      failures := failures + 1;
      if failTimes > 5 {
        return;
      }
      failTimes := failTimes + 1;
      if failTimes > 5 {
        Broadcast(MaxWeight, weights);
      }
    }

    method ConnectDone(ok: bool, news: seq<Request>, weights: seq<Request>)
      requires connects > 0
      modifies this
      ensures View() == OnConnect(old(View()), ok, news, weights)
    {
      connects := connects - 1;
      isConnecting := false;
      if !ok {
        Fail(weights);
        return;
      }
      isConnected := true;
      Write();
      New(news, weights);
    }

    method WriteDone(ok: bool, weights: seq<Request>)
      requires writes > 0
      modifies this
      ensures View() == OnWrite(old(View()), ok, weights)
    {
      writes := writes - 1;
      isReady := true;
      if !ok {
        Fail(weights);
        Connect();
        return;
      }
      Write();
    }

    method ReconnectTimeout(ok: bool)
      modifies `isConnected, `isConnecting, `connects
      ensures View() == OnReconnectTimeout(old(View()), ok)
      ensures ok && !old(isConnected) ==> isConnecting
    {
      if !ok {
        return;
      }
      if !isConnected {
        Connect();
      }
    }
  }
}
