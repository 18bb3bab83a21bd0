/** What the overflow of the route search does to forwarding: networks in which two masters, each
    with a table that getRoute can return, pass a request to and fro for ever
    (src/Master/src/interface/Map.cpp, src/Master/src/InterfaceManager.cpp).
 */
module FailoverLoops {
  import opened Basics
  import opened Graphs
  import opened ShortestPaths
  import opened HostMaps
  import opened InterfaceManagers
  import opened MeshNetworks
  import opened Failover
  import Forwarding

  lemma LocalRow(cfg: Config, us: seq<Forwarding.Update>, net: map<string, Master>, h: string)
    requires Network(cfg, us, net) && h in net
    ensures ReadFrom(cfg, h, net[h].m, net[h].s2i) && IsRoute(net[h].m, net[h].s2i, net[h].route)
    ensures net[h].m.names[0] == h
  {
    assert UpToDate(cfg, us, h, net[h]);
    ArrangedMeaning(cfg, h);
  }

  /** A captured host is reached through the only way to the near end of the failed link. */
  lemma CapturedNext(cfg: Config, us: seq<Forwarding.Update>, net: map<string, Master>, a: string, b: string,
                     near: string, dest: string)
    requires Network(cfg, us, net) && a in net
    requires Captures(net[a].m, near, dest) && OnlyHop(WeightsOf(net[a].m), a, b, near)
    ensures dest in Tables(cfg, net)[a] && Tables(cfg, net)[a][dest] == b
  {
    LocalRow(cfg, us, net, a);
    var u, v := TableIsMisrouted(cfg, a, net[a].m, net[a].s2i, net[a].route);
  }

  lemma SafeNext(cfg: Config, us: seq<Forwarding.Update>, net: map<string, Master>, b: string, a: string, dest: string)
    requires Network(cfg, us, net) && b in net && dest != b
    requires Safe(net[b].m) && Dist(WeightsOf(net[b].m), b, dest) < INT_MAX && OnlyHop(WeightsOf(net[b].m), b, a, dest)
    ensures dest in Tables(cfg, net)[b] && Tables(cfg, net)[b][dest] == a
  {
    LocalRow(cfg, us, net, b);
    TableIsRouted(cfg, b, net[b].m, net[b].s2i, net[b].route);
    assert Forwarding.RoutedTo(WeightsOf(net[b].m), b, Tables(cfg, net)[b], dest);
  }

  /** The failed link at `near` captures the traffic of a for `dest`, the only way to `near` starts
      at b, and from b the only way to `dest` leads back to a: then no request of a arrives. */
  lemma CaptureLoops(cfg: Config, us: seq<Forwarding.Update>, net: map<string, Master>, a: string, b: string,
                     near: string, dest: string, k: nat)
    requires Network(cfg, us, net) && a in net && b in net && dest != a && dest != b
    requires Captures(net[a].m, near, dest) && OnlyHop(WeightsOf(net[a].m), a, b, near)
    requires Safe(net[b].m) && Dist(WeightsOf(net[b].m), b, dest) < INT_MAX && OnlyHop(WeightsOf(net[b].m), b, a, dest)
    ensures Forwarding.Hops(Tables(cfg, net), a, dest, k) == Some(if k % 2 == 0 then a else b)
  {
    CapturedNext(cfg, us, net, a, b, near, dest);
    SafeNext(cfg, us, net, b, a, dest);
    Forwarding.ToAndFro(Tables(cfg, net), a, b, dest, k);
  }

  /** The same when the traffic is captured at both hosts, each on the way to the other. */
  lemma MutualCaptureLoops(cfg: Config, us: seq<Forwarding.Update>, net: map<string, Master>, a: string, c: string,
                           dest: string, k: nat)
    requires Network(cfg, us, net) && a in net && c in net && dest != a && dest != c
    requires Captures(net[a].m, c, dest) && OnlyHop(WeightsOf(net[a].m), a, c, c)
    requires Captures(net[c].m, a, dest) && OnlyHop(WeightsOf(net[c].m), c, a, a)
    ensures Forwarding.Hops(Tables(cfg, net), a, dest, k) == Some(if k % 2 == 0 then a else c)
  {
    CapturedNext(cfg, us, net, a, c, c, dest);
    CapturedNext(cfg, us, net, c, a, a, dest);
    Forwarding.ToAndFro(Tables(cfg, net), a, c, dest, k);
  }

  /** Both ends of a link are hosts, and every master has a row for them. */
  lemma LinkedHosts(cfg: Config, us: seq<Forwarding.Update>, net: map<string, Master>, h: string, a: string, b: string)
    requires Network(cfg, us, net) && h in net && Weight(WeightsOf(net[h].m), a, b) > 0
    ensures a in net && b in net && a in net[h].m.names && b in net[h].m.names
  {
    EndsAreHosts(cfg, us, net, h, a, b);
    assert (a, b) in WeightsOf(net[h].m);
  }

  /* ---- when there is no such loop ---- */

  lemma SmallLink(m: Mesh, initial: Weights, us: seq<Forwarding.Update>, small: int, u: int, v: int)
    requires WellFormed(m) && 0 <= u < |m.names| && 0 <= v < |m.names| && u != v
    requires WeightsOf(m) == Forwarding.ApplyAll(initial, us) && Weight(initial, m.names[u], m.names[v]) <= small
    ensures Link(m, u, v) <= small || Link(m, u, v) == INT_MAX - 1
  {
    WeightAt(m, u, v);
    Forwarding.WeightAfterUpdates(initial, us, m.names[u], m.names[v]);
  }

  ghost predicate AtMost(w: Weights, small: int) {
    forall a, b :: Weight(w, a, b) <= small
  }

  lemma OnlySmallOrFailed(m: Mesh, initial: Weights, us: seq<Forwarding.Update>, small: int)
    requires WellFormed(m) && WeightsOf(m) == Forwarding.ApplyAll(initial, us) && AtMost(initial, small)
    ensures SmallOrFailed(m, small)
  {
    forall u, v | 0 <= u < |m.names| && 0 <= v < |m.names| && u != v
      ensures Link(m, u, v) <= small || Link(m, u, v) == INT_MAX - 1
    {
      SmallLink(m, initial, us, small, u, v);
    }
  }

  lemma SafeAt(cfg: Config, us: seq<Forwarding.Update>, h: string, s: Master, small: int)
    requires UpToDate(cfg, us, h, s) && AtMost(ConfigWeights(cfg, h), small)
    requires small >= 0 && small * |cfg.hosts| <= INT_MAX
    ensures Safe(s.m) <==> AllNear(s.m) && AllLight(s.m)
  {
    OnlySmallOrFailed(s.m, ConfigWeights(cfg, h), us, small);
    OthersSize(cfg.hosts, h);
    assert |s.m.names| == |cfg.hosts|;
    SmallWeightsFit(s.m, small);
  }

  /** With configured weights that, one for each host, fit 32 bits together, no host's search overflows
      exactly when at no host a failure is far away or has a heavy link behind it. */
  lemma NetworkSafeIff(cfg: Config, us: seq<Forwarding.Update>, net: map<string, Master>, small: int)
    requires Network(cfg, us, net) && small >= 0 && small * |cfg.hosts| <= INT_MAX
    requires forall h :: h in net ==> AtMost(ConfigWeights(cfg, h), small)
    ensures AllSafe(net) <==> forall h :: h in net ==> AllNear(net[h].m) && AllLight(net[h].m)
  {
    forall h | h in net ensures Safe(net[h].m) <==> AllNear(net[h].m) && AllLight(net[h].m) {
      SafeAt(cfg, us, h, net[h], small);
    }
  }

  /* ---- a loop beside a healthy link ---- */

  lemma LineHosts(cfg: Config, us: seq<Forwarding.Update>, net: map<string, Master>, w: Weights,
                  a: string, b: string, c: string, d: string, far: int, h: string)
    requires Network(cfg, us, net) && h in net && w == WeightsOf(net[h].m) && LineMesh(w, a, b, c, d, far)
    ensures a in net && b in net && c in net[h].m.names && d in net[h].m.names
  {
    LineLinks(w, a, b, c, d, far);
    LinkedHosts(cfg, us, net, h, a, b);
    LinkedHosts(cfg, us, net, h, c, d);
  }

  /** In a line of four hosts with a slower direct link between its ends, the failure of the last link
      lets every request of the first host for the last one go to and fro for ever, although their
      direct link works. */
  lemma LineLoops(cfg: Config, us: seq<Forwarding.Update>, net: map<string, Master>, w: Weights,
                  a: string, b: string, c: string, d: string, far: int, k: nat)
    requires Network(cfg, us, net) && a in net && w == WeightsOf(net[a].m) && LineMesh(w, a, b, c, d, far)
    ensures Forwarding.Hops(Tables(cfg, net), a, d, k) == Some(if k % 2 == 0 then a else b)
    ensures FirstHopTo(w, a, d, d)
  {
    LineHosts(cfg, us, net, w, a, b, c, d, far, a);
    OneGraph(cfg, us, net, a, b);
    LocalRow(cfg, us, net, a);
    LocalRow(cfg, us, net, b);
    LineAtA(net[a].m, a, b, c, d, far);
    LineAtB(net[b].m, a, b, c, d, far);
    CaptureLoops(cfg, us, net, a, b, c, d, k);
    LineHops(w, a, b, c, d, far, d);
  }

  /* ---- a loop after a host has been cut off ---- */

  lemma CutHosts(cfg: Config, us: seq<Forwarding.Update>, net: map<string, Master>, w: Weights,
                 a: string, b: string, c: string, rest: int, h: string)
    requires Network(cfg, us, net) && h in net && w == WeightsOf(net[h].m) && CutOff(w, a, b, c, rest)
    ensures a in net && c in net
    ensures a in net[h].m.names && b in net[h].m.names && c in net[h].m.names
  {
    CutLinks(w, a, b, c, rest);
    LinkedHosts(cfg, us, net, h, a, b);
    LinkedHosts(cfg, us, net, h, a, c);
  }

  lemma CutOffLoops(cfg: Config, us: seq<Forwarding.Update>, net: map<string, Master>, w: Weights,
                    a: string, b: string, c: string, rest: int, k: nat)
    requires Network(cfg, us, net) && a in net && w == WeightsOf(net[a].m) && CutOff(w, a, b, c, rest) && rest >= 2
    ensures Forwarding.Hops(Tables(cfg, net), a, b, k) == Some(if k % 2 == 0 then a else c)
  {
    CutHosts(cfg, us, net, w, a, b, c, rest, a);
    OneGraph(cfg, us, net, a, c);
    CutHosts(cfg, us, net, w, a, b, c, rest, c);
    LocalRow(cfg, us, net, a);
    LocalRow(cfg, us, net, c);
    CutOffSymmetric(w, a, b, c, rest);
    CutAtA(net[a].m, a, b, c, rest);
    CutAtA(net[c].m, c, b, a, rest);
    MutualCaptureLoops(cfg, us, net, a, c, b, k);
  }

  /** The search of the host that is cut off overflows, although it is itself the near end of both
      failed links. */
  lemma CutOffUnsafe(cfg: Config, us: seq<Forwarding.Update>, net: map<string, Master>, w: Weights,
                     a: string, b: string, c: string, rest: int)
    requires Network(cfg, us, net) && b in net && w == WeightsOf(net[b].m) && CutOff(w, a, b, c, rest) && rest >= 2
    ensures !Safe(net[b].m) && AllNear(net[b].m)
  {
    CutHosts(cfg, us, net, w, a, b, c, rest, b);
    LocalRow(cfg, us, net, b);
    CutOffHost(net[b].m, a, b, c, rest);
  }

  lemma CutOffSafe(cfg: Config, us: seq<Forwarding.Update>, net: map<string, Master>, w: Weights,
                   a: string, b: string, c: string, h: string)
    requires Network(cfg, us, net) && h in net && w == WeightsOf(net[h].m) && CutOff(w, a, b, c, 1)
    ensures Safe(net[h].m)
  {
    CutHosts(cfg, us, net, w, a, b, c, 1, h);
    LocalRow(cfg, us, net, h);
    CutSafe(net[h].m, a, b, c);
  }

  lemma CutSafe(m: Mesh, a: string, b: string, c: string)
    requires WellFormed(m) && CutOff(WeightsOf(m), a, b, c, 1)
    requires a in m.names && b in m.names && c in m.names
    ensures Safe(m)
  {
    if m.names[0] == a {
      CutAtA(m, a, b, c, 1);
    } else if m.names[0] == b {
      CutOffHost(m, a, b, c, 1);
    } else if m.names[0] == c {
      CutOffSymmetric(WeightsOf(m), a, b, c, 1);
      CutAtA(m, c, b, a, 1);
    } else {
      CutApartSafe(m, a, b, c, 1);
    }
  }

  lemma CutOffArrives(cfg: Config, us: seq<Forwarding.Update>, net: map<string, Master>, w: Weights,
                      a: string, b: string, c: string) returns (k: nat)
    requires Network(cfg, us, net) && a in net && w == WeightsOf(net[a].m) && CutOff(w, a, b, c, 1)
    ensures Forwarding.Hops(Tables(cfg, net), a, b, k) == Some(b)
  {
    forall h | h in net ensures Safe(net[h].m) {
      OneGraph(cfg, us, net, a, h);
      CutOffSafe(cfg, us, net, w, a, b, c, h);
    }
    CutDistances(w, a, b, c, 1);
    k := NetworkDelivers(cfg, us, net, a, b);
  }

  /** When both links of one of three hosts have failed, a request for it is still handed to the failed
      link if the other two are at distance 1; otherwise it goes to and fro between them for ever. */
  lemma CutOffArrivesIff(cfg: Config, us: seq<Forwarding.Update>, net: map<string, Master>, w: Weights,
                         a: string, b: string, c: string, rest: int)
    requires Network(cfg, us, net) && a in net && w == WeightsOf(net[a].m) && CutOff(w, a, b, c, rest)
    ensures (exists k: nat :: Forwarding.Hops(Tables(cfg, net), a, b, k) == Some(b)) <==> rest == 1
  {
    if rest == 1 {
      var k := CutOffArrives(cfg, us, net, w, a, b, c);
    } else {
      forall k: nat ensures Forwarding.Hops(Tables(cfg, net), a, b, k) != Some(b) {
        CutOffLoops(cfg, us, net, w, a, b, c, rest, k);
      }
    }
  }
}
