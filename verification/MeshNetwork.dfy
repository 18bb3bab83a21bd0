/** All masters of one configuration together: each has computed its table from its own matrix,
    and requests are handed on from one to the next (src/Master/src/InterfaceManager.cpp,
    src/Master/src/interface/InterfaceRouter.cpp, src/Master/src/interface/Map.cpp).
 */
module MeshNetworks {
  import opened Basics
  import opened Graphs
  import opened ShortestPaths
  import opened HostMaps
  import opened InterfaceManagers
  import Forwarding

  /** The matrix, the interface index and the routing table of one master. */
  datatype Master = Master(m: Mesh, s2i: seq<map<int, string>>, route: map<string, (string, string)>)

  /** The master of `host` has read the configuration, has seen the updates, and has a table that
      getRoute can return for them. */
  ghost predicate UpToDate(cfg: Config, us: seq<Forwarding.Update>, host: string, s: Master) {
    && ReadFrom(cfg, host, s.m, s.s2i)
    && WeightsOf(s.m) == Forwarding.ApplyAll(ConfigWeights(cfg, host), us)
    && IsRoute(s.m, s.s2i, s.route)
  }

  /** What can be seen of a master. */
  ghost function Snapshot(im: InterfaceManager): Master
    reads im, im.hostMap
  {
    Master(im.hostMap.View(), im.hostMap.segment2interface, im.route)
  }

  /** Every master whose graph shows the updates is such a one. */
  lemma ManagerIsUpToDate(im: InterfaceManager, us: seq<Forwarding.Update>)
    requires im.Valid()
    requires im.W() == Forwarding.ApplyAll(ConfigWeights(im.cfg, im.hostName), us)
    ensures UpToDate(im.cfg, us, im.hostName, Snapshot(im))
  {
  }

  /** setMaxWeight and setInitWeight add one update to the history. */
  lemma NextUpdate(initial: Weights, us: seq<Forwarding.Update>, a: string, b: string)
    ensures SetBoth(Forwarding.ApplyAll(initial, us), a, b, INT_MAX - 1)
         == Forwarding.ApplyAll(initial, us + [Forwarding.Fail(a, b)])
    ensures RestoreBoth(Forwarding.ApplyAll(initial, us), initial, a, b)
         == Forwarding.ApplyAll(initial, us + [Forwarding.Restore(a, b)])
  {
    assert (us + [Forwarding.Fail(a, b)])[..|us|] == us;
    assert (us + [Forwarding.Restore(a, b)])[..|us|] == us;
  }

  /** Every configured host runs, all read the same graph, and all have seen the same updates. */
  ghost predicate Network(cfg: Config, us: seq<Forwarding.Update>, net: map<string, Master>) {
    && AllAgree(cfg)
    && (forall h :: h in net <==> h in Names(cfg.hosts))
    && forall h :: h in net ==> UpToDate(cfg, us, h, net[h])
  }

  /** No host's route search overflows. */
  ghost predicate AllSafe(net: map<string, Master>)
    requires forall h :: h in net ==> WellFormed(net[h].m)
  {
    forall h :: h in net ==> Safe(net[h].m)
  }

  ghost function Tables(cfg: Config, net: map<string, Master>): map<string, Forwarding.Table>
    requires forall h :: h in net ==> h in Names(cfg.hosts)
  {
    map h | h in net :: TableOf(WiringOf(cfg, h), net[h].route)
  }

  /** The graph is the same whichever master is asked for it. */
  lemma OneGraph(cfg: Config, us: seq<Forwarding.Update>, net: map<string, Master>, g: string, h: string)
    requires Network(cfg, us, net) && g in net && h in net
    ensures WeightsOf(net[g].m) == WeightsOf(net[h].m)
  {
    assert UpToDate(cfg, us, g, net[g]) && UpToDate(cfg, us, h, net[h]);
    assert ConfigWeights(cfg, g) == ConfigWeights(cfg, h);
  }

  lemma EndsAreHosts(cfg: Config, us: seq<Forwarding.Update>, net: map<string, Master>, h: string, a: string, b: string)
    requires Network(cfg, us, net) && h in net && Weight(WeightsOf(net[h].m), a, b) > 0
    ensures a in net && b in net
  {
    assert UpToDate(cfg, us, h, net[h]);
    ArrangedMeaning(cfg, h);
    assert a in net[h].m.names && b in net[h].m.names;
  }

  lemma NetworkIsMesh(cfg: Config, us: seq<Forwarding.Update>, net: map<string, Master>, at: string)
    requires Network(cfg, us, net) && AllSafe(net) && at in net
    ensures Forwarding.Mesh(WeightsOf(net[at].m), Tables(cfg, net))
  {
    var w := WeightsOf(net[at].m);
    forall h | h in net ensures Forwarding.Routed(w, h, Tables(cfg, net)[h]) {
      assert UpToDate(cfg, us, h, net[h]) && Safe(net[h].m);
      TableIsRouted(cfg, h, net[h].m, net[h].s2i, net[h].route);
      OneGraph(cfg, us, net, at, h);
    }
    forall a, b | Weight(w, a, b) > 0 ensures a in net && b in net {
      EndsAreHosts(cfg, us, net, at, a, b);
    }
  }

  /** From the configuration to the arrival: whatever links have failed and been restored, when no
      host's search overflows, a request for a host that can be reached below INT_MAX arrives within as
      many forwards as the least weight of a path, and does not pass a host twice. */
  lemma NetworkDelivers(cfg: Config, us: seq<Forwarding.Update>, net: map<string, Master>, at: string, dest: string)
    returns (k: nat)
    requires Network(cfg, us, net) && AllSafe(net) && at in net && Dist(WeightsOf(net[at].m), at, dest) < INT_MAX
    ensures k <= Dist(WeightsOf(net[at].m), at, dest)
    ensures Forwarding.Hops(Tables(cfg, net), at, dest, k) == Some(dest)
    ensures Forwarding.PassesOnce(Tables(cfg, net), at, dest, k)
  {
    var w, tables := WeightsOf(net[at].m), Tables(cfg, net);
    NetworkIsMesh(cfg, us, net, at);
    k := Forwarding.Delivers(w, tables, at, dest);
    Forwarding.NoHostTwice(w, tables, at, dest, k);
  }

  /** A request for a host that some healthy way reaches below INT_MAX - 1 never crosses a link whose
      last update failed it. */
  lemma NetworkAvoidsFailedLinks(cfg: Config, us: seq<Forwarding.Update>, net: map<string, Master>, w: Weights,
                                 at: string, dest: string, p: seq<string>, k: nat) returns (a: string, b: string)
    requires Network(cfg, us, net) && AllSafe(net) && at in net && w == WeightsOf(net[at].m)
    requires IsPath(w, p, at, dest) && PathWeight(w, p) < INT_MAX - 1
    requires Forwarding.Hops(Tables(cfg, net), at, dest, k + 1).Some?
    ensures Forwarding.Hops(Tables(cfg, net), at, dest, k) == Some(a)
    ensures Forwarding.Hops(Tables(cfg, net), at, dest, k + 1) == Some(b)
    ensures !Forwarding.LastFailed(us, a, b)
  {
    NetworkIsMesh(cfg, us, net, at);
    a, b := HealthyStep(w, Tables(cfg, net), at, dest, p, k);
    NotFailed(cfg, us, net, at, a, b);
  }

  lemma HealthyStep(w: Weights, tables: map<string, Forwarding.Table>, at: string, dest: string, p: seq<string>, k: nat)
    returns (a: string, b: string)
    requires Forwarding.Mesh(w, tables) && at in tables
    requires IsPath(w, p, at, dest) && PathWeight(w, p) < INT_MAX - 1
    requires Forwarding.Hops(tables, at, dest, k + 1).Some?
    ensures Forwarding.Hops(tables, at, dest, k) == Some(a) && Forwarding.Hops(tables, at, dest, k + 1) == Some(b)
    ensures 0 < Weight(w, a, b) < INT_MAX - 1
  {
    Forwarding.NoFailedLinkOnTheWay(w, tables, at, dest, p, k);
    a, b := Forwarding.Hops(tables, at, dest, k).value, Forwarding.Hops(tables, at, dest, k + 1).value;
  }

  lemma NotFailed(cfg: Config, us: seq<Forwarding.Update>, net: map<string, Master>, h: string, a: string, b: string)
    requires Network(cfg, us, net) && h in net && 0 < Weight(WeightsOf(net[h].m), a, b) < INT_MAX - 1
    ensures !Forwarding.LastFailed(us, a, b)
  {
    assert UpToDate(cfg, us, h, net[h]);
    assert (a, a) !in WeightsOf(net[h].m);
    Forwarding.WeightAfterUpdates(ConfigWeights(cfg, h), us, a, b);
  }
}
