/** Configurations whose masters end up in the loops of the module FailoverLoops, among them the one
    that is delivered with the master (src/Master/config/masterconfig.json).
 */
module FailoverConfigs {
  import opened Basics
  import opened Graphs
  import opened ShortestPaths
  import opened HostMaps
  import opened InterfaceManagers
  import opened MeshNetworks
  import opened Failover
  import opened FailoverLoops
  import Forwarding

  /** All hosts have one interface each, on segment 1. */
  ghost predicate OneSegment(cfg: Config) {
    && Distinct(Names(cfg.hosts)) && KnownOverrides(cfg)
    && (forall i :: 0 <= i < |cfg.hosts| ==> OneInterface(cfg.hosts[i]))
    && forall i, j :: 0 <= i < j < |cfg.hosts| ==> cfg.hosts[i].interfaces != cfg.hosts[j].interfaces
  }

  predicate OneInterface(h: HostConfig) {
    |h.interfaces| == 1 && h.interfaces[0].segment == 1
  }

  lemma AllShare(cfg: Config, a: string, b: string)
    requires OneSegment(cfg) && a in Names(cfg.hosts) && b in Names(cfg.hosts)
    ensures ShareSegment(cfg, a, b)
  {
    var i, j := Index(Names(cfg.hosts), a), Index(Names(cfg.hosts), b);
    assert OneInterface(cfg.hosts[i]) && OneInterface(cfg.hosts[j]);
    assert OnSegment(cfg.hosts[j], cfg.hosts[i].interfaces[0].segment);
  }

  lemma OneSegmentSensible(cfg: Config, local: string)
    requires OneSegment(cfg) && local in Names(cfg.hosts)
    ensures Sensible(cfg, local) && AllAgree(cfg)
  {
    forall i, k | HasInterface(cfg, i, k) ensures k == 0 && cfg.hosts[i].interfaces == [cfg.hosts[i].interfaces[k]] {
      assert OneInterface(cfg.hosts[i]);
    }
    assert RemoteNamesClear(cfg, local);
    forall o | o in cfg.overrides ensures Linkable(cfg, local, o.src, o.dest) {
      AllShare(cfg, o.src, o.dest);
    }
    forall l1, l2 | l1 in Names(cfg.hosts) && l2 in Names(cfg.hosts)
      ensures ConfigWeights(cfg, l1) == ConfigWeights(cfg, l2)
    {
      ConfigWeightsAgree(cfg, l1, l2);
    }
  }

  lemma LastOverrideSnoc(cfg: Config, local: string, os: seq<Override>, o: Override, a: string, b: string)
    requires o.src in Names(cfg.hosts) && o.dest in Names(cfg.hosts)
    ensures LastOverride(cfg, local, os + [o], a, b)
         == if NamesBoth(o, a, b) then Some(o.weight) else LastOverride(cfg, local, os, a, b)
  {
    assert (os + [o])[..|os|] == os;
  }

  /** The last of three overrides between configured hosts decides. */
  lemma ThreeOverrides(cfg: Config, local: string, o: Override, p: Override, q: Override, a: string, b: string)
    requires OneSegment(cfg) && cfg.overrides == [o, p, q]
    requires a in Names(cfg.hosts) && b in Names(cfg.hosts) && a != b
    ensures Weight(ConfigWeights(cfg, local), a, b)
         == if NamesBoth(q, a, b) then q.weight else if NamesBoth(p, a, b) then p.weight
            else if NamesBoth(o, a, b) then o.weight else 1
  {
    AllShare(cfg, a, b);
    assert o in cfg.overrides && p in cfg.overrides && q in cfg.overrides;
    LastOverrideSnoc(cfg, local, [], o, a, b);
    LastOverrideSnoc(cfg, local, [o], p, a, b);
    LastOverrideSnoc(cfg, local, [o, p], q, a, b);
    assert [] + [o] == [o] && [o] + [p] == [o, p] && [o, p] + [q] == [o, p, q];
    assert LastOverride(cfg, local, [], a, b) == None;
  }

  /* ---- three hosts ---- */

  /** A host with one interface, on segment 1. */
  function Single(host: string, interface: string): HostConfig {
    HostConfig(host, [InterfaceConfig(interface, 1)])
  }

  predicate ThreeHosts(cfg: Config, a: string, b: string, c: string, rest: int32) {
    && a != b && a != c && b != c && 1 <= rest < INT_MAX - 1
    && Names(cfg.hosts) == [a, b, c]
    && cfg.overrides == [Override(a, b, 1), Override(b, c, 1), Override(a, c, rest)]
  }

  /** Both links of b fail. */
  function CutUpdates(a: string, b: string, c: string): seq<Forwarding.Update> {
    [Forwarding.Fail(a, b), Forwarding.Fail(b, c)]
  }

  lemma TwoFailures(w: Weights, a: string, b: string, c: string)
    ensures Forwarding.ApplyAll(w, CutUpdates(a, b, c)) == SetBoth(SetBoth(w, a, b, INT_MAX - 1), b, c, INT_MAX - 1)
  {
    var us := CutUpdates(a, b, c);
    assert us[..1] == [Forwarding.Fail(a, b)] && us[..1][..0] == [];
    assert Forwarding.ApplyAll(w, us[..1]) == SetBoth(w, a, b, INT_MAX - 1);
  }

  /** Weights of the three hosts as configured. */
  function ThreeWeight(a: string, b: string, c: string, rest: int, x: string, y: string): int {
    if Between(x, y, a, b) || Between(x, y, b, c) then 1 else if Between(x, y, a, c) then rest else 0
  }

  lemma ThreeInitial(cfg: Config, h: string, a: string, b: string, c: string, rest: int32, x: string, y: string)
    requires OneSegment(cfg) && ThreeHosts(cfg, a, b, c, rest)
    ensures Weight(ConfigWeights(cfg, h), x, y) == ThreeWeight(a, b, c, rest, x, y)
  {
    assert (x, y) in ConfigWeights(cfg, h) <==> x in {a, b, c} && y in {a, b, c} && x != y;
    if x in {a, b, c} && y in {a, b, c} && x != y {
      ThreeOverrides(cfg, h, Override(a, b, 1), Override(b, c, 1), Override(a, c, rest), x, y);
    }
  }

  lemma CutWeights(w: Weights, a: string, b: string, c: string, rest: int, x: string, y: string)
    requires a != b && b != c && Weight(w, x, y) == ThreeWeight(a, b, c, rest, x, y)
    ensures Weight(SetBoth(SetBoth(w, a, b, INT_MAX - 1), b, c, INT_MAX - 1), x, y) == CutWeight(a, b, c, rest, x, y)
  {
  }

  /** The failures of both links of b leave the graph of CutOff, as every host reads it. */
  lemma ThreeCutOff(cfg: Config, h: string, a: string, b: string, c: string, rest: int32)
    requires OneSegment(cfg) && ThreeHosts(cfg, a, b, c, rest) && h in Names(cfg.hosts)
    ensures CutOff(Forwarding.ApplyAll(ConfigWeights(cfg, h), CutUpdates(a, b, c)), a, b, c, rest)
  {
    var w := ConfigWeights(cfg, h);
    TwoFailures(w, a, b, c);
    forall x, y
      ensures Weight(SetBoth(SetBoth(w, a, b, INT_MAX - 1), b, c, INT_MAX - 1), x, y) == CutWeight(a, b, c, rest, x, y)
    {
      ThreeInitial(cfg, h, a, b, c, rest, x, y);
      CutWeights(w, a, b, c, rest, x, y);
    }
  }

  /** The configuration that is delivered with the master. */
  const DELIVERED := Config(
    [Single("host1", "interface1"), Single("host2", "interface2"), Single("host3", "interface3")],
    [Override("host1", "host2", 1), Override("host2", "host3", 1), Override("host1", "host3", 3)])

  lemma DeliveredIsOneSegment()
    ensures OneSegment(DELIVERED) && ThreeHosts(DELIVERED, "host1", "host2", "host3", 3)
  {
    assert "host1"[4] != "host2"[4] && "host1"[4] != "host3"[4] && "host2"[4] != "host3"[4];
    assert "interface1"[9] != "interface2"[9] && "interface1"[9] != "interface3"[9];
    assert "interface2"[9] != "interface3"[9];
    var names := Names(DELIVERED.hosts);
    assert names == ["host1", "host2", "host3"];
    assert names[0] in names && names[1] in names && names[2] in names;
    var hs := DELIVERED.hosts;
    assert hs[0].interfaces[0] != hs[1].interfaces[0] && hs[0].interfaces[0] != hs[2].interfaces[0];
    assert hs[1].interfaces[0] != hs[2].interfaces[0];
    assert forall o :: o in DELIVERED.overrides ==> o.src in names && o.dest in names;
  }

  lemma ThreeGraph(cfg: Config, net: map<string, Master>, h: string, a: string, b: string, c: string, rest: int32)
    requires OneSegment(cfg) && ThreeHosts(cfg, a, b, c, rest)
    requires Network(cfg, CutUpdates(a, b, c), net) && h in net
    ensures CutOff(WeightsOf(net[h].m), a, b, c, rest)
  {
    assert UpToDate(cfg, CutUpdates(a, b, c), h, net[h]);
    ThreeCutOff(cfg, h, a, b, c, rest);
  }

  /** With a third weight of two or more the requests for b loop. */
  lemma ThreeLoop(cfg: Config, net: map<string, Master>, a: string, b: string, c: string, rest: int32, k: nat)
    requires OneSegment(cfg) && ThreeHosts(cfg, a, b, c, rest) && rest >= 2
    requires Network(cfg, CutUpdates(a, b, c), net) && a in net
    ensures Forwarding.Hops(Tables(cfg, net), a, b, k) == Some(if k % 2 == 0 then a else c)
  {
    ThreeGraph(cfg, net, a, a, b, c, rest);
    CutOffLoops(cfg, CutUpdates(a, b, c), net, WeightsOf(net[a].m), a, b, c, rest, k);
  }

  /** And the search of b overflows, although b is itself the near end of both failed links. */
  lemma ThreeUnsafe(cfg: Config, net: map<string, Master>, a: string, b: string, c: string, rest: int32)
    requires OneSegment(cfg) && ThreeHosts(cfg, a, b, c, rest) && rest >= 2
    requires Network(cfg, CutUpdates(a, b, c), net) && b in net
    ensures !Safe(net[b].m) && AllNear(net[b].m)
  {
    ThreeGraph(cfg, net, b, a, b, c, rest);
    CutOffUnsafe(cfg, CutUpdates(a, b, c), net, WeightsOf(net[b].m), a, b, c, rest);
  }

  /** Once both links of host2 have failed, the other two hosts of the delivered configuration pass
      every request for it to and fro. */
  lemma DeliveredLoops(net: map<string, Master>, k: nat)
    requires Network(DELIVERED, CutUpdates("host1", "host2", "host3"), net)
    ensures "host1" in net && "host2" in net
    ensures Forwarding.Hops(Tables(DELIVERED, net), "host1", "host2", k)
         == Some(if k % 2 == 0 then "host1" else "host3")
    ensures !Safe(net["host2"].m) && AllNear(net["host2"].m)
  {
    DeliveredIsOneSegment();
    var names := Names(DELIVERED.hosts);
    assert names[0] in names && names[1] in names;
    ThreeLoop(DELIVERED, net, "host1", "host2", "host3", 3, k);
    ThreeUnsafe(DELIVERED, net, "host1", "host2", "host3", 3);
  }

  /* ---- four hosts ---- */

  predicate FourHosts(cfg: Config, a: string, b: string, c: string, d: string, far: int32) {
    && a != b && a != c && a != d && b != c && b != d && c != d && 3 <= far <= INT_MAX - 3
    && Names(cfg.hosts) == [a, b, c, d]
    && cfg.overrides == [Override(a, c, 0), Override(b, d, 0), Override(a, d, far)]
  }

  /** Weights of the four hosts as configured. */
  function FourWeight(a: string, b: string, c: string, d: string, far: int, x: string, y: string): int {
    if Between(x, y, a, b) || Between(x, y, b, c) || Between(x, y, c, d) then 1
    else if Between(x, y, a, d) then far
    else 0
  }

  lemma FourInitial(cfg: Config, h: string, a: string, b: string, c: string, d: string, far: int32, x: string,
                    y: string)
    requires OneSegment(cfg) && FourHosts(cfg, a, b, c, d, far)
    ensures Weight(ConfigWeights(cfg, h), x, y) == FourWeight(a, b, c, d, far, x, y)
  {
    var names := Names(cfg.hosts);
    assert forall z :: z in names <==> z == a || z == b || z == c || z == d;
    if x in names && y in names && x != y {
      ThreeOverrides(cfg, h, Override(a, c, 0), Override(b, d, 0), Override(a, d, far), x, y);
      FourCases(a, b, c, d, far, x, y);
    }
  }

  lemma FourCases(a: string, b: string, c: string, d: string, far: int32, x: string, y: string)
    requires x != y && (x == a || x == b || x == c || x == d) && (y == a || y == b || y == c || y == d)
    requires a != b && a != c && a != d && b != c && b != d && c != d
    ensures FourWeight(a, b, c, d, far, x, y)
         == if Between(x, y, a, d) then far else if Between(x, y, b, d) || Between(x, y, a, c) then 0 else 1
  {
  }

  lemma FailedWeights(w: Weights, a: string, b: string, c: string, d: string, far: int, x: string, y: string)
    requires a != c && b != c && a != d && b != d && c != d && Weight(w, x, y) == FourWeight(a, b, c, d, far, x, y)
    ensures Weight(SetBoth(w, c, d, INT_MAX - 1), x, y) == LineWeight(a, b, c, d, far, x, y)
  {
  }

  /** After the failure of c - d every host reads the graph of LineMesh. */
  lemma FourLine(cfg: Config, h: string, a: string, b: string, c: string, d: string, far: int32)
    requires OneSegment(cfg) && FourHosts(cfg, a, b, c, d, far)
    ensures LineMesh(Forwarding.ApplyAll(ConfigWeights(cfg, h), [Forwarding.Fail(c, d)]), a, b, c, d, far)
  {
    var w := ConfigWeights(cfg, h);
    assert [Forwarding.Fail(c, d)][..0] == [];
    assert Forwarding.ApplyAll(w, [Forwarding.Fail(c, d)]) == SetBoth(w, c, d, INT_MAX - 1);
    forall x, y ensures Weight(SetBoth(w, c, d, INT_MAX - 1), x, y) == LineWeight(a, b, c, d, far, x, y) {
      FourInitial(cfg, h, a, b, c, d, far, x, y);
      FailedWeights(w, a, b, c, d, far, x, y);
    }
  }

  function FourConfig(a: string, b: string, c: string, d: string, far: int32): Config {
    Config([Single(a, a), Single(b, b), Single(c, c), Single(d, d)],
           [Override(a, c, 0), Override(b, d, 0), Override(a, d, far)])
  }

  lemma FourIsOneSegment(a: string, b: string, c: string, d: string, far: int32)
    requires a != b && a != c && a != d && b != c && b != d && c != d && 3 <= far <= INT_MAX - 3
    ensures OneSegment(FourConfig(a, b, c, d, far)) && FourHosts(FourConfig(a, b, c, d, far), a, b, c, d, far)
  {
    var hs := FourConfig(a, b, c, d, far).hosts;
    var names := Names(hs);
    assert names == [a, b, c, d];
    assert names[0] in names && names[1] in names && names[2] in names && names[3] in names;
    forall i, j | 0 <= i < j < 4 ensures hs[i].interfaces != hs[j].interfaces && names[i] != names[j] {
      assert hs[i].interfaces[0].name == names[i] && hs[j].interfaces[0].name == names[j];
    }
  }

  /** Such configurations exist, and after the failure of c - d every host reads the graph of LineMesh. */
  lemma FourHostsExist(a: string, b: string, c: string, d: string, far: int32) returns (cfg: Config)
    requires a != b && a != c && a != d && b != c && b != d && c != d && 3 <= far <= INT_MAX - 3
    ensures Names(cfg.hosts) == [a, b, c, d] && AllAgree(cfg)
    ensures forall h :: h in Names(cfg.hosts) ==>
      && Sensible(cfg, h)
      && LineMesh(Forwarding.ApplyAll(ConfigWeights(cfg, h), [Forwarding.Fail(c, d)]), a, b, c, d, far)
  {
    cfg := FourConfig(a, b, c, d, far);
    FourIsOneSegment(a, b, c, d, far);
    assert Names(cfg.hosts)[0] in Names(cfg.hosts);
    OneSegmentSensible(cfg, a);
    forall h | h in Names(cfg.hosts)
      ensures Sensible(cfg, h)
      ensures LineMesh(Forwarding.ApplyAll(ConfigWeights(cfg, h), [Forwarding.Fail(c, d)]), a, b, c, d, far)
    {
      OneSegmentSensible(cfg, h);
      FourLine(cfg, h, a, b, c, d, far);
    }
  }
}
