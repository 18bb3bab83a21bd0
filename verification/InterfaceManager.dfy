/** One master's routing state (src/Master/src/InterfaceManager.cpp): which remote
    interfaces each local interface can reach, the routing table, and the
    decision between dispatching a request and handing it on.
 */
module InterfaceManagers {
  import opened Basics
  import opened Graphs
  import opened ShortestPaths
  import opened HostMaps
  import Forwarding

  /** A local interface: its segment and the host behind each remote interface it can send to. */
  datatype Interface = Interface(segment: int, name2hostInterface: map<string, string>)

  /** An interface of another host. */
  datatype Remote = Remote(name: string, segment: int, host: string)

  datatype Request = Request(dest: string, target: string, verb: string)

  /** What the router does with a request. */
  datatype Handling = Forwarded(next: string) | Dispatched(controller: string) | Ignored

  ghost predicate HasInterface(cfg: Config, i: int, k: int) {
    0 <= i < |cfg.hosts| && 0 <= k < |cfg.hosts[i].interfaces|
  }

  /** Interfaces of the local host that share a name share their segment. */
  ghost predicate LocalNamesClear(cfg: Config, local: string) {
    forall i, k, l :: HasInterface(cfg, i, k) && HasInterface(cfg, i, l) && cfg.hosts[i].name == local ==>
      (cfg.hosts[i].interfaces[k].name == cfg.hosts[i].interfaces[l].name ==>
       cfg.hosts[i].interfaces[k].segment == cfg.hosts[i].interfaces[l].segment)
  }

  /** Interfaces of other hosts that share a name and a segment belong to one host. */
  ghost predicate RemoteNamesClear(cfg: Config, local: string) {
    forall i, k, j, l :: HasInterface(cfg, i, k) && HasInterface(cfg, j, l) ==>
      (cfg.hosts[i].interfaces[k] == cfg.hosts[j].interfaces[l] ==>
       cfg.hosts[i].name == local || cfg.hosts[j].name == local || cfg.hosts[i].name == cfg.hosts[j].name)
  }

  /** No interface name is ambiguous where the local host looks it up. The same name may occur on other
      segments, and on the local host as well as on another. */
  ghost predicate UniqueInterfaces(cfg: Config, local: string) {
    LocalNamesClear(cfg, local) && RemoteNamesClear(cfg, local)
  }

  /** The rows that the local host takes for two names are one row, or their hosts share a segment. */
  ghost predicate Linkable(cfg: Config, local: string, host1: string, host2: string) {
    var a, b := Resolve(cfg, local, host1), Resolve(cfg, local, host2);
    a == b || ShareSegment(cfg, a, b)
  }

  /** No override makes a link that no interface carries. */
  ghost predicate SegmentOverrides(cfg: Config, local: string) {
    forall o :: o in cfg.overrides ==> Linkable(cfg, local, o.src, o.dest)
  }

  /** The configurations the routing results are about. */
  ghost predicate Sensible(cfg: Config, local: string) {
    Distinct(Names(cfg.hosts)) && UniqueInterfaces(cfg, local) && SegmentOverrides(cfg, local)
  }

  /** Links exist only between hosts that share a segment. */
  ghost predicate LinksShare(cfg: Config, w: Weights) {
    forall a, b :: Weight(w, a, b) > 0 ==> ShareSegment(cfg, a, b)
  }

  function Remotes(host: HostConfig, k: nat): seq<Remote>
    requires k <= |host.interfaces|
  {
    seq(k, i requires 0 <= i < k => Remote(host.interfaces[i].name, host.interfaces[i].segment, host.name))
  }

  /** The interfaces of the other hosts, in the order of the configuration. */
  function AllRemotes(hosts: seq<HostConfig>, local: string): seq<Remote> {
    if hosts == [] then []
    else
      var h := hosts[|hosts| - 1];
      AllRemotes(hosts[..|hosts| - 1], local) + (if h.name == local then [] else Remotes(h, |h.interfaces|))
  }

  /** What an interface on `segment` can send to, once the remotes `rs` have been offered to it. */
  function Reachable(rs: seq<Remote>, segment: int): map<string, string> {
    if rs == [] then map[]
    else
      var r := rs[|rs| - 1];
      var m := Reachable(rs[..|rs| - 1], segment);
      if r.segment == segment then m[r.name := r.host] else m
  }

  function LocalSegments(interfaces: seq<InterfaceConfig>): map<string, int> {
    if interfaces == [] then map[]
    else
      var f := interfaces[|interfaces| - 1];
      LocalSegments(interfaces[..|interfaces| - 1])[f.name := f.segment]
  }

  function Wiring(segments: map<string, int>, rs: seq<Remote>): map<string, Interface> {
    map n | n in segments :: Interface(segments[n], Reachable(rs, segments[n]))
  }

  lemma {:induction false} ReachableMeaning(rs: seq<Remote>, segment: int, r: Remote)
    requires r in rs && r.segment == segment
    requires forall x :: x in rs && x.name == r.name && x.segment == segment ==> x.host == r.host
    ensures r.name in Reachable(rs, segment) && Reachable(rs, segment)[r.name] == r.host
  {
    var n := |rs| - 1;
    assert rs == rs[..n] + [rs[n]];
    if r in rs[..n] {
      ReachableMeaning(rs[..n], segment, r);
    }
  }

  /** Nothing else is reached: every name is that of a remote on the segment. */
  lemma {:induction false} ReachableOnly(rs: seq<Remote>, segment: int, name: string)
    requires name in Reachable(rs, segment)
    ensures Remote(name, segment, Reachable(rs, segment)[name]) in rs
  {
    var n := |rs| - 1;
    if !(rs[n].segment == segment && rs[n].name == name) {
      ReachableOnly(rs[..n], segment, name);
    }
  }

  ghost predicate IsRemote(hosts: seq<HostConfig>, local: string, r: Remote, i: int, k: int) {
    && 0 <= i < |hosts| && 0 <= k < |hosts[i].interfaces| && hosts[i].name != local
    && r == Remote(hosts[i].interfaces[k].name, hosts[i].interfaces[k].segment, hosts[i].name)
  }

  lemma {:induction false} RemoteListed(hosts: seq<HostConfig>, local: string, r: Remote, i: int, k: int)
    requires IsRemote(hosts, local, r, i, k)
    ensures r in AllRemotes(hosts, local)
  {
    var n := |hosts| - 1;
    if i < n {
      RemoteListed(hosts[..n], local, r, i, k);
    } else {
      assert Remotes(hosts[n], |hosts[n].interfaces|)[k] == r;
    }
  }

  lemma {:induction false} ListedIsRemote(hosts: seq<HostConfig>, local: string, r: Remote) returns (i: int, k: int)
    requires r in AllRemotes(hosts, local)
    ensures IsRemote(hosts, local, r, i, k)
  {
    var n := |hosts| - 1;
    if r in AllRemotes(hosts[..n], local) {
      i, k := ListedIsRemote(hosts[..n], local, r);
    } else {
      i := n;
      k :| 0 <= k < |hosts[n].interfaces| && Remotes(hosts[n], |hosts[n].interfaces|)[k] == r;
    }
  }

  lemma RemotesClear(cfg: Config, local: string, r: Remote)
    requires RemoteNamesClear(cfg, local) && r in AllRemotes(cfg.hosts, local)
    ensures forall x :: x in AllRemotes(cfg.hosts, local) && x.name == r.name && x.segment == r.segment ==>
      x.host == r.host
  {
    var i, k := ListedIsRemote(cfg.hosts, local, r);
    forall x | x in AllRemotes(cfg.hosts, local) && x.name == r.name && x.segment == r.segment
      ensures x.host == r.host {
      var j, l := ListedIsRemote(cfg.hosts, local, x);
      assert HasInterface(cfg, i, k) && HasInterface(cfg, j, l);
    }
  }

  lemma {:induction false} InterfaceOnMeaning(interfaces: seq<InterfaceConfig>, segment: int)
    ensures InterfaceOn(interfaces, segment).Some? <==>
      exists k :: 0 <= k < |interfaces| && interfaces[k].segment == segment
    ensures InterfaceOn(interfaces, segment).Some? ==>
      exists k :: 0 <= k < |interfaces| &&
        interfaces[k] == InterfaceConfig(InterfaceOn(interfaces, segment).value, segment)
  {
    if interfaces != [] {
      InterfaceOnMeaning(interfaces[..|interfaces| - 1], segment);
    }
  }

  lemma {:induction false} LocalSegmentsMeaning(interfaces: seq<InterfaceConfig>, k: int)
    requires 0 <= k < |interfaces|
    requires forall j :: 0 <= j < |interfaces| && interfaces[j].name == interfaces[k].name ==>
      interfaces[j].segment == interfaces[k].segment
    ensures interfaces[k].name in LocalSegments(interfaces)
    ensures LocalSegments(interfaces)[interfaces[k].name] == interfaces[k].segment
  {
    var n := |interfaces| - 1;
    if k < n {
      LocalSegmentsMeaning(interfaces[..n], k);
    }
  }

  /** On a segment that the local host shares with another host, the interface of the local host
      reaches the interface of the other host. */
  lemma HopWired(cfg: Config, local: string, i: int, j: int, segment: int)
    requires UniqueInterfaces(cfg, local) && 0 <= i < |cfg.hosts| && 0 <= j < |cfg.hosts|
    requires cfg.hosts[i].name == local && cfg.hosts[j].name != local
    requires OnSegment(cfg.hosts[i], segment) && OnSegment(cfg.hosts[j], segment)
    ensures var here, there := InterfaceOn(cfg.hosts[i].interfaces, segment),
      InterfaceOn(cfg.hosts[j].interfaces, segment);
      var wiring := Wiring(LocalSegments(cfg.hosts[i].interfaces), AllRemotes(cfg.hosts, local));
      && here.Some? && there.Some? && here.value in wiring
      && there.value in wiring[here.value].name2hostInterface
      && wiring[here.value].name2hostInterface[there.value] == cfg.hosts[j].name
  {
    InterfaceOnMeaning(cfg.hosts[i].interfaces, segment);
    InterfaceOnMeaning(cfg.hosts[j].interfaces, segment);
    var k :| 0 <= k < |cfg.hosts[i].interfaces| &&
      cfg.hosts[i].interfaces[k] == InterfaceConfig(InterfaceOn(cfg.hosts[i].interfaces, segment).value, segment);
    forall x | 0 <= x < |cfg.hosts[i].interfaces| && cfg.hosts[i].interfaces[x].name == cfg.hosts[i].interfaces[k].name
      ensures cfg.hosts[i].interfaces[x].segment == cfg.hosts[i].interfaces[k].segment
    {
      assert HasInterface(cfg, i, x) && HasInterface(cfg, i, k);
    }
    LocalSegmentsMeaning(cfg.hosts[i].interfaces, k);
    var l :| 0 <= l < |cfg.hosts[j].interfaces| &&
      cfg.hosts[j].interfaces[l] == InterfaceConfig(InterfaceOn(cfg.hosts[j].interfaces, segment).value, segment);
    var r := Remote(cfg.hosts[j].interfaces[l].name, segment, cfg.hosts[j].name);
    RemoteListed(cfg.hosts, local, r, j, l);
    RemotesClear(cfg, local, r);
    ReachableMeaning(AllRemotes(cfg.hosts, local), segment, r);
  }

  lemma {:induction false} OverrideShares(cfg: Config, local: string, overrides: seq<Override>, a: string, b: string)
    requires forall o :: o in overrides ==> Linkable(cfg, local, o.src, o.dest)
    requires a != b && LastOverride(cfg, local, overrides, a, b).Some?
    ensures ShareSegment(cfg, a, b)
  {
    var o := overrides[|overrides| - 1];
    var x, y := Resolve(cfg, local, o.src), Resolve(cfg, local, o.dest);
    ShareSegmentSymmetric(cfg, x, y);
    if !((x == a && y == b) || (x == b && y == a)) {
      OverrideShares(cfg, local, overrides[..|overrides| - 1], a, b);
    }
  }

  lemma ConfigLinksShare(cfg: Config, local: string)
    requires SegmentOverrides(cfg, local)
    ensures LinksShare(cfg, ConfigWeights(cfg, local))
  {
    forall a, b | Weight(ConfigWeights(cfg, local), a, b) > 0 ensures ShareSegment(cfg, a, b) {
      if LastOverride(cfg, local, cfg.overrides, a, b).Some? {
        OverrideShares(cfg, local, cfg.overrides, a, b);
      }
    }
  }

  /** The host behind a routing entry. */
  function NextHost(interfaceList: map<string, Interface>, exit: (string, string)): string {
    if exit.0 in interfaceList && exit.1 in interfaceList[exit.0].name2hostInterface
    then interfaceList[exit.0].name2hostInterface[exit.1] else ""
  }

  function TableOf(interfaceList: map<string, Interface>, route: map<string, (string, string)>): Forwarding.Table {
    map d | d in route :: NextHost(interfaceList, route[d])
  }

  function WiringOf(cfg: Config, local: string): map<string, Interface>
    requires local in Names(cfg.hosts)
  {
    Wiring(LocalSegments(HostNamed(cfg.hosts, local).interfaces), AllRemotes(cfg.hosts, local))
  }

  function HostNamed(hosts: seq<HostConfig>, name: string): (h: HostConfig)
    requires name in Names(hosts)
    ensures h in hosts && h.name == name
  {
    if hosts[0].name == name then hosts[0]
    else
      assert Names(hosts[1..]) == Names(hosts)[1..];
      HostNamed(hosts[1..], name)
  }

  lemma {:induction false} FirstNamed(hosts: seq<HostConfig>, name: string) returns (i: nat)
    requires name in Names(hosts)
    ensures i < |hosts| && HostNamed(hosts, name) == hosts[i] && forall j :: 0 <= j < i ==> hosts[j].name != name
  {
    if hosts[0].name == name {
      return 0;
    }
    assert Names(hosts[1..]) == Names(hosts)[1..];
    i := FirstNamed(hosts[1..], name);
    i := i + 1;
  }

  /** The exit recorded for row `h` leads to the host of row `h`. */
  lemma ExitLeadsTo(cfg: Config, local: string, m: Mesh, s2i: seq<map<int, string>>, h: int)
    requires Distinct(Names(cfg.hosts)) && UniqueInterfaces(cfg, local) && local in Names(cfg.hosts)
    requires WellFormed(m) && m.names == Names(Arranged(cfg, local)) && 0 < h < |m.names|
    requires Interfaced(s2i, m, Arranged(cfg, local)) && LinksShare(cfg, WeightsOf(m)) && Link(m, 0, h) > 0
    ensures NextHost(WiringOf(cfg, local), ExitTo(m, s2i, h)) == m.names[h]
  {
    var rows, segment := Arranged(cfg, local), m.links[0][h].segment;
    ArrangedMeaning(cfg, local);
    assert m.names[0] != m.names[h];
    LinkedRowsShare(cfg, local, m, s2i, h);
    var i := RowIsHost(cfg, local, 0);
    var j := RowIsHost(cfg, local, h);
    HopWired(cfg, local, i, j, segment);
    assert HostNamed(cfg.hosts, local) == cfg.hosts[i];
    assert Find(s2i[0], segment) == InterfaceOn(rows[0].interfaces, segment);
    assert Find(s2i[h], segment) == InterfaceOn(rows[h].interfaces, segment);
  }

  lemma LinkedRowsShare(cfg: Config, local: string, m: Mesh, s2i: seq<map<int, string>>, h: int)
    requires Distinct(Names(cfg.hosts)) && local in Names(cfg.hosts)
    requires WellFormed(m) && m.names == Names(Arranged(cfg, local)) && 0 < h < |m.names|
    requires Interfaced(s2i, m, Arranged(cfg, local)) && LinksShare(cfg, WeightsOf(m)) && Link(m, 0, h) > 0
    ensures OnSegment(Arranged(cfg, local)[0], m.links[0][h].segment)
    ensures OnSegment(Arranged(cfg, local)[h], m.links[0][h].segment)
  {
    WeightAt(m, 0, h);
    CommonSegment(cfg, local, 0, h);
    assert Carried(Arranged(cfg, local), 0, h, m.links[0][h].segment);
  }

  ghost predicate ReadFrom(cfg: Config, local: string, m: Mesh, s2i: seq<map<int, string>>) {
    && Sensible(cfg, local) && local in Names(cfg.hosts)
    && WellFormed(m) && m.names == Names(Arranged(cfg, local))
    && Interfaced(s2i, m, Arranged(cfg, local))
    && InitialWeights(m) == ConfigWeights(cfg, local)
    && LinksShare(cfg, WeightsOf(m))
  }

  lemma ReadFromKept(cfg: Config, local: string, m: Mesh, m': Mesh, s2i: seq<map<int, string>>)
    requires ReadFrom(cfg, local, m, s2i) && WellFormed(m') && m'.names == m.names && Initial(m') == Initial(m)
    requires LinksShare(cfg, WeightsOf(m'))
    ensures ReadFrom(cfg, local, m', s2i)
  {
    InterfacedKept(s2i, m, m', Arranged(cfg, local));
  }

  lemma UnlistedIsLocal(cfg: Config, local: string, m: Mesh, host: string)
    requires Distinct(Names(cfg.hosts)) && local in Names(cfg.hosts) && m.names == Names(Arranged(cfg, local))
    ensures |m.names| > 0 && (if host in m.names then host else m.names[0]) == Resolve(cfg, local, host)
  {
    ArrangedMeaning(cfg, local);
  }

  lemma SetBothShares(cfg: Config, w: Weights, a: string, b: string, weight: int)
    requires LinksShare(cfg, w) && (a == b || ShareSegment(cfg, a, b))
    ensures LinksShare(cfg, SetBoth(w, a, b, weight))
  {
    ShareSegmentSymmetric(cfg, a, b);
  }

  lemma RestoreShares(cfg: Config, local: string, w: Weights, a: string, b: string)
    requires LinksShare(cfg, w) && SegmentOverrides(cfg, local)
    ensures LinksShare(cfg, RestoreBoth(w, ConfigWeights(cfg, local), a, b))
  {
    ConfigLinksShare(cfg, local);
  }

  /** Failing a link between hosts that share a segment leaves the matrix one of the configuration. */
  lemma FailedView(cfg: Config, local: string, m: Mesh, m': Mesh, s2i: seq<map<int, string>>, a: string, b: string)
    requires ReadFrom(cfg, local, m, s2i) && WellFormed(m') && m'.names == m.names && Initial(m') == Initial(m)
    requires WeightsOf(m') == SetBoth(WeightsOf(m), a, b, INT_MAX - 1)
    ensures a == b || ShareSegment(cfg, a, b) ==> ReadFrom(cfg, local, m', s2i)
  {
    if a == b || ShareSegment(cfg, a, b) {
      SetBothShares(cfg, WeightsOf(m), a, b, INT_MAX - 1);
      ReadFromKept(cfg, local, m, m', s2i);
    }
  }

  lemma RestoredView(cfg: Config, local: string, m: Mesh, m': Mesh, s2i: seq<map<int, string>>, a: string, b: string)
    requires ReadFrom(cfg, local, m, s2i) && WellFormed(m') && m'.names == m.names && Initial(m') == Initial(m)
    requires WeightsOf(m') == RestoreBoth(WeightsOf(m), ConfigWeights(cfg, local), a, b)
    ensures ReadFrom(cfg, local, m', s2i)
  {
    RestoreShares(cfg, local, WeightsOf(m), a, b);
    ReadFromKept(cfg, local, m, m', s2i);
  }

  lemma TableIsRouted(cfg: Config, local: string, m: Mesh, s2i: seq<map<int, string>>, r: map<string, (string, string)>)
    requires ReadFrom(cfg, local, m, s2i) && RoutesAll(m, s2i, r)
    ensures Forwarding.Routed(WeightsOf(m), local, TableOf(WiringOf(cfg, local), r))
  {
    forall d ensures Forwarding.RoutedTo(WeightsOf(m), local, TableOf(WiringOf(cfg, local), r), d) {
      if d != local && Dist(WeightsOf(m), local, d) < INT_MAX {
        EntryIsRouted(cfg, local, m, s2i, r, d);
      }
    }
  }

  /** When the search overflows, the table sends the traffic for the far end of an overflowed link to
      a first hop towards its near end. */
  lemma TableIsMisrouted(cfg: Config, local: string, m: Mesh, s2i: seq<map<int, string>>,
          r: map<string, (string, string)>) returns (u: int, v: int)
    requires ReadFrom(cfg, local, m, s2i) && Misroutes(m, s2i, r)
    ensures 0 <= u < |m.names| && 0 < v < |m.names| && Overflows(m, u, v) && m.names[v] in r
    ensures FirstHopTo(WeightsOf(m), local, NextHost(WiringOf(cfg, local), r[m.names[v]]), m.names[u])
  {
    assert m.names[0] == local by {
      ArrangedMeaning(cfg, local);
    }
    var h;
    u, v, h := MisroutedHop(m, s2i, r);
    ExitLeadsTo(cfg, local, m, s2i, h);
  }

  lemma EntryIsRouted(cfg: Config, local: string, m: Mesh, s2i: seq<map<int, string>>,
          r: map<string, (string, string)>, d: string)
    requires ReadFrom(cfg, local, m, s2i) && RoutesAll(m, s2i, r)
    requires d != local && Dist(WeightsOf(m), local, d) < INT_MAX
    ensures d in r && FirstHopTo(WeightsOf(m), local, NextHost(WiringOf(cfg, local), r[d]), d)
  {
    assert m.names[0] == local by {
      ArrangedMeaning(cfg, local);
    }
    var h := EntryHop(m, s2i, r, d);
    ExitLeadsTo(cfg, local, m, s2i, h);
  }

  lemma EntryHop(m: Mesh, s2i: seq<map<int, string>>, r: map<string, (string, string)>, d: string) returns (h: int)
    requires WellFormed(m) && |s2i| == |m.names| && RoutesAll(m, s2i, r)
    requires d != m.names[0] && Dist(WeightsOf(m), m.names[0], d) < INT_MAX
    ensures 0 < h < |m.names| && d in r && r[d] == ExitTo(m, s2i, h)
    ensures FirstHopTo(WeightsOf(m), m.names[0], m.names[h], d) && Link(m, 0, h) > 0
  {
    var i := RowReached(m, d);
    assert RoutesOrNot(m, s2i, r, i);
    h :| 0 < h < |m.names| && FirstHopTo(WeightsOf(m), m.names[0], m.names[h], d) && r[d] == ExitTo(m, s2i, h);
    WeightAt(m, 0, h);
  }

  class InterfaceManager {
    ghost const cfg: Config
    const hostName: string
    const hostMap: HostMap
    var interfaceList: map<string, Interface>
    var route: map<string, (string, string)>
    var router: map<string, map<string, string>>

    /** init: the local interfaces, the remote ones they reach, the host matrix and the first table. */
    constructor (config: Config, name: string)
      requires Sensible(config, name) && name in Names(config.hosts)
      ensures Valid() && fresh(hostMap) && cfg == config && hostName == name
      ensures W() == ConfigWeights(config, name)
    {
      cfg, hostName := config, name;
      interfaceList, route, router := map[], map[], map[];
      hostMap := new HostMap();
      new;
      ReadLocal(config);
      ReadRemotes(config);
      hostMap.Init(config, name);
      ConfigLinksShare(config, name);
      Reroute();
    }

    /** The interfaces of the local host, a later one replacing an earlier one of the same name. */
    method ReadLocal(config: Config)
      requires Distinct(Names(config.hosts)) && hostName in Names(config.hosts) && interfaceList == map[]
      modifies `interfaceList
      ensures interfaceList == Wiring(LocalSegments(HostNamed(config.hosts, hostName).interfaces), [])
    {
      ghost var first := FirstNamed(config.hosts, hostName);
      var i := 0;
      while config.hosts[i].name != hostName
        invariant 0 <= i <= first
        decreases first - i
      {
        i := i + 1;
      }
      ReadInterfaces(config.hosts[i].interfaces);
    }

    method ReadInterfaces(fs: seq<InterfaceConfig>)
      requires interfaceList == map[]
      modifies `interfaceList
      ensures interfaceList == Wiring(LocalSegments(fs), [])
    {
      for k := 0 to |fs|
        invariant interfaceList == Wiring(LocalSegments(fs[..k]), [])
      {
        interfaceList := interfaceList[fs[k].name := Interface(fs[k].segment, map[])];
        assert fs[..k + 1][..k] == fs[..k];
      }
      assert fs[..|fs|] == fs;
    }

    /** Offer every interface of every other host to the local interfaces on its segment. */
    method ReadRemotes(config: Config)
      requires hostName in Names(config.hosts)
      requires interfaceList == Wiring(LocalSegments(HostNamed(config.hosts, hostName).interfaces), [])
      modifies `interfaceList
      ensures interfaceList == WiringOf(config, hostName)
    {
      ghost var segments := LocalSegments(HostNamed(config.hosts, hostName).interfaces);
      for i := 0 to |config.hosts|
        invariant interfaceList == Wiring(segments, AllRemotes(config.hosts[..i], hostName))
      {
        ghost var rs := AllRemotes(config.hosts[..i], hostName);
        assert config.hosts[..i + 1][..i] == config.hosts[..i];
        var h := config.hosts[i];
        assert rs + [] == rs;
        if h.name != hostName {
          OfferAll(h, segments, rs);
        }
      }
      assert config.hosts[..|config.hosts|] == config.hosts;
    }

    /** The loop over the interfaces of another host. */
    method OfferAll(h: HostConfig, ghost segments: map<string, int>, ghost rs: seq<Remote>)
      requires interfaceList == Wiring(segments, rs)
      modifies `interfaceList
      ensures interfaceList == Wiring(segments, rs + Remotes(h, |h.interfaces|))
    {
      assert rs + Remotes(h, 0) == rs;
      for k := 0 to |h.interfaces|
        invariant interfaceList == Wiring(segments, rs + Remotes(h, k))
      {
        var r := Remote(h.interfaces[k].name, h.interfaces[k].segment, h.name);
        Offer(r, segments, rs + Remotes(h, k));
        assert rs + Remotes(h, k) + [r] == rs + Remotes(h, k + 1);
      }
    }

    /** The loop over interfaceList for one remote interface. */
    method Offer(r: Remote, ghost segments: map<string, int>, ghost rs: seq<Remote>)
      requires interfaceList == Wiring(segments, rs)
      modifies `interfaceList
      ensures interfaceList == Wiring(segments, rs + [r])
    {
      var todo := interfaceList.Keys;
      ghost var before := interfaceList;
      assert (rs + [r])[..|rs|] == rs;
      while todo != {}
        invariant todo <= interfaceList.Keys == before.Keys
        invariant forall n :: n in before ==>
                    interfaceList[n] == if n in todo then before[n]
                      else Interface(segments[n], Reachable(rs + [r], segments[n]))
        decreases todo
      {
        var key :| key in todo;
        var value := interfaceList[key];
        if value.segment == r.segment {
          interfaceList := interfaceList[key :=
            value.(name2hostInterface := value.name2hostInterface[r.name := r.host])];
        }
        todo := todo - {key};
      }
    }

    ghost function W(): Weights
      reads hostMap
      requires hostMap.Valid()
    {
      WeightsOf(hostMap.View())
    }

    function Table(): Forwarding.Table
      reads this
    {
      TableOf(interfaceList, route)
    }

    /** The table is one that getRoute can return for the current weights. */
    ghost predicate Valid()
      reads this, hostMap
    {
      Wired() && IsRoute(hostMap.View(), hostMap.segment2interface, route)
    }

    /** The host matrix and the interfaces are those of the configuration, up to the current weights. */
    ghost predicate Wired()
      reads `interfaceList, hostMap
    {
      && hostMap.Valid()
      && ReadFrom(cfg, hostName, hostMap.View(), hostMap.segment2interface)
      && interfaceList == WiringOf(cfg, hostName)
    }

    /** Compute the table anew. */
    method Reroute()
      requires hostMap.Valid()
      modifies `route
      ensures old(Wired()) ==> Valid()
    {
      var r := hostMap.GetRoute();
      label computed:
      route := r;
      OnlyRouteChanged@computed(r);
    }

    twostate lemma OnlyRouteChanged(r: map<string, (string, string)>)
      requires old(hostMap.Valid()) && old(IsRoute(hostMap.View(), hostMap.segment2interface, r)) && route == r
      requires interfaceList == old(interfaceList) && unchanged(hostMap)
      ensures old(Wired()) ==> Valid()
    {
      assert hostMap.Valid() && hostMap.View() == old(hostMap.View());
      assert hostMap.segment2interface == old(hostMap.segment2interface);
      assert Wired() <==> old(Wired());
    }

    /** A link was reported failed. A name that is not configured stands for the local host; a pair
        that shares no segment becomes a link that no interface carries. */
    method SetMaxWeight(host1: string, host2: string)
      requires Valid()
      modifies `route, hostMap
      ensures hostMap.Valid()
      ensures W() == SetBoth(old(W()), Resolve(cfg, hostName, host1), Resolve(cfg, hostName, host2), INT_MAX - 1)
      ensures Linkable(cfg, hostName, host1, host2) ==> Valid()
    {
      FailLink(host1, host2);
      Reroute();
    }

    method FailLink(host1: string, host2: string)
      requires Wired()
      modifies hostMap
      ensures hostMap.Valid()
      ensures W() == SetBoth(old(W()), Resolve(cfg, hostName, host1), Resolve(cfg, hostName, host2), INT_MAX - 1)
      ensures Linkable(cfg, hostName, host1, host2) ==> Wired()
    {
      ghost var m := hostMap.View();
      UnlistedIsLocal(cfg, hostName, m, host1);
      UnlistedIsLocal(cfg, hostName, m, host2);
      hostMap.SetMaxWeight(host1, host2);
      FailedView(cfg, hostName, m, hostMap.View(), hostMap.segment2interface,
                 Resolve(cfg, hostName, host1), Resolve(cfg, hostName, host2));
    }

    /** A link was reported restored. */
    method SetInitWeight(host1: string, host2: string)
      requires Valid()
      modifies `route, hostMap
      ensures Valid()
      ensures W() == RestoreBoth(old(W()), ConfigWeights(cfg, hostName),
                                 Resolve(cfg, hostName, host1), Resolve(cfg, hostName, host2))
    {
      RestoreLink(host1, host2);
      Reroute();
    }

    method RestoreLink(host1: string, host2: string)
      requires Wired()
      modifies hostMap
      ensures Wired()
      ensures W() == RestoreBoth(old(W()), ConfigWeights(cfg, hostName),
                                 Resolve(cfg, hostName, host1), Resolve(cfg, hostName, host2))
    {
      ghost var m := hostMap.View();
      UnlistedIsLocal(cfg, hostName, m, host1);
      UnlistedIsLocal(cfg, hostName, m, host2);
      hostMap.SetInitWeight(host1, host2);
      RestoredView(cfg, hostName, m, hostMap.View(), hostMap.segment2interface,
                   Resolve(cfg, hostName, host1), Resolve(cfg, hostName, host2));
    }

    /** The controller for a target and a verb. */
    function Controller(path: string, verb: string): Option<string>
      reads `router
    {
      if path in router && verb in router[path] then Some(router[path][verb]) else None
    }

    method RegisterController(path: string, verb: string, controller: string)
      modifies `router
      ensures forall p, v :: Controller(p, v)
                          == if p == path && v == verb then Some(controller) else old(Controller(p, v))
    {
      router := router[path := (if path in router then router[path] else map[])[verb := controller]];
    }

    /** Dispatch a request for this host to the controller registered for its target and verb;
        hand any other request to the next host of the table, which is the first hop of a least-weight
        path unless the search overflowed. */
    method Handle(req: Request) returns (r: Handling)
      requires Valid()
      requires req.dest == hostName || req.dest in Table() ||
               (Safe(hostMap.View()) && Dist(W(), hostName, req.dest) < INT_MAX)
      ensures req.dest == hostName ==>
        r == match Controller(req.target, req.verb) case Some(c) => Dispatched(c) case None => Ignored
      ensures req.dest != hostName ==>
        r.Forwarded? && req.dest in Table() && r.next == Table()[req.dest]
        && (Safe(hostMap.View()) && Dist(W(), hostName, req.dest) < INT_MAX ==>
              FirstHopTo(W(), hostName, r.next, req.dest))
    {
      if req.dest != hostName {
        if Safe(hostMap.View()) {
          TableIsRouted(cfg, hostName, hostMap.View(), hostMap.segment2interface, route);
          assert Forwarding.RoutedTo(W(), hostName, Table(), req.dest);
        }
        var exit := route[req.dest];
        r := Forwarded(NextHost(interfaceList, exit));
      } else if req.target in router && req.verb in router[req.target] {
        r := Dispatched(router[req.target][req.verb]);
      } else {
        r := Ignored;
      }
    }
  }
}
