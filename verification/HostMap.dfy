/** The host matrix of one master (src/Master/src/interface/Map.cpp): how it is
    filled from the shared configuration, how a link is failed and restored,
    and the routing table that is computed from it.
 */
module HostMaps {
  import opened Basics
  import opened Graphs
  import opened ShortestPaths

  datatype InterfaceConfig = InterfaceConfig(name: string, segment: int)
  datatype HostConfig = HostConfig(name: string, interfaces: seq<InterfaceConfig>)
  datatype Override = Override(src: string, dest: string, weight: int32)
  datatype Config = Config(hosts: seq<HostConfig>, overrides: seq<Override>)

  function Names(hosts: seq<HostConfig>): (r: seq<string>)
    ensures |r| == |hosts| && forall i :: 0 <= i < |hosts| ==> r[i] == hosts[i].name
  {
    seq(|hosts|, i requires 0 <= i < |hosts| => hosts[i].name)
  }

  predicate OnSegment(h: HostConfig, segment: int) {
    exists k :: 0 <= k < |h.interfaces| && h.interfaces[k].segment == segment
  }

  lemma OnSegmentSnoc(h: HostConfig, last: InterfaceConfig, segment: int, h': HostConfig)
    requires h'.interfaces == h.interfaces + [last]
    ensures OnSegment(h', segment) <==> OnSegment(h, segment) || segment == last.segment
  {
    if OnSegment(h, segment) {
      var k :| 0 <= k < |h.interfaces| && h.interfaces[k].segment == segment;
      assert h'.interfaces[k].segment == segment;
    }
    assert h'.interfaces[|h.interfaces|].segment == last.segment;
  }

  predicate RowOnSegment(rows: seq<HostConfig>, i: int, segment: int) {
    0 <= i < |rows| && OnSegment(rows[i], segment)
  }

  predicate Member(m: map<int, seq<int>>, segment: int, i: int) {
    segment in m && i in m[segment]
  }

  /** Two hosts of the configuration have an interface on a common segment. */
  predicate ShareSegment(cfg: Config, a: string, b: string) {
    exists i, j, k :: 0 <= i < |cfg.hosts| && 0 <= j < |cfg.hosts| && 0 <= k < |cfg.hosts[i].interfaces| &&
      cfg.hosts[i].name == a && cfg.hosts[j].name == b &&
      OnSegment(cfg.hosts[j], cfg.hosts[i].interfaces[k].segment)
  }

  /** A name that the configuration does not list is read as row 0, the local host. */
  function Resolve(cfg: Config, local: string, name: string): string {
    if name in Names(cfg.hosts) then name else local
  }

  /** The weight of the last override that names the pair, in either direction. */
  function LastOverride(cfg: Config, local: string, overrides: seq<Override>, a: string, b: string): Option<int32> {
    if overrides == [] then None
    else
      var o := overrides[|overrides| - 1];
      var x, y := Resolve(cfg, local, o.src), Resolve(cfg, local, o.dest);
      if (x == a && y == b) || (x == b && y == a) then Some(o.weight)
      else LastOverride(cfg, local, overrides[..|overrides| - 1], a, b)
  }

  /** The weight of a pair without overrides. */
  function SegmentWeight(cfg: Config, a: string, b: string): int32 {
    if ShareSegment(cfg, a, b) then 1 else 0
  }

  function InitialWeight(cfg: Config, local: string, a: string, b: string): int32 {
    match LastOverride(cfg, local, cfg.overrides, a, b)
    case Some(w) => w
    case None => SegmentWeight(cfg, a, b)
  }

  /** The graph that the configuration describes, as host `local` reads it. */
  function ConfigWeights(cfg: Config, local: string): Weights {
    map a, b | a in Names(cfg.hosts) && b in Names(cfg.hosts) && a != b :: (a, b) := InitialWeight(cfg, local, a, b)
  }

  predicate KnownOverrides(cfg: Config) {
    forall o :: o in cfg.overrides ==> o.src in Names(cfg.hosts) && o.dest in Names(cfg.hosts)
  }

  lemma {:induction false} LastOverrideSymmetric(cfg: Config, local: string, overrides: seq<Override>, a: string,
          b: string)
    ensures LastOverride(cfg, local, overrides, a, b) == LastOverride(cfg, local, overrides, b, a)
  {
    if overrides != [] {
      LastOverrideSymmetric(cfg, local, overrides[..|overrides| - 1], a, b);
    }
  }

  lemma {:induction false} LastOverrideViewpoint(cfg: Config, l1: string, l2: string, overrides: seq<Override>,
          a: string, b: string)
    requires forall o :: o in overrides ==> o.src in Names(cfg.hosts) && o.dest in Names(cfg.hosts)
    ensures LastOverride(cfg, l1, overrides, a, b) == LastOverride(cfg, l2, overrides, a, b)
  {
    if overrides != [] {
      LastOverrideViewpoint(cfg, l1, l2, overrides[..|overrides| - 1], a, b);
    }
  }

  lemma ShareSegmentSymmetric(cfg: Config, a: string, b: string)
    ensures ShareSegment(cfg, a, b) == ShareSegment(cfg, b, a)
  {
    forall x, y | ShareSegment(cfg, x, y) ensures ShareSegment(cfg, y, x) {
      var i, j, k :| 0 <= i < |cfg.hosts| && 0 <= j < |cfg.hosts| && 0 <= k < |cfg.hosts[i].interfaces| &&
        cfg.hosts[i].name == x && cfg.hosts[j].name == y &&
        OnSegment(cfg.hosts[j], cfg.hosts[i].interfaces[k].segment);
      var k' :| 0 <= k' < |cfg.hosts[j].interfaces| &&
        cfg.hosts[j].interfaces[k'].segment == cfg.hosts[i].interfaces[k].segment;
      assert OnSegment(cfg.hosts[i], cfg.hosts[j].interfaces[k'].segment);
    }
  }

  /** Every host reads the same symmetric graph out of one configuration. */
  lemma ConfigWeightsAgree(cfg: Config, l1: string, l2: string)
    requires KnownOverrides(cfg)
    ensures ConfigWeights(cfg, l1) == ConfigWeights(cfg, l2)
    ensures forall a, b :: Weight(ConfigWeights(cfg, l1), a, b) == Weight(ConfigWeights(cfg, l1), b, a)
  {
    forall a, b ensures InitialWeight(cfg, l1, a, b) == InitialWeight(cfg, l2, a, b) == InitialWeight(cfg, l1, b, a) {
      LastOverrideViewpoint(cfg, l1, l2, cfg.overrides, a, b);
      LastOverrideSymmetric(cfg, l1, cfg.overrides, a, b);
      ShareSegmentSymmetric(cfg, a, b);
    }
  }

  /* ---- names that the configuration does not list ---- */

  predicate NamesBoth(o: Override, a: string, b: string) {
    (o.src == a && o.dest == b) || (o.src == b && o.dest == a)
  }

  /** The override names `b` and a host that is not configured. */
  predicate Stray(cfg: Config, o: Override, b: string) {
    (o.src == b && o.dest !in Names(cfg.hosts)) || (o.dest == b && o.src !in Names(cfg.hosts))
  }

  /** The weight of the last override that names both hosts. */
  function LastKnown(overrides: seq<Override>, a: string, b: string): Option<int32> {
    if overrides == [] then None
    else if NamesBoth(overrides[|overrides| - 1], a, b) then Some(overrides[|overrides| - 1].weight)
    else LastKnown(overrides[..|overrides| - 1], a, b)
  }

  /** The weight of the last override that names `b` and an unknown host, if it comes after the last
      one that names both `a` and `b`. */
  function StrayAfter(cfg: Config, overrides: seq<Override>, a: string, b: string): Option<int32> {
    if overrides == [] then None
    else
      var o := overrides[|overrides| - 1];
      if NamesBoth(o, a, b) then None
      else if Stray(cfg, o, b) then Some(o.weight)
      else StrayAfter(cfg, overrides[..|overrides| - 1], a, b)
  }

  /** The weight of the pair from the overrides that name both hosts, and from the segments. */
  function KnownWeight(cfg: Config, a: string, b: string): int32 {
    match LastKnown(cfg.overrides, a, b)
    case Some(w) => w
    case None => SegmentWeight(cfg, a, b)
  }

  /** The weight that host `a` takes for its link to `b`: a stray override of `b` replaces the known one. */
  function OwnWeight(cfg: Config, a: string, b: string): int32 {
    match StrayAfter(cfg, cfg.overrides, a, b)
    case Some(w) => w
    case None => KnownWeight(cfg, a, b)
  }

  lemma {:induction false} LastOverrideFrom(cfg: Config, local: string, overrides: seq<Override>, a: string, b: string)
    requires a in Names(cfg.hosts) && b in Names(cfg.hosts) && a != b && local != b
    ensures LastOverride(cfg, local, overrides, a, b)
         == if local == a && StrayAfter(cfg, overrides, a, b).Some? then StrayAfter(cfg, overrides, a, b)
            else LastKnown(overrides, a, b)
  {
    if overrides != [] {
      LastOverrideFrom(cfg, local, overrides[..|overrides| - 1], a, b);
    }
  }

  /** Which weight a host reads for a pair: its own view of its own links, the known weight of others. */
  lemma WeightRead(cfg: Config, local: string, a: string, b: string)
    requires a in Names(cfg.hosts) && b in Names(cfg.hosts) && a != b
    ensures InitialWeight(cfg, local, a, b)
         == if local == a then OwnWeight(cfg, a, b)
            else if local == b then OwnWeight(cfg, b, a) else KnownWeight(cfg, a, b)
  {
    if local != b {
      LastOverrideFrom(cfg, local, cfg.overrides, a, b);
    } else {
      LastOverrideSymmetric(cfg, local, cfg.overrides, a, b);
      ShareSegmentSymmetric(cfg, a, b);
      LastOverrideFrom(cfg, local, cfg.overrides, b, a);
    }
  }

  lemma {:induction false} LastKnownSymmetric(overrides: seq<Override>, a: string, b: string)
    ensures LastKnown(overrides, a, b) == LastKnown(overrides, b, a)
  {
    if overrides != [] {
      LastKnownSymmetric(overrides[..|overrides| - 1], a, b);
    }
  }

  /** No stray override changes the weight that `a` reads for its link to `b`. */
  predicate StraysHarmless(cfg: Config, a: string, b: string) {
    match StrayAfter(cfg, cfg.overrides, a, b)
    case Some(w) => w == KnownWeight(cfg, a, b)
    case None => true
  }

  /** Somebody else is there to read the pair. */
  predicate HasThird(cfg: Config, a: string, b: string) {
    exists c :: c in Names(cfg.hosts) && c != a && c != b
  }

  /** What the overrides must satisfy for one pair: with a third host no stray override may change the
      weight; without one the two hosts must be changed alike. */
  predicate PairAgrees(cfg: Config, a: string, b: string) {
    if HasThird(cfg, a, b) then StraysHarmless(cfg, a, b) && StraysHarmless(cfg, b, a)
    else OwnWeight(cfg, a, b) == OwnWeight(cfg, b, a)
  }

  ghost predicate AllAgree(cfg: Config) {
    forall l1, l2 :: l1 in Names(cfg.hosts) && l2 in Names(cfg.hosts) ==>
      ConfigWeights(cfg, l1) == ConfigWeights(cfg, l2)
  }

  lemma PairReadAlike(cfg: Config, local: string, a: string, b: string)
    requires a in Names(cfg.hosts) && b in Names(cfg.hosts) && local in Names(cfg.hosts) && a != b
    requires PairAgrees(cfg, a, b)
    ensures InitialWeight(cfg, local, a, b) == OwnWeight(cfg, a, b)
  {
    WeightRead(cfg, local, a, b);
    LastKnownSymmetric(cfg.overrides, a, b);
    ShareSegmentSymmetric(cfg, a, b);
    assert local != a && local != b ==> HasThird(cfg, a, b);
  }

  lemma AgreeingPair(cfg: Config, a: string, b: string)
    requires a in Names(cfg.hosts) && b in Names(cfg.hosts) && a != b && AllAgree(cfg)
    ensures PairAgrees(cfg, a, b)
  {
    SameReading(cfg, a, b, a, b);
    WeightRead(cfg, a, a, b);
    WeightRead(cfg, b, a, b);
    if HasThird(cfg, a, b) {
      var c :| c in Names(cfg.hosts) && c != a && c != b;
      SameReading(cfg, a, c, a, b);
      WeightRead(cfg, c, a, b);
      LastKnownSymmetric(cfg.overrides, a, b);
      ShareSegmentSymmetric(cfg, a, b);
    }
  }

  lemma SameReading(cfg: Config, l1: string, l2: string, a: string, b: string)
    requires a in Names(cfg.hosts) && b in Names(cfg.hosts) && a != b
    requires l1 in Names(cfg.hosts) && l2 in Names(cfg.hosts) && AllAgree(cfg)
    ensures InitialWeight(cfg, l1, a, b) == InitialWeight(cfg, l2, a, b)
  {
    assert ConfigWeights(cfg, l1) == ConfigWeights(cfg, l2);
    assert ConfigWeights(cfg, l1)[(a, b)] == InitialWeight(cfg, l1, a, b);
    assert ConfigWeights(cfg, l2)[(a, b)] == InitialWeight(cfg, l2, a, b);
  }

  lemma SameWeights(cfg: Config, l1: string, l2: string)
    requires l1 in Names(cfg.hosts) && l2 in Names(cfg.hosts)
    requires forall a, b :: a in Names(cfg.hosts) && b in Names(cfg.hosts) && a != b ==> PairAgrees(cfg, a, b)
    ensures ConfigWeights(cfg, l1) == ConfigWeights(cfg, l2)
  {
    forall a, b | a in Names(cfg.hosts) && b in Names(cfg.hosts) && a != b
      ensures InitialWeight(cfg, l1, a, b) == InitialWeight(cfg, l2, a, b)
    {
      PairReadAlike(cfg, l1, a, b);
      PairReadAlike(cfg, l2, a, b);
    }
  }

  /** All configured hosts read the same graph exactly when no pair is disturbed by overrides that name
      one of its hosts and a host that is not configured. Overrides between two unknown names never
      matter, and one with a known name matters only if its weight differs from the known one. */
  lemma AgreementIff(cfg: Config)
    ensures AllAgree(cfg)
       <==> forall a, b :: a in Names(cfg.hosts) && b in Names(cfg.hosts) && a != b ==> PairAgrees(cfg, a, b)
  {
    if AllAgree(cfg) {
      forall a, b | a in Names(cfg.hosts) && b in Names(cfg.hosts) && a != b ensures PairAgrees(cfg, a, b) {
        AgreeingPair(cfg, a, b);
      }
    }
    if forall a, b :: a in Names(cfg.hosts) && b in Names(cfg.hosts) && a != b ==> PairAgrees(cfg, a, b) {
      forall l1, l2 | l1 in Names(cfg.hosts) && l2 in Names(cfg.hosts)
        ensures ConfigWeights(cfg, l1) == ConfigWeights(cfg, l2)
      {
        SameWeights(cfg, l1, l2);
      }
    }
  }

  lemma OnlyOverride(cfg: Config, a: string, unknown: string, weight: int32, x: string, y: string)
    requires cfg.overrides == [Override(a, unknown, weight)] && unknown !in Names(cfg.hosts)
    requires x in Names(cfg.hosts) && y in Names(cfg.hosts) && x != y && HasThird(cfg, x, y)
    ensures KnownWeight(cfg, x, y) == SegmentWeight(cfg, x, y)
    ensures StraysHarmless(cfg, x, y) <==> (y == a ==> weight == SegmentWeight(cfg, x, y))
  {
    var o := Override(a, unknown, weight);
    assert cfg.overrides[..|cfg.overrides| - 1] == [] && cfg.overrides[|cfg.overrides| - 1] == o;
    assert !NamesBoth(o, x, y) && (Stray(cfg, o, y) <==> y == a);
    assert LastKnown(cfg.overrides, x, y) == LastKnown([], x, y) == None;
    assert StrayAfter(cfg, [], x, y) == None;
  }

  lemma OnlyOverridePair(cfg: Config, a: string, unknown: string, weight: int32, x: string, y: string)
    requires cfg.overrides == [Override(a, unknown, weight)] && unknown !in Names(cfg.hosts)
    requires x in Names(cfg.hosts) && y in Names(cfg.hosts) && x != y && HasThird(cfg, x, y)
    ensures PairAgrees(cfg, x, y) <==> (x == a || y == a ==> weight == SegmentWeight(cfg, x, y))
  {
    OnlyOverride(cfg, a, unknown, weight, x, y);
    OnlyOverride(cfg, a, unknown, weight, y, x);
    ShareSegmentSymmetric(cfg, x, y);
    assert HasThird(cfg, y, x);
  }

  /** Among three or more hosts one override with an unknown name makes the hosts disagree exactly when
      its weight differs from the weight of some link of its known host. */
  lemma UnknownNameBreaksAgreement(cfg: Config, a: string, unknown: string, weight: int32)
    requires cfg.overrides == [Override(a, unknown, weight)] && unknown !in Names(cfg.hosts) && a in Names(cfg.hosts)
    requires forall x, y :: x in Names(cfg.hosts) && y in Names(cfg.hosts) ==> HasThird(cfg, x, y)
    ensures AllAgree(cfg)
       <==> forall d :: d in Names(cfg.hosts) && d != a ==> weight == SegmentWeight(cfg, d, a)
  {
    AgreementIff(cfg);
    forall x, y | x in Names(cfg.hosts) && y in Names(cfg.hosts) && x != y
      ensures PairAgrees(cfg, x, y) <==> (x == a || y == a ==> weight == SegmentWeight(cfg, x, y))
    {
      OnlyOverridePair(cfg, a, unknown, weight, x, y);
    }
    forall d | d in Names(cfg.hosts) ensures SegmentWeight(cfg, d, a) == SegmentWeight(cfg, a, d) {
      ShareSegmentSymmetric(cfg, d, a);
    }
    if AllAgree(cfg) {
      forall d | d in Names(cfg.hosts) && d != a ensures weight == SegmentWeight(cfg, d, a) {
        assert PairAgrees(cfg, d, a);
      }
    }
  }

  /** A concrete case: three hosts without a common segment and an override with a misspelt name. */
  lemma MisspeltOverride() returns (cfg: Config)
    ensures Names(cfg.hosts) == ["a", "b", "c"] && cfg.overrides == [Override("a", "B", 7)] && !AllAgree(cfg)
  {
    cfg := Config([HostConfig("a", []), HostConfig("b", []), HostConfig("c", [])], [Override("a", "B", 7)]);
    var names := Names(cfg.hosts);
    assert names == ["a", "b", "c"];
    assert names[0] in names && names[1] in names && names[2] in names;
    forall x, y | x in names && y in names ensures HasThird(cfg, x, y) {
      assert ("a" != x && "a" != y) || ("b" != x && "b" != y) || ("c" != x && "c" != y);
    }
    UnknownNameBreaksAgreement(cfg, "a", "B", 7);
    assert 7 != SegmentWeight(cfg, "b", "a");
  }

  /** The interface of a host on a segment: the last one listed. */
  function InterfaceOn(interfaces: seq<InterfaceConfig>, segment: int): Option<string> {
    if interfaces == [] then None
    else
      var last := interfaces[|interfaces| - 1];
      if last.segment == segment then Some(last.name) else InterfaceOn(interfaces[..|interfaces| - 1], segment)
  }

  /** It is the last one that the configuration lists for the segment. */
  lemma {:induction false} InterfaceOnIs(interfaces: seq<InterfaceConfig>, segment: int, i: nat)
    requires i < |interfaces| && interfaces[i].segment == segment
    requires forall j :: i < j < |interfaces| ==> interfaces[j].segment != segment
    ensures InterfaceOn(interfaces, segment) == Some(interfaces[i].name)
  {
    if i < |interfaces| - 1 {
      InterfaceOnIs(interfaces[..|interfaces| - 1], segment, i);
    }
  }

  function Lookup(m: map<int, string>, segment: int): string {
    if segment in m then m[segment] else ""
  }

  function Find(m: map<int, string>, segment: int): Option<string> {
    if segment in m then Some(m[segment]) else None
  }

  /** The other hosts, in the order of the configuration. */
  function Others(hosts: seq<HostConfig>, local: string): seq<HostConfig> {
    if hosts == [] then []
    else
      var h := hosts[|hosts| - 1];
      Others(hosts[..|hosts| - 1], local) + (if h.name == local then [] else [h])
  }

  lemma {:induction false} InOthers(hosts: seq<HostConfig>, local: string, h: HostConfig)
    ensures h in Others(hosts, local) <==> h in hosts && h.name != local
  {
    if hosts != [] {
      var front, last := hosts[..|hosts| - 1], hosts[|hosts| - 1];
      InOthers(front, local, h);
      assert h in hosts <==> h in front || h == last by {
        assert hosts == front + [last];
      }
    }
  }

  lemma DistinctFront(hosts: seq<HostConfig>, front: seq<HostConfig>, last: HostConfig)
    requires hosts == front + [last] && Distinct(Names(hosts))
    ensures Distinct(Names(front)) && forall h :: h in front ==> h.name != last.name
  {
    var names := Names(hosts);
    forall h | h in front ensures h.name != last.name {
      var i :| 0 <= i < |front| && front[i] == h;
      assert names[i] != names[|front|];
    }
    forall i, j | 0 <= i < j < |front| ensures Names(front)[i] != Names(front)[j] {
      assert names[i] != names[j];
    }
  }

  lemma DistinctSnoc(rows: seq<HostConfig>, h: HostConfig)
    requires Distinct(Names(rows)) && forall r :: r in rows ==> r.name != h.name
    ensures Distinct(Names(rows + [h]))
  {
    forall i, j | 0 <= i < j < |rows + [h]| ensures Names(rows + [h])[i] != Names(rows + [h])[j] {
      assert rows[i] in rows;
      assert j < |rows| ==> Names(rows)[i] != Names(rows)[j];
    }
  }

  lemma {:induction false} OthersDistinct(hosts: seq<HostConfig>, local: string)
    requires Distinct(Names(hosts))
    ensures Distinct(Names(Others(hosts, local)))
  {
    if hosts != [] {
      var front, last := hosts[..|hosts| - 1], hosts[|hosts| - 1];
      DistinctFront(hosts, front, last);
      OthersDistinct(front, local);
      var o := Others(front, local);
      if last.name == local {
        assert o + [] == o;
      } else {
        forall h | h in o ensures h.name != last.name {
          InOthers(front, local, h);
        }
        DistinctSnoc(o, last);
      }
    }
  }

  lemma OthersMeaning(hosts: seq<HostConfig>, local: string)
    requires Distinct(Names(hosts))
    ensures forall h :: h in Others(hosts, local) <==> h in hosts && h.name != local
    ensures Distinct(Names(Others(hosts, local)))
  {
    OthersDistinct(hosts, local);
    forall h ensures h in Others(hosts, local) <==> h in hosts && h.name != local {
      InOthers(hosts, local, h);
    }
  }

  /** The rows of the matrix: the local host first, then the others. */
  ghost function Arranged(cfg: Config, local: string): seq<HostConfig>
    requires local in Names(cfg.hosts)
  {
    [cfg.hosts[Index(Names(cfg.hosts), local)]] + Others(cfg.hosts, local)
  }

  lemma {:induction false} OthersSize(hosts: seq<HostConfig>, local: string)
    requires Distinct(Names(hosts))
    ensures |Others(hosts, local)| == |hosts| - if local in Names(hosts) then 1 else 0
  {
    if hosts != [] {
      var front, last := hosts[..|hosts| - 1], hosts[|hosts| - 1];
      DistinctFront(hosts, front, last);
      OthersSize(front, local);
      assert Names(hosts) == Names(front) + [last.name];
      assert last.name !in Names(front);
    }
  }

  lemma OthersStep(hosts: seq<HostConfig>, local: string, i: nat, first: seq<HostConfig>)
    requires i < |hosts|
    ensures var o := Others(hosts[..i], local);
      first + Others(hosts[..i + 1], local) == if hosts[i].name == local then first + o else (first + o) + [hosts[i]]
  {
    assert hosts[..i + 1][..i] == hosts[..i];
    var o := Others(hosts[..i], local);
    assert o + [] == o;
    assert first + (o + [hosts[i]]) == (first + o) + [hosts[i]];
  }

  lemma FreshName(cfg: Config, local: string, i: int)
    requires Distinct(Names(cfg.hosts)) && local in Names(cfg.hosts)
    requires 0 <= i < |cfg.hosts| && cfg.hosts[i].name != local
    ensures cfg.hosts[i].name !in Names([cfg.hosts[Index(Names(cfg.hosts), local)]] + Others(cfg.hosts[..i], local))
  {
    var self := Index(Names(cfg.hosts), local);
    var rows := [cfg.hosts[self]] + Others(cfg.hosts[..i], local);
    assert forall k :: 0 <= k < i ==> Names(cfg.hosts[..i])[k] == Names(cfg.hosts)[k];
    OthersMeaning(cfg.hosts[..i], local);
    forall r | 0 <= r < |rows| ensures Names(rows)[r] != cfg.hosts[i].name {
      if r > 0 {
        var h := Others(cfg.hosts[..i], local)[r - 1];
        assert h in Others(cfg.hosts[..i], local);
        var k :| 0 <= k < i && cfg.hosts[k] == h;
        assert Names(cfg.hosts)[k] != Names(cfg.hosts)[i];
      }
    }
  }

  /** Positions p < q of the list hold the two rows, and the pair comes before (j, k). */
  ghost predicate Paired(value: seq<int>, a: int, b: int, j: int, k: int) {
    exists p, q :: PairAt(value, a, b, j, k, p, q)
  }

  ghost predicate PairAt(value: seq<int>, a: int, b: int, j: int, k: int, p: int, q: int) {
    && 0 <= p < q < |value| && (p < j || (p == j && q < k))
    && ((value[p] == a && value[q] == b) || (value[p] == b && value[q] == a))
  }

  lemma PairedStep(value: seq<int>, a: int, b: int, j: int, k: int)
    requires 0 <= j < k < |value|
    ensures Paired(value, a, b, j, k + 1) <==>
      Paired(value, a, b, j, k) || (value[j] == a && value[k] == b) || (value[j] == b && value[k] == a)
  {
    if Paired(value, a, b, j, k) {
      var p, q :| PairAt(value, a, b, j, k, p, q);
      assert PairAt(value, a, b, j, k + 1, p, q);
    }
    if (value[j] == a && value[k] == b) || (value[j] == b && value[k] == a) {
      assert PairAt(value, a, b, j, k + 1, j, k);
    }
    if Paired(value, a, b, j, k + 1) {
      var p, q :| PairAt(value, a, b, j, k + 1, p, q);
      assert (p == j && q == k) || PairAt(value, a, b, j, k, p, q);
    }
  }

  lemma PairedRow(value: seq<int>, a: int, b: int, j: int)
    requires 0 <= j < |value|
    ensures Paired(value, a, b, j + 1, 0) <==> Paired(value, a, b, j, |value|)
    ensures Paired(value, a, b, j, 0) <==> Paired(value, a, b, j, j + 1)
  {
    if Paired(value, a, b, j, |value|) {
      var p, q :| PairAt(value, a, b, j, |value|, p, q);
      assert PairAt(value, a, b, j + 1, 0, p, q);
    }
    if Paired(value, a, b, j + 1, 0) {
      var p, q :| PairAt(value, a, b, j + 1, 0, p, q);
      assert PairAt(value, a, b, j, |value|, p, q);
    }
    if Paired(value, a, b, j, 0) {
      var p, q :| PairAt(value, a, b, j, 0, p, q);
      assert PairAt(value, a, b, j, j + 1, p, q);
    }
    if Paired(value, a, b, j, j + 1) {
      var p, q :| PairAt(value, a, b, j, j + 1, p, q);
      assert PairAt(value, a, b, j, 0, p, q);
    }
  }

  lemma PairedAll(value: seq<int>, a: int, b: int)
    requires a != b
    ensures Paired(value, a, b, |value|, 0) <==> a in value && b in value
  {
    if a in value && b in value {
      var p :| 0 <= p < |value| && value[p] == a;
      var q :| 0 <= q < |value| && value[q] == b;
      assert PairAt(value, a, b, |value|, 0, if p < q then p else q, if p < q then q else p);
    }
  }

  function WithLine(links: seq<seq<Line>>, i: int, j: int, line: Line): seq<seq<Line>>
    requires 0 <= i < |links| && 0 <= j < |links[i]|
  {
    links[i := links[i][j := line]]
  }

  ghost predicate Common(rows: seq<HostConfig>, a: int, b: int) {
    exists s :: RowOnSegment(rows, a, s) && RowOnSegment(rows, b, s)
  }

  /** The segment recorded for two rows is one they share, and -1 when they share none. */
  ghost predicate Carried(rows: seq<HostConfig>, a: int, b: int, segment: int) {
    if Common(rows, a, b) then RowOnSegment(rows, a, segment) && RowOnSegment(rows, b, segment) else segment == -1
  }

  ghost predicate Wired(rows: seq<HostConfig>, a: int, b: int, line: Line) {
    Carried(rows, a, b, line.segment) && line.weight == line.initWeight == if Common(rows, a, b) then 1 else 0
  }

  ghost predicate WiredBy(rows: seq<HostConfig>, done: set<int>, a: int, b: int, line: Line) {
    if exists s :: s in done && RowOnSegment(rows, a, s) && RowOnSegment(rows, b, s)
    then RowOnSegment(rows, a, line.segment) &&
         RowOnSegment(rows, b, line.segment) && line.weight == line.initWeight == 1
    else line == Line(-1, 0, 0)
  }

  lemma WiredByStep(rows: seq<HostConfig>, done: set<int>, segment: int, a: int, b: int, line: Line)
    requires WiredBy(rows, done, a, b, line)
    ensures RowOnSegment(rows, a, segment) && RowOnSegment(rows, b, segment) ==>
      WiredBy(rows, done + {segment}, a, b, Line(segment, 1, 1))
    ensures !(RowOnSegment(rows, a, segment) && RowOnSegment(rows, b, segment)) ==>
      WiredBy(rows, done + {segment}, a, b, line)
  {
    if s :| s in done && RowOnSegment(rows, a, s) && RowOnSegment(rows, b, s) {
      assert s in done + {segment};
    }
    assert segment in done + {segment};
  }

  ghost function Overridden(cfg: Config, local: string, overrides: seq<Override>, a: string, b: string,
          line: Line): Line {
    match LastOverride(cfg, local, overrides, a, b)
    case Some(w) => line.(weight := w, initWeight := w)
    case None => line
  }

  lemma OverriddenStep(cfg: Config, local: string, i: int, m: Mesh, src: int, dest: int, a: int, b: int, line: Line)
    requires 0 <= i < |cfg.overrides| && WellFormed(m)
    requires 0 <= a < |m.names| && 0 <= b < |m.names| && 0 <= src < |m.names| && 0 <= dest < |m.names|
    requires m.names[src] == Resolve(cfg, local, cfg.overrides[i].src)
    requires m.names[dest] == Resolve(cfg, local, cfg.overrides[i].dest)
    ensures var w := cfg.overrides[i].weight;
      Overridden(cfg, local, cfg.overrides[..i + 1], m.names[a], m.names[b], line) ==
      if (a == src && b == dest) || (a == dest && b == src) then line.(weight := w, initWeight := w)
      else Overridden(cfg, local, cfg.overrides[..i], m.names[a], m.names[b], line)
  {
    assert cfg.overrides[..i + 1][..i] == cfg.overrides[..i];
    assert (m.names[a] == m.names[src] <==> a == src) && (m.names[a] == m.names[dest] <==> a == dest);
    assert (m.names[b] == m.names[src] <==> b == src) && (m.names[b] == m.names[dest] <==> b == dest);
  }

  lemma ArrangedMeaning(cfg: Config, local: string)
    requires Distinct(Names(cfg.hosts)) && local in Names(cfg.hosts)
    ensures forall h :: h in Arranged(cfg, local) <==> h in cfg.hosts
    ensures forall name :: name in Names(Arranged(cfg, local)) <==> name in Names(cfg.hosts)
    ensures Distinct(Names(Arranged(cfg, local))) && Names(Arranged(cfg, local))[0] == local
  {
    OthersMeaning(cfg.hosts, local);
    var rows, self := Arranged(cfg, local), Index(Names(cfg.hosts), local);
    forall h | h in cfg.hosts ensures h in rows {
      var i :| 0 <= i < |cfg.hosts| && cfg.hosts[i] == h;
      assert h.name == local ==> Names(cfg.hosts)[i] == Names(cfg.hosts)[self];
      assert h.name == local ==> i == self && rows[0] == h;
    }
    forall h | h in rows ensures h in cfg.hosts {
    }
    NamesIn(rows, cfg.hosts);
    NamesIn(cfg.hosts, rows);
    forall i | 0 < i < |rows| ensures Names(rows)[i] != local {
      assert rows[i] in Others(cfg.hosts, local);
    }
    forall i, j | 0 < i < j < |rows| ensures Names(rows)[i] != Names(rows)[j] {
      assert Names(Others(cfg.hosts, local))[i - 1] != Names(Others(cfg.hosts, local))[j - 1];
    }
  }

  lemma NamesIn(a: seq<HostConfig>, b: seq<HostConfig>)
    requires forall h :: h in a ==> h in b
    ensures forall name :: name in Names(a) ==> name in Names(b)
  {
    forall name | name in Names(a) ensures name in Names(b) {
      var i :| 0 <= i < |a| && a[i].name == name;
      assert a[i] in b;
      var j :| 0 <= j < |b| && b[j] == a[i];
      assert Names(b)[j] == name;
    }
  }

  /** Every cell off the diagonal is what the first `i` overrides make of `before`. */
  ghost predicate OverriddenTo(cfg: Config, local: string, i: int, m: Mesh, before: seq<seq<Line>>)
    requires WellFormed(m) && WellFormed(Mesh(m.names, before)) && 0 <= i <= |cfg.overrides|
  {
    forall a, b :: 0 <= a < |m.links| && 0 <= b < |m.links| && a != b ==>
      m.links[a][b] == Overridden(cfg, local, cfg.overrides[..i], m.names[a], m.names[b], before[a][b])
  }

  lemma RowIsHost(cfg: Config, local: string, a: int) returns (i: int)
    requires Distinct(Names(cfg.hosts)) && local in Names(cfg.hosts)
    requires 0 <= a < |Arranged(cfg, local)|
    ensures 0 <= i < |cfg.hosts| && cfg.hosts[i] == Arranged(cfg, local)[a]
    ensures forall x :: 0 <= x < |cfg.hosts| && cfg.hosts[x].name == Arranged(cfg, local)[a].name ==> x == i
  {
    ArrangedMeaning(cfg, local);
    assert Arranged(cfg, local)[a] in cfg.hosts;
    i :| 0 <= i < |cfg.hosts| && cfg.hosts[i] == Arranged(cfg, local)[a];
    forall x | 0 <= x < |cfg.hosts| && cfg.hosts[x].name == Arranged(cfg, local)[a].name ensures x == i {
      assert Names(cfg.hosts)[x] == Names(cfg.hosts)[i];
    }
  }

  lemma CommonSegment(cfg: Config, local: string, a: int, b: int)
    requires Distinct(Names(cfg.hosts)) && local in Names(cfg.hosts)
    requires 0 <= a < |Arranged(cfg, local)| && 0 <= b < |Arranged(cfg, local)|
    ensures var rows := Arranged(cfg, local);
      Common(rows, a, b) <==> ShareSegment(cfg, rows[a].name, rows[b].name)
  {
    var rows := Arranged(cfg, local);
    var i := RowIsHost(cfg, local, a);
    var j := RowIsHost(cfg, local, b);
    CommonRows(cfg, rows, a, b, i, j);
  }

  lemma CommonRows(cfg: Config, rows: seq<HostConfig>, a: int, b: int, i: int, j: int)
    requires 0 <= a < |rows| && 0 <= b < |rows| && 0 <= i < |cfg.hosts| && 0 <= j < |cfg.hosts|
    requires cfg.hosts[i] == rows[a] && forall x :: 0 <= x < |cfg.hosts| && cfg.hosts[x].name == rows[a].name ==> x == i
    requires cfg.hosts[j] == rows[b] && forall x :: 0 <= x < |cfg.hosts| && cfg.hosts[x].name == rows[b].name ==> x == j
    ensures Common(rows, a, b) <==> ShareSegment(cfg, rows[a].name, rows[b].name)
  {
    if s :| RowOnSegment(rows, a, s) && RowOnSegment(rows, b, s) {
      var k :| 0 <= k < |rows[a].interfaces| && rows[a].interfaces[k].segment == s;
      assert OnSegment(cfg.hosts[j], cfg.hosts[i].interfaces[k].segment);
    }
    if ShareSegment(cfg, rows[a].name, rows[b].name) {
      var x, y, k :| 0 <= x < |cfg.hosts| && 0 <= y < |cfg.hosts| && 0 <= k < |cfg.hosts[x].interfaces| &&
        cfg.hosts[x].name == rows[a].name && cfg.hosts[y].name == rows[b].name &&
        OnSegment(cfg.hosts[y], cfg.hosts[x].interfaces[k].segment);
      var s := rows[a].interfaces[k].segment;
      assert RowOnSegment(rows, a, s) && RowOnSegment(rows, b, s);
    }
  }

  lemma InitCell(cfg: Config, local: string, m: Mesh, a: int, b: int, linked: Line)
    requires Distinct(Names(cfg.hosts)) && local in Names(cfg.hosts)
    requires WellFormed(m) && m.names == Names(Arranged(cfg, local))
    requires 0 <= a < |m.names| && 0 <= b < |m.names| && a != b
    requires Wired(Arranged(cfg, local), a, b, linked)
    requires m.links[a][b] == Overridden(cfg, local, cfg.overrides, m.names[a], m.names[b], linked)
    ensures Configured(cfg, local, m, a, b)
    ensures Carried(Arranged(cfg, local), a, b, m.links[a][b].segment)
  {
    CommonSegment(cfg, local, a, b);
  }

  ghost predicate Configured(cfg: Config, local: string, m: Mesh, a: int, b: int)
    requires WellFormed(m) && 0 <= a < |m.names| && 0 <= b < |m.names|
  {
    a != b ==> m.links[a][b].weight == m.links[a][b].initWeight == InitialWeight(cfg, local, m.names[a], m.names[b])
  }

  lemma ConfigMatches(cfg: Config, local: string, m: Mesh)
    requires WellFormed(m) && (forall name :: name in m.names <==> name in Names(cfg.hosts))
    requires forall a, b :: 0 <= a < |m.names| && 0 <= b < |m.names| ==> Configured(cfg, local, m, a, b)
    ensures WeightsOf(m) == ConfigWeights(cfg, local) == InitialWeights(m)
  {
    var v, w := WeightsOf(m), ConfigWeights(cfg, local);
    forall k ensures k in v <==> k in w {
    }
    forall k | k in v ensures v[k] == w[k] {
      var i, j := Index(m.names, k.0), Index(m.names, k.1);
      assert Configured(cfg, local, m, i, j);
      CellWeight(m, i, j);
      assert k == (m.names[i], m.names[j]);
    }
    assert v.Keys == w.Keys;
    SameMap(v, w);
    forall a, b | 0 <= a < |m.links| && 0 <= b < |m.links| && a != b ensures
      m.links[a][b].weight == m.links[a][b].initWeight {
      assert Configured(cfg, local, m, a, b);
    }
    InitialIsCurrent(m);
  }

  lemma Assembled(cfg: Config, local: string, m: Mesh, linked: seq<seq<Line>>)
    requires Distinct(Names(cfg.hosts)) && local in Names(cfg.hosts)
    requires WellFormed(m) && WellFormed(Mesh(m.names, linked)) && m.names == Names(Arranged(cfg, local))
    requires forall a, b :: 0 <= a < |linked| && 0 <= b < |linked| && a != b ==>
      Wired(Arranged(cfg, local), a, b, linked[a][b])
    requires OverriddenTo(cfg, local, |cfg.overrides|, m, linked)
    ensures WeightsOf(m) == ConfigWeights(cfg, local) == InitialWeights(m)
    ensures forall a, b :: 0 <= a < |m.links| && 0 <= b < |m.links| && a != b ==>
      Carried(Arranged(cfg, local), a, b, m.links[a][b].segment)
  {
    assert cfg.overrides[..|cfg.overrides|] == cfg.overrides;
    ArrangedMeaning(cfg, local);
    forall a, b | 0 <= a < |m.links| && 0 <= b < |m.links|
      ensures Configured(cfg, local, m, a, b)
      ensures a != b ==> Carried(Arranged(cfg, local), a, b, m.links[a][b].segment)
    {
      if a != b {
        InitCell(cfg, local, m, a, b, linked[a][b]);
      }
    }
    ConfigMatches(cfg, local, m);
  }

  /** The interface names of each row, and a shared segment wherever two rows have one. */
  ghost predicate Interfaced(segment2interface: seq<map<int, string>>, m: Mesh, rows: seq<HostConfig>)
    requires WellFormed(m) && |rows| == |m.names|
  {
    && |segment2interface| == |rows|
    && (forall i, s :: 0 <= i < |rows| ==> Find(segment2interface[i], s) == InterfaceOn(rows[i].interfaces, s))
    && (forall a, b :: 0 <= a < |rows| && 0 <= b < |rows| && a != b ==> Carried(rows, a, b, m.links[a][b].segment))
  }

  lemma InterfacedKept(segment2interface: seq<map<int, string>>, m: Mesh, m': Mesh, rows: seq<HostConfig>)
    requires WellFormed(m) && WellFormed(m') && Initial(m) == Initial(m') && |rows| == |m.names|
    requires Interfaced(segment2interface, m, rows)
    ensures |rows| == |m'.names| && Interfaced(segment2interface, m', rows)
  {
    assert m.names == Initial(m).names == m'.names;
    forall a, b | 0 <= a < |rows| && 0 <= b < |rows| && a != b ensures Carried(rows, a, b, m'.links[a][b].segment) {
      SameInitialWeight(m, m', a, b);
    }
  }

  lemma InitialIsCurrent(m: Mesh)
    requires WellFormed(m)
    requires forall a, b :: 0 <= a < |m.links| && 0 <= b < |m.links| && a != b ==>
      m.links[a][b].weight == m.links[a][b].initWeight
    ensures InitialWeights(m) == WeightsOf(m)
  {
    var v, x := WeightsOf(m), InitialWeights(m);
    forall k | k in v ensures k in x && v[k] == x[k] {
      var i, j := Index(m.names, k.0), Index(m.names, k.1);
      CellWeight(m, i, j);
      InitialCell(m, i, j);
    }
    SameMap(v, x);
  }

  function Unlinked(n: nat): (r: seq<seq<Line>>)
    ensures |r| == n && forall i :: 0 <= i < n ==> |r[i]| == n && forall j :: 0 <= j < n ==> r[i][j] == Line(-1, 0, 0)
  {
    seq(n, _ => seq(n, _ => Line(-1, 0, 0)))
  }

  lemma Inhabited(s: set<int>)
    ensures s == {} || exists x :: x in s
  {
    if !exists x :: x in s {
      assert s == {};
    }
  }

  method AnyOf(s: set<int>) returns (x: int)
    requires s != {}
    ensures x in s
  {
    Inhabited(s);
    x :| x in s;
  }

  /** The interfaces that carry the first hop from row 0 to row `h`. */
  function ExitTo(m: Mesh, segment2interface: seq<map<int, string>>, h: int): (string, string)
    requires |m.links| == |segment2interface| && 0 < |m.links| && 0 <= h < |m.links| && h < |m.links[0]|
  {
    var segment := m.links[0][h].segment;
    (Lookup(segment2interface[0], segment), Lookup(segment2interface[h], segment))
  }

  /** The entry for row `i` leaves over the first hop of a least-weight path to `target`. */
  ghost predicate RoutesTo(m: Mesh, segment2interface: seq<map<int, string>>, route: map<string, (string, string)>,
          i: int, target: int)
    requires WellFormed(m) && |segment2interface| == |m.names| && 0 <= i < |m.names| && 0 <= target < |m.names|
  {
    m.names[i] in route &&
    exists h :: 0 < h < |m.names| && FirstHopTo(WeightsOf(m), m.names[0], m.names[h], m.names[target]) &&
                route[m.names[i]] == ExitTo(m, segment2interface, h)
  }

  /** There is an entry for row `i` just when it can be reached below INT_MAX, over a least-weight path. */
  ghost predicate RoutesOrNot(m: Mesh, segment2interface: seq<map<int, string>>,
          route: map<string, (string, string)>, i: int)
    requires WellFormed(m) && |segment2interface| == |m.names| && 0 <= i < |m.names|
  {
    if D(m, i) < INT_MAX then RoutesTo(m, segment2interface, route, i, i) else m.names[i] !in route
  }

  ghost predicate RoutesAll(m: Mesh, segment2interface: seq<map<int, string>>, route: map<string, (string, string)>)
    requires WellFormed(m) && |segment2interface| == |m.names|
  {
    forall i :: 0 < i < |m.names| ==> RoutesOrNot(m, segment2interface, route, i)
  }

  /** Some host is routed through a link whose relaxation overflowed, along the way to the near end of it. */
  ghost predicate Misroutes(m: Mesh, segment2interface: seq<map<int, string>>, route: map<string, (string, string)>)
    requires WellFormed(m) && |segment2interface| == |m.names|
  {
    exists u, v :: 0 <= u < |m.names| && 0 < v < |m.names| &&
      Overflows(m, u, v) && RoutesTo(m, segment2interface, route, v, u)
  }

  /** Which entry that is. */
  lemma MisroutedHop(m: Mesh, s2i: seq<map<int, string>>, r: map<string, (string, string)>)
    returns (u: int, v: int, h: int)
    requires WellFormed(m) && |s2i| == |m.names| && Misroutes(m, s2i, r)
    ensures 0 <= u < |m.names| && 0 < v < |m.names| && Overflows(m, u, v)
    ensures 0 < h < |m.names| && m.names[v] in r && r[m.names[v]] == ExitTo(m, s2i, h)
    ensures FirstHopTo(WeightsOf(m), m.names[0], m.names[h], m.names[u]) && Link(m, 0, h) > 0
  {
    u, v :| 0 <= u < |m.names| && 0 < v < |m.names| && Overflows(m, u, v) && RoutesTo(m, s2i, r, v, u);
    h :| 0 < h < |m.names| && FirstHopTo(WeightsOf(m), m.names[0], m.names[h], m.names[u]) &&
         r[m.names[v]] == ExitTo(m, s2i, h);
    WeightAt(m, 0, h);
  }

  /** What getRoute can return for a matrix, for any way to break ties. */
  ghost predicate IsRoute(m: Mesh, segment2interface: seq<map<int, string>>, route: map<string, (string, string)>)
    requires WellFormed(m) && |segment2interface| == |m.names|
  {
    && (Safe(m) ==> RoutesAll(m, segment2interface, route))
    && (!Safe(m) ==> Misroutes(m, segment2interface, route))
  }

  class HostMap {
    var key2node: seq<string>
    var node2key: map<string, int>
    var segment2node: map<int, seq<int>>
    var links: seq<seq<Line>>
    var segment2interface: seq<map<int, string>>

    ghost function View(): Mesh
      reads this
    {
      Mesh(key2node, links)
    }

    ghost predicate KeysMatch()
      reads this
    {
      && Distinct(key2node)
      && (forall i :: 0 <= i < |key2node| ==> key2node[i] in node2key && node2key[key2node[i]] == i)
      && (forall name :: name in node2key && name !in key2node ==> node2key[name] == 0)
    }

    ghost predicate Valid()
      reads this
    {
      WellFormed(View()) && KeysMatch() && |segment2interface| == |key2node|
    }

    constructor ()
      ensures key2node == [] && node2key == map[] && segment2node == map[] && links == [] && segment2interface == []
    {
      key2node, node2key, segment2node, links, segment2interface := [], map[], map[], [], [];
    }

    /** The scan for the nearest open row. */
    method PickNearest(t: Search) returns (minIndex: int)
      requires |t.visited| == |t.distance|
      ensures minIndex == -1 ==> Exhausted(t)
      ensures minIndex != -1 ==> Nearest(t, minIndex)
    {
      var minDistance := INT_MAX;
      minIndex := -1;
      for i := 0 to |t.visited|
        invariant minIndex == -1 ==> minDistance == INT_MAX
        invariant minIndex != -1 ==>
          0 <= minIndex < i && !t.visited[minIndex] && t.distance[minIndex] == minDistance < INT_MAX
        invariant forall v :: 0 <= v < i ==>
                    (t.visited[v] || minDistance < t.distance[v] || (minDistance == t.distance[v] && minIndex <= v))
      {
        if !t.visited[i] && t.distance[i] < minDistance {
          minDistance := t.distance[i];
          minIndex := i;
        }
      }
    }

    /** The inner loop: mark `u` and relax the links that leave it. */
    method Settle(t: Search, u: int) returns (t': Search)
      requires WellFormed(View()) && Shape(View(), t) && 0 <= u < |key2node| && !t.visited[u]
      ensures Settles(View(), t, u, t')
    {
      var visited := t.visited[u := true];
      var distance: seq<int32> := t.distance;
      var parent := t.parent;
      ghost var m := View();
      for i := 0 to |links|
        invariant |visited| == |distance| == |parent| == |links|
        invariant visited == t.visited[u := true]
        invariant distance[u] == t.distance[u]
        invariant forall j :: 0 <= j < i ==>
          distance[j] == NewDistance(m, t, u, j) && parent[j] == NewParent(m, t, u, j)
        invariant forall j :: i <= j < |links| ==> distance[j] == t.distance[j] && parent[j] == t.parent[j]
      {
        if !visited[i] && links[u][i].weight > 0 && Wrap32(distance[u] + links[u][i].weight) < distance[i] {
          distance := distance[i := Wrap32(distance[u] + links[u][i].weight)];
          parent := parent[i := u];
        }
      }
      t' := Search(visited, distance, parent);
    }

    /** The search of getRoute; `trace` is only spoken about. */
    method Search32() returns (t: Search, ghost trace: Trace)
      requires Valid()
      ensures Shape(View(), t) && Exhausted(t) && Traced(View(), t, trace)
    {
      ghost var m := View();
      t := Start(|links|);
      trace := Trace(seq(|links|, _ => 0), 0, {}, Clean);
      RunStart(m, trace.rank);
      while true
        invariant Shape(m, t) && Traced(m, t, trace)
        decreases Open(t)
      {
        var minIndex := PickNearest(t);
        if minIndex == -1 {
          break;
        }
        var t' := Settle(t, minIndex);
        TracedStep(m, t, trace, minIndex, t');
        SettleCloses(m, t, minIndex, t');
        trace := Extend(m, t, trace, minIndex);
        t := t';
      }
    }

    /** The walk from row `i` up to row 0, which records the route when it arrives. */
    method WalkBack(t: Search, ghost trace: Trace, i: int, route: map<string, (string, string)>)
      returns (route': map<string, (string, string)>)
      requires Valid() && Rooted(View(), t, trace.rank, trace.count) && 0 < i < |links| && t.visited[i]
      ensures route' == route[key2node[i] := ExitTo(View(), segment2interface, FirstHop(View(), t, trace, i))]
    {
      ghost var m := View();
      route' := route;
      assert RootedAt(m, t, trace.rank, trace.count, i);
      var par, cur := t.parent[i], i;
      while par != -1
        invariant 0 <= cur < |links| && t.visited[cur] && par == t.parent[cur] && -1 <= par < |links|
        invariant par == -1 <==> cur == 0
        invariant cur != 0 ==> FirstHop(m, t, trace, cur) == FirstHop(m, t, trace, i) && route' == route
        invariant cur == 0 ==>
          route' == route[key2node[i] := ExitTo(View(), segment2interface, FirstHop(m, t, trace, i))]
        decreases if cur == 0 then 0 else trace.rank[cur] + 1
      {
        assert RootedAt(m, t, trace.rank, trace.count, cur) && RootedAt(m, t, trace.rank, trace.count, par);
        if par == 0 {
          var segment := links[par][cur].segment;
          route' := route'[key2node[i] :=
            (Lookup(segment2interface[par], segment), Lookup(segment2interface[cur], segment))];
        }
        cur := par;
        par := t.parent[par];
      }
    }

    ghost predicate Recorded(t: Search, trace: Trace, route: map<string, (string, string)>, upto: int)
      requires Valid() && Rooted(View(), t, trace.rank, trace.count) && upto <= |links|
      reads this
    {
      && (forall j :: 0 < j < upto ==> RecordedAt(t, trace, route, j))
      && route.Keys <= set j | 0 < j < upto :: key2node[j]
    }

    ghost predicate RecordedAt(t: Search, trace: Trace, route: map<string, (string, string)>, j: int)
      requires Valid() && Rooted(View(), t, trace.rank, trace.count) && 0 < j < |links|
      reads this
    {
      && (t.visited[j] <==> key2node[j] in route)
      && (t.visited[j] ==> route[key2node[j]] == ExitTo(View(), segment2interface, FirstHop(View(), t, trace, j)))
    }

    lemma RecordStep(t: Search, trace: Trace, route: map<string, (string, string)>, i: int,
            route': map<string, (string, string)>)
      requires Valid() && Rooted(View(), t, trace.rank, trace.count) && 0 < i < |links|
      requires Recorded(t, trace, route, i)
      requires route' == if t.visited[i] then
        route[key2node[i] := ExitTo(View(), segment2interface, FirstHop(View(), t, trace, i))] else route
      ensures Recorded(t, trace, route', i + 1)
    {
      var upto := i + 1;
      assert key2node[i] !in route;
      forall j | 0 < j < upto ensures RecordedAt(t, trace, route', j) {
        if j < i {
          assert RecordedAt(t, trace, route, j) && key2node[j] != key2node[i];
        }
      }
    }

    lemma CleanRoutes(t: Search, trace: Trace, route: map<string, (string, string)>, i: int)
      requires Valid() && Traced(View(), t, trace) && trace.stage.Clean? && Recorded(t, trace, route, |links|)
      requires Correct(View(), t) && 0 < i < |key2node|
      ensures RoutesOrNot(View(), segment2interface, route, i)
    {
      assert RecordedAt(t, trace, route, i);
      if t.visited[i] {
        FirstHopIsLeast(View(), t, trace, i);
      }
    }

    lemma LostRoute(t: Search, trace: Trace, route: map<string, (string, string)>)
      requires Valid() && Traced(View(), t, trace) && trace.stage.Lost? && Recorded(t, trace, route, |links|)
      ensures Misroutes(View(), segment2interface, route)
    {
      var u, v := trace.stage.culprit, trace.stage.victim;
      CapturedHop(View(), t, trace, u, v);
      assert RecordedAt(t, trace, route, v);
      assert RoutesTo(View(), segment2interface, route, v, u);
    }

    /** The loop of getRoute over the rows that were visited. */
    method RecordRoutes(t: Search, ghost trace: Trace) returns (route: map<string, (string, string)>)
      requires Valid() && Rooted(View(), t, trace.rank, trace.count)
      ensures Recorded(t, trace, route, |links|)
    {
      route := map[];
      for i := 1 to |links|
        invariant Recorded(t, trace, route, i)
      {
        ghost var before := route;
        if t.visited[i] {
          route := WalkBack(t, trace, i, route);
        }
        RecordStep(t, trace, before, i, route);
      }
    }

    /** When no addition overflows there is an entry for exactly the other hosts that can be reached
        below INT_MAX, and it leaves over a least-weight path. Otherwise some host is routed through
        a link whose relaxation overflowed. */
    method GetRoute() returns (route: map<string, (string, string)>)
      requires Valid()
      ensures route.Keys <= set i | 0 < i < |key2node| :: key2node[i]
      ensures IsRoute(View(), segment2interface, route)
    {
      var t, trace := Search32();
      RunEnd(View(), t, trace.rank, trace.count, trace.good, trace.stage);
      route := RecordRoutes(t, trace);
      if trace.stage.Lost? {
        LostRoute(t, trace, route);
      } else {
        forall i | 0 < i < |key2node| ensures RoutesOrNot(View(), segment2interface, route, i) {
          CleanRoutes(t, trace, route, i);
        }
      }
    }

    /** The name whose row a lookup of `name` in node2key reaches. */
    ghost function At(name: string): string
      requires Valid()
      reads this
    {
      if name in key2node then name else key2node[0]
    }

    /** node2key[name], which inserts row 0 for a name it does not hold. */
    method RowOf(name: string) returns (row: int)
      requires 0 < |key2node| && KeysMatch()
      modifies `node2key
      ensures KeysMatch() && 0 <= row < |key2node|
      ensures key2node[row] == if name in key2node then name else key2node[0]
    {
      if name !in node2key {
        node2key := node2key[name := 0];
      }
      row := node2key[name];
    }

    /** Fail a link: both cells get the largest weight that still counts as a link. */
    method SetMaxWeight(host1: string, host2: string)
      requires Valid()
      modifies `node2key, `links
      ensures Valid()
      ensures WeightsOf(View()) == SetBoth(old(WeightsOf(View())), old(At(host1)), old(At(host2)), INT_MAX - 1)
      ensures Initial(View()) == old(Initial(View()))
    {
      var src := RowOf(host1);
      var dest := RowOf(host2);
      FailCells(src, dest);
    }

    method FailCells(src: int, dest: int)
      requires WellFormed(View()) && 0 <= src < |links| && 0 <= dest < |links|
      modifies `links
      ensures WellFormed(View()) && |links| == old(|links|)
      ensures Initial(View()) == old(Initial(View()))
      ensures WeightsOf(View()) == SetBoth(old(WeightsOf(View())), key2node[src], key2node[dest], INT_MAX - 1)
    {
      SetCell(src, dest, INT_MAX - 1);
      SetCell(dest, src, INT_MAX - 1);
    }

    /** Restore a link: both cells get their configured weight. */
    method SetInitWeight(host1: string, host2: string)
      requires Valid()
      modifies `node2key, `links
      ensures Valid()
      ensures WeightsOf(View()) == RestoreBoth(old(WeightsOf(View())), old(InitialWeights(View())),
        old(At(host1)), old(At(host2)))
      ensures Initial(View()) == old(Initial(View()))
    {
      var src := RowOf(host1);
      var dest := RowOf(host2);
      RestoreCells(src, dest);
    }

    method RestoreCells(src: int, dest: int)
      requires WellFormed(View()) && 0 <= src < |links| && 0 <= dest < |links|
      modifies `links
      ensures WellFormed(View()) && |links| == old(|links|)
      ensures Initial(View()) == old(Initial(View()))
      ensures WeightsOf(View()) == RestoreBoth(old(WeightsOf(View())), old(InitialWeights(View())),
        key2node[src], key2node[dest])
    {
      ghost var before := View();
      if src != dest {
        InitialCell(before, src, dest);
        InitialCell(before, dest, src);
      }
      SetCell(src, dest, links[src][dest].initWeight);
      SameInitialWeight(before, View(), dest, src);
      SetCell(dest, src, links[dest][src].initWeight);
    }

    method SetCell(i: int, j: int, weight: int32)
      requires WellFormed(View()) && 0 <= i < |links| && 0 <= j < |links|
      modifies `links
      ensures WellFormed(View()) && |links| == old(|links|)
      ensures Initial(View()) == old(Initial(View()))
      ensures WeightsOf(View()) == if i == j then old(WeightsOf(View()))
                                   else old(WeightsOf(View()))[(key2node[i], key2node[j]) := weight]
    {
      CellUpdated(View(), i, j, weight, Mesh(key2node, WithWeight(links, i, j, weight)));
      links := WithWeight(links, i, j, weight);
    }

    /** What init has recorded once the first `|rows|` hosts are numbered. */
    ghost predicate Numbered(rows: seq<HostConfig>)
      reads this
    {
      && key2node == Names(rows)
      && KeysMatch() && (forall name :: name in node2key ==> name in key2node)
      && |segment2interface| == |rows|
      && (forall i, s :: 0 <= i < |rows| ==> Find(segment2interface[i], s) == InterfaceOn(rows[i].interfaces, s))
      && (forall s, i :: Member(segment2node, s, i) <==> RowOnSegment(rows, i, s))
    }

    /** Number one host and index its interfaces by segment. */
    method AddHost(host: HostConfig, ghost rows: seq<HostConfig>)
      requires Numbered(rows) && host.name !in key2node
      modifies this
      ensures Numbered(rows + [host]) && links == old(links)
    {
      var i := |key2node|;
      assert Names(rows + [host]) == key2node + [host.name];
      var s2i := IndexInterfaces(host, i, rows);
      forall s, j ensures
        RowOnSegment(rows + [host], j, s) <==> RowOnSegment(rows, j, s) || (j == i && OnSegment(host, s)) {
      }
      key2node := key2node + [host.name];
      node2key := node2key[host.name := i];
      segment2interface := segment2interface + [s2i];
    }

    method IndexInterfaces(host: HostConfig, i: int, ghost rows: seq<HostConfig>) returns (s2i: map<int, string>)
      requires forall s, j :: Member(segment2node, s, j) <==> RowOnSegment(rows, j, s)
      modifies `segment2node
      ensures forall s :: Find(s2i, s) == InterfaceOn(host.interfaces, s)
      ensures forall s, j :: Member(segment2node, s, j) <==> RowOnSegment(rows, j, s) || (j == i && OnSegment(host, s))
    {
      ghost var none := host.(interfaces := host.interfaces[..0]);
      assert forall s :: !OnSegment(none, s);
      s2i := map[];
      for k := 0 to |host.interfaces|
        invariant forall s :: Find(s2i, s) == InterfaceOn(host.interfaces[..k], s)
        invariant forall s, j :: Member(segment2node, s, j) <==>
                    RowOnSegment(rows, j, s) || (j == i && OnSegment(host.(interfaces := host.interfaces[..k]), s))
      {
        var segment := host.interfaces[k].segment;
        s2i := s2i[segment := host.interfaces[k].name];
        segment2node := segment2node[segment := (if segment in segment2node then segment2node[segment] else []) + [i]];
        ghost var before, after := host.(interfaces := host.interfaces[..k]),
          host.(interfaces := host.interfaces[..k + 1]);
        assert after.interfaces[..k] == before.interfaces && after.interfaces[k].segment == segment;
        forall s ensures OnSegment(after, s) <==> OnSegment(before, s) || s == segment {
          OnSegmentSnoc(before, host.interfaces[k], s, after);
        }
      }
      assert host.interfaces[..|host.interfaces|] == host.interfaces;
    }

    /** The first two loops of init: the local host becomes row 0, the others follow. */
    method NumberHosts(cfg: Config, local: string)
      requires Numbered([]) && Distinct(Names(cfg.hosts)) && local in Names(cfg.hosts)
      modifies this
      ensures Numbered(Arranged(cfg, local)) && links == old(links)
    {
      NumberLocal(cfg, local);
      NumberOthers(cfg, local);
    }

    method NumberLocal(cfg: Config, local: string)
      requires Numbered([]) && Distinct(Names(cfg.hosts)) && local in Names(cfg.hosts)
      modifies this
      ensures Numbered([cfg.hosts[Index(Names(cfg.hosts), local)]]) && links == old(links)
    {
      ghost var self := Index(Names(cfg.hosts), local);
      var k := 0;
      while cfg.hosts[k].name != local
        invariant 0 <= k <= self
        decreases self - k
      {
        assert Names(cfg.hosts)[k] != local;
        k := k + 1;
      }
      assert Names(cfg.hosts)[k] == local == Names(cfg.hosts)[self] && k == self;
      assert [] + [cfg.hosts[k]] == [cfg.hosts[self]];
      AddHost(cfg.hosts[k], []);
    }

    method NumberOthers(cfg: Config, local: string)
      requires Distinct(Names(cfg.hosts)) && local in Names(cfg.hosts)
      requires Numbered([cfg.hosts[Index(Names(cfg.hosts), local)]])
      modifies this
      ensures Numbered(Arranged(cfg, local)) && links == old(links)
    {
      ghost var first := [cfg.hosts[Index(Names(cfg.hosts), local)]];
      assert first + Others(cfg.hosts[..0], local) == first;
      for i := 0 to |cfg.hosts|
        invariant Numbered(first + Others(cfg.hosts[..i], local)) && links == old(links)
      {
        OthersStep(cfg.hosts, local, i, first);
        if cfg.hosts[i].name != local {
          FreshName(cfg, local, i);
          AddHost(cfg.hosts[i], first + Others(cfg.hosts[..i], local));
        }
      }
      assert cfg.hosts[..|cfg.hosts|] == cfg.hosts;
    }

    /** The pairs of one segment, in either order of the two positions. */
    method LinkSegment(segment: int, value: seq<int>)
      requires WellFormed(View()) && forall p :: 0 <= p < |value| ==> 0 <= value[p] < |links|
      modifies `links
      ensures WellFormed(View()) && |links| == old(|links|)
      ensures forall a, b :: 0 <= a < |links| && 0 <= b < |links| && a != b ==>
        links[a][b] == if a in value && b in value then Line(segment, 1, 1) else old(links)[a][b]
    {
      ghost var before := links;
      for j := 0 to |value|
        invariant WellFormed(View()) && |links| == |before|
        invariant forall a, b :: 0 <= a < |links| && 0 <= b < |links| && a != b ==>
                    links[a][b] == if Paired(value, a, b, j, 0) then Line(segment, 1, 1) else before[a][b]
      {
        forall a, b ensures Paired(value, a, b, j, 0) <==> Paired(value, a, b, j, j + 1) {
          PairedRow(value, a, b, j);
        }
        for k := j + 1 to |value|
          invariant WellFormed(View()) && |links| == |before|
          invariant forall a, b :: 0 <= a < |links| && 0 <= b < |links| && a != b ==>
                      links[a][b] == if Paired(value, a, b, j, k) then Line(segment, 1, 1) else before[a][b]
        {
          links := WithLine(links, value[j], value[k], Line(segment, 1, 1));
          links := WithLine(links, value[k], value[j], Line(segment, 1, 1));
          forall a, b ensures Paired(value, a, b, j, k + 1) <==>
            Paired(value, a, b, j, k) || (value[j] == a && value[k] == b) || (value[j] == b && value[k] == a)
          {
            PairedStep(value, a, b, j, k);
          }
        }
        forall a, b ensures Paired(value, a, b, j + 1, 0) <==> Paired(value, a, b, j, |value|) {
          PairedRow(value, a, b, j);
        }
      }
      forall a, b | a != b ensures Paired(value, a, b, |value|, 0) <==> a in value && b in value {
        PairedAll(value, a, b);
      }
    }

    /** The loop over the segments, in whatever order the dictionary yields them. */
    method LinkSegments(ghost rows: seq<HostConfig>)
      requires Numbered(rows) && WellFormed(View())
      requires forall i, j :: 0 <= i < |links| && 0 <= j < |links| ==> links[i][j] == Line(-1, 0, 0)
      modifies `links
      ensures WellFormed(View()) && |links| == old(|links|)
      ensures forall a, b :: 0 <= a < |links| && 0 <= b < |links| && a != b ==> Wired(rows, a, b, links[a][b])
    {
      var todo: set<int> := segment2node.Keys;
      ghost var done: set<int> := {};
      while todo != {}
        invariant todo + done == segment2node.Keys
        invariant WellFormed(View()) && |links| == old(|links|)
        invariant forall a, b :: 0 <= a < |links| && 0 <= b < |links| && a != b ==>
          WiredBy(rows, done, a, b, links[a][b])
        decreases todo
      {
        var segment := AnyOf(todo);
        LinkOneSegment(rows, done, segment);
        todo, done := todo - {segment}, done + {segment};
      }
      forall a, b | 0 <= a < |links| && 0 <= b < |links| && a != b ensures Wired(rows, a, b, links[a][b]) {
        if s :| RowOnSegment(rows, a, s) && RowOnSegment(rows, b, s) {
          assert Member(segment2node, s, a);
        }
      }
    }

    method LinkOneSegment(ghost rows: seq<HostConfig>, ghost done: set<int>, segment: int)
      requires Numbered(rows) && WellFormed(View()) && segment in segment2node
      requires forall a, b :: 0 <= a < |links| && 0 <= b < |links| && a != b ==> WiredBy(rows, done, a, b, links[a][b])
      modifies `links
      ensures WellFormed(View()) && |links| == old(|links|)
      ensures forall a, b :: 0 <= a < |links| && 0 <= b < |links| && a != b ==>
        WiredBy(rows, done + {segment}, a, b, links[a][b])
    {
      ghost var before := links;
      ghost var value := segment2node[segment];
      assert forall i :: i in value <==> RowOnSegment(rows, i, segment) by {
        assert forall i :: Member(segment2node, segment, i) <==> RowOnSegment(rows, i, segment);
      }
      assert forall p :: 0 <= p < |value| ==> value[p] in value;
      LinkSegment(segment, segment2node[segment]);
      forall a, b | 0 <= a < |links| && 0 <= b < |links| && a != b
        ensures WiredBy(rows, done + {segment}, a, b, links[a][b]) {
        WiredByStep(rows, done, segment, a, b, before[a][b]);
        assert a in value <==> RowOnSegment(rows, a, segment);
        assert b in value <==> RowOnSegment(rows, b, segment);
        assert links[a][b] == if a in value && b in value then Line(segment, 1, 1) else before[a][b];
      }
    }

    /** The overrides of the configuration, later ones replacing earlier ones. */
    method ApplyOverrides(cfg: Config, local: string)
      requires Valid() && key2node[0] == local && (forall name :: name in key2node <==> name in Names(cfg.hosts))
      modifies `links, `node2key
      ensures Valid() && |links| == old(|links|)
      ensures OverriddenTo(cfg, local, |cfg.overrides|, View(), old(links))
    {
      ghost var before := links;
      for i := 0 to |cfg.overrides|
        invariant Valid() && OverriddenTo(cfg, local, i, View(), before)
      {
        ApplyNth(cfg, local, i, before);
      }
    }

    method ApplyNth(cfg: Config, ghost local: string, i: nat, ghost before: seq<seq<Line>>)
      requires Valid() && key2node[0] == local && (forall name :: name in key2node <==> name in Names(cfg.hosts))
      requires WellFormed(Mesh(key2node, before)) && i < |cfg.overrides| && OverriddenTo(cfg, local, i, View(), before)
      modifies `links, `node2key
      ensures Valid() && |links| == old(|links|) && OverriddenTo(cfg, local, i + 1, View(), before)
    {
      var o := cfg.overrides[i];
      var src := RowOf(o.src);
      var dest := RowOf(o.dest);
      ApplyOverride(cfg, local, i, before, src, dest, o.weight);
    }

    method ApplyOverride(ghost cfg: Config, ghost local: string, ghost i: int, ghost before: seq<seq<Line>>,
                         src: int, dest: int, weight: int32)
      requires WellFormed(View()) && WellFormed(Mesh(key2node, before)) && 0 <= i < |cfg.overrides|
      requires OverriddenTo(cfg, local, i, View(), before)
      requires 0 <= src < |links| && 0 <= dest < |links| && weight == cfg.overrides[i].weight
      requires key2node[src] == Resolve(cfg, local, cfg.overrides[i].src)
      requires key2node[dest] == Resolve(cfg, local, cfg.overrides[i].dest)
      modifies `links
      ensures WellFormed(View()) && |links| == old(|links|) && OverriddenTo(cfg, local, i + 1, View(), before)
    {
      ghost var now := links;
      OverridePair(src, dest, weight);
      forall a, b | 0 <= a < |links| && 0 <= b < |links| && a != b
        ensures links[a][b] == Overridden(cfg, local, cfg.overrides[..i + 1], key2node[a], key2node[b], before[a][b])
      {
        assert now[a][b] == Overridden(cfg, local, cfg.overrides[..i], key2node[a], key2node[b], before[a][b]);
        OverriddenStep(cfg, local, i, View(), src, dest, a, b, before[a][b]);
      }
    }

    method OverridePair(src: int, dest: int, weight: int32)
      requires WellFormed(View()) && 0 <= src < |links| && 0 <= dest < |links|
      modifies `links
      ensures WellFormed(View()) && |links| == old(|links|)
      ensures forall a, b :: 0 <= a < |links| && 0 <= b < |links| ==>
        links[a][b] == if (a == src && b == dest) || (a == dest && b == src)
                       then old(links)[a][b].(weight := weight, initWeight := weight) else old(links)[a][b]
    {
      links := WithLine(links, src, dest, links[src][dest].(weight := weight));
      links := WithLine(links, dest, src, links[dest][src].(weight := weight));
      links := WithLine(links, src, dest, links[src][dest].(initWeight := weight));
      links := WithLine(links, dest, src, links[dest][src].(initWeight := weight));
    }

    /** The matrix of one host: the graph and the interfaces that the configuration describes. */
    method Init(cfg: Config, local: string)
      requires key2node == [] && node2key == map[] && segment2node == map[] && segment2interface == [] && links == []
      requires Distinct(Names(cfg.hosts)) && local in Names(cfg.hosts)
      modifies this
      ensures Valid() && key2node == Names(Arranged(cfg, local))
      ensures WeightsOf(View()) == ConfigWeights(cfg, local) == InitialWeights(View())
      ensures Interfaced(segment2interface, View(), Arranged(cfg, local))
    {
      ghost var rows := Arranged(cfg, local);
      NumberHosts(cfg, local);
      links := Unlinked(|key2node|);
      ArrangedMeaning(cfg, local);
      LinkSegments(rows);
      ghost var linked := links;
      ApplyOverrides(cfg, local);
      Assembled(cfg, local, View(), linked);
    }
  }
}
