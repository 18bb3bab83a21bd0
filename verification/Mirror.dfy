/** What a host knows of the nodes of the other hosts: the mirrored tables of each peer and the
    table of the hosts that subscribe to a topic (src/Master/src/interface/Host.cpp,
    src/Master/src/interface/controller, src/Master/src/MiddlewareManager.cpp).
 */
module Mirrors {
  import opened Basics
  import opened Registries

  /** Topics with the types of their messages. */
  type Topics = map<string, string>

  /** nodelist, node2pubtopic2type and node2subtopic2type of one Host. */
  datatype HostTables = HostTables(nodes: set<string>, pubs: map<string, Topics>, subs: map<string, Topics>)

  /** One node of the JSON snapshot. */
  datatype NodeInfo = NodeInfo(name: string, subs: seq<(string, string)>, pubs: seq<(string, string)>)

  /** The requests between hosts; /new is the same for POST and for the PUT that answers it. */
  datatype Message =
    | NodePost(node: string)
    | NodeDelete(node: string)
    | SubPost(node: string, topic: string, kind: string)
    | PubPost(node: string, topic: string, kind: string)
    | New(infos: seq<NodeInfo>)

  const NOTHING := HostTables({}, map[], map[])

  /* ---- one peer ---- */

  function TopicsAt(tables: map<string, Topics>, node: string): Topics {
    if node in tables then tables[node] else map[]
  }

  function WithTopic(tables: map<string, Topics>, node: string, topic: string, kind: string): map<string, Topics> {
    tables[node := TopicsAt(tables, node)[topic := kind]]
  }

  function WithSubs(h: HostTables, node: string, list: seq<(string, string)>): HostTables {
    if list == [] then h
    else
      var (t, k) := list[|list| - 1];
      var g := WithSubs(h, node, list[..|list| - 1]);
      g.(subs := WithTopic(g.subs, node, t, k))
  }

  function WithPubs(h: HostTables, node: string, list: seq<(string, string)>): HostTables {
    if list == [] then h
    else
      var (t, k) := list[|list| - 1];
      var g := WithPubs(h, node, list[..|list| - 1]);
      g.(pubs := WithTopic(g.pubs, node, t, k))
  }

  function WithInfo(h: HostTables, info: NodeInfo): HostTables {
    WithPubs(WithSubs(h.(nodes := h.nodes + {info.name}), info.name, info.subs), info.name, info.pubs)
  }

  function Filled(infos: seq<NodeInfo>): HostTables {
    if infos == [] then NOTHING else WithInfo(Filled(infos[..|infos| - 1]), infos[|infos| - 1])
  }

  function Apply(h: HostTables, m: Message): HostTables {
    match m
    case NodePost(n) => h.(nodes := h.nodes + {n})
    case NodeDelete(n) => HostTables(h.nodes - {n}, h.pubs - {n}, h.subs - {n})
    case SubPost(n, t, k) => h.(subs := WithTopic(h.subs, n, t, k))
    case PubPost(n, t, k) => h.(pubs := WithTopic(h.pubs, n, t, k))
    case New(infos) => Filled(infos)
  }

  /* ---- the mirror equals the registry it mirrors ---- */

  function Kinds(table: map<string, Endpoint>): Topics {
    map t | t in table :: table[t].kind
  }

  function KindsOf(side: Side): map<string, Topics> {
    map n | n in side && side[n] != map[] :: Kinds(side[n])
  }

  /** What a peer ought to know of a registry. */
  function MirrorOf(r: Registry): HostTables {
    HostTables((set n | n in r.nodes && r.nodes[n].Some?), KindsOf(PubSide(r)), KindsOf(SubSide(r)))
  }

  /** The requests that an operation broadcasts. */
  function Emitted(r: Registry, op: Op): seq<Message> {
    if !Respond(r, op).Done? then []
    else match op
         case AddNode(n) => [NodePost(n)]
         case AddSubscribe(n, t, k, _) => [SubPost(n, t, k)]
         case AddPublish(n, t, k, _) => [PubPost(n, t, k)]
         case DeleteNode(n) => [NodeDelete(n)]
  }

  function ApplyAll(h: HostTables, ms: seq<Message>): HostTables {
    if ms == [] then h else Apply(ApplyAll(h, ms[..|ms| - 1]), ms[|ms| - 1])
  }

  lemma SameTopics(a: map<string, Topics>, b: map<string, Topics>)
    requires a.Keys == b.Keys && forall n :: n in a ==> a[n] == b[n]
    ensures a == b
  {
  }

  lemma KindsAdd(side: Side, side': Side, e: Endpoint)
    requires e.node in side && side' == side[e.node := side[e.node][e.topic := e]]
    ensures KindsOf(side') == WithTopic(KindsOf(side), e.node, e.topic, e.kind)
  {
    var table := side[e.node];
    assert Kinds(table[e.topic := e]) == Kinds(table)[e.topic := e.kind];
    assert TopicsAt(KindsOf(side), e.node) == Kinds(table);
    assert e.topic in side'[e.node];
    SameTopics(KindsOf(side'), WithTopic(KindsOf(side), e.node, e.topic, e.kind));
  }

  lemma KindsNew(side: Side, side': Side, n: string)
    requires n !in side && side' == side[n := map[]]
    ensures KindsOf(side') == KindsOf(side)
  {
    SameTopics(KindsOf(side'), KindsOf(side));
  }

  lemma KindsErase(side: Side, n: string)
    ensures KindsOf(side - {n}) == KindsOf(side) - {n}
  {
    SameTopics(KindsOf(side - {n}), KindsOf(side) - {n});
  }

  lemma MirrorAddSubscribe(r: Registry, n: string, t: string, k: string)
    requires Respond(r, AddSubscribe(n, t, k, true)).Done?
    ensures MirrorOf(Step(r, AddSubscribe(n, t, k, true))) == Apply(MirrorOf(r), SubPost(n, t, k))
  {
    var s, e := Step(r, AddSubscribe(n, t, k, true)), Endpoint(n, t, k);
    SubscribeSides(r, n, t, k);
    KindsAdd(SubSide(r), SubSide(s), e);
    assert MirrorOf(s).nodes == MirrorOf(r).nodes;
  }

  lemma MirrorAddPublish(r: Registry, n: string, t: string, k: string)
    requires Respond(r, AddPublish(n, t, k, true)).Done?
    ensures MirrorOf(Step(r, AddPublish(n, t, k, true))) == Apply(MirrorOf(r), PubPost(n, t, k))
  {
    var s, e := Step(r, AddPublish(n, t, k, true)), Endpoint(n, t, k);
    PublishSides(r, n, t, k);
    KindsAdd(PubSide(r), PubSide(s), e);
    assert MirrorOf(s).nodes == MirrorOf(r).nodes;
  }

  lemma MirrorNode(r: Registry, n: string)
    requires n !in r.nodes
    ensures MirrorOf(Step(r, AddNode(n))) == Apply(MirrorOf(r), NodePost(n))
  {
    var s := Step(r, AddNode(n));
    assert SubSide(s) == SubSide(r)[n := map[]];
    assert PubSide(s) == PubSide(r)[n := map[]];
    KindsNew(SubSide(r), SubSide(s), n);
    KindsNew(PubSide(r), PubSide(s), n);
    assert MirrorOf(s).nodes == MirrorOf(r).nodes + {n};
  }

  lemma MirrorDelete(r: Registry, n: string)
    ensures MirrorOf(Erase(r, n)) == Apply(MirrorOf(r), NodeDelete(n))
  {
    var s := Erase(r, n);
    assert SubSide(s) == SubSide(r) - {n};
    assert PubSide(s) == PubSide(r) - {n};
    KindsErase(SubSide(r), n);
    KindsErase(PubSide(r), n);
    assert MirrorOf(s).nodes == MirrorOf(r).nodes - {n};
  }

  lemma MirrorRefused(r: Registry, op: Op)
    requires !Respond(r, op).Done?
    ensures MirrorOf(Step(r, op)) == MirrorOf(r)
  {
    assert SubSide(Step(r, op)) == SubSide(r);
    assert PubSide(Step(r, op)) == PubSide(r);
    assert MirrorOf(Step(r, op)).nodes == MirrorOf(r).nodes;
  }

  /** Replaying what an operation broadcasts follows the operation. */
  lemma MirrorStep(r: Registry, op: Op)
    ensures ApplyAll(MirrorOf(r), Emitted(r, op)) == MirrorOf(Step(r, op))
  {
    var ms := Emitted(r, op);
    if ms == [] {
      MirrorRefused(r, op);
    } else {
      assert ApplyAll(MirrorOf(r), ms[..0]) == MirrorOf(r);
      match op
      case AddNode(n) => MirrorNode(r, n);
      case AddSubscribe(n, t, k, _) => MirrorAddSubscribe(r, n, t, k);
      case AddPublish(n, t, k, _) => MirrorAddPublish(r, n, t, k);
      case DeleteNode(n) => MirrorDelete(r, n);
    }
  }

  /* ---- snapshots ---- */

  predicate ListsTopics(list: seq<(string, string)>, table: map<string, Endpoint>) {
    && (forall i :: 0 <= i < |list| ==> list[i].0 in table && table[list[i].0].kind == list[i].1)
    && (forall t :: t in table ==> (t, table[t].kind) in list)
  }

  predicate InfoRight(r: Registry, info: NodeInfo) {
    && Live(r, info.name)
    && ListsTopics(info.subs, r.nodes[info.name].value.subs) && ListsTopics(info.pubs, r.nodes[info.name].value.pubs)
  }

  predicate Named(infos: seq<NodeInfo>, n: string) {
    exists i :: 0 <= i < |infos| && infos[i].name == n
  }

  /** The snapshot describes exactly the live nodes, each once. */
  ghost predicate IsSnapshot(r: Registry, infos: seq<NodeInfo>) {
    && (forall i :: 0 <= i < |infos| ==> InfoRight(r, infos[i]))
    && (forall i, j :: 0 <= i < j < |infos| ==> infos[i].name != infos[j].name)
    && (forall n :: n in r.nodes && r.nodes[n].Some? ==> Named(infos, n))
  }

  /** Topics entered so far, from a list that describes the table. */
  function Listed(list: seq<(string, string)>): Topics {
    if list == [] then map[] else Listed(list[..|list| - 1])[list[|list| - 1].0 := list[|list| - 1].1]
  }

  lemma {:induction false} ListedIsKinds(list: seq<(string, string)>, table: map<string, Endpoint>)
    requires forall i :: 0 <= i < |list| ==> list[i].0 in table && table[list[i].0].kind == list[i].1
    ensures forall t :: t in Listed(list) ==> t in table && Listed(list)[t] == table[t].kind
    ensures forall i :: 0 <= i < |list| ==> list[i].0 in Listed(list)
  {
    if list != [] {
      ListedIsKinds(list[..|list| - 1], table);
    }
  }

  lemma ListedAll(list: seq<(string, string)>, table: map<string, Endpoint>)
    requires ListsTopics(list, table)
    ensures Listed(list) == Kinds(table) && (list == [] <==> table == map[])
  {
    ListedIsKinds(list, table);
    forall t | t in table ensures t in Listed(list) {
      var i :| 0 <= i < |list| && list[i] == (t, table[t].kind);
    }
    if list != [] {
      assert list[0].0 in table;
    }
    if list == [] {
      assert table.Keys == {};
    }
  }

  function WithList(tables: map<string, Topics>, node: string, list: seq<(string, string)>): map<string, Topics> {
    if list == [] then tables else tables[node := Listed(list)]
  }

  lemma TopicEntered(tables: map<string, Topics>, node: string, list: seq<(string, string)>)
    requires node !in tables && list != []
    ensures var (t, k) := list[|list| - 1];
      WithTopic(WithList(tables, node, list[..|list| - 1]), node, t, k) == WithList(tables, node, list)
  {
    var front := list[..|list| - 1];
    var (t, k) := list[|list| - 1];
    assert TopicsAt(WithList(tables, node, front), node) == Listed(front);
    assert Listed(list) == Listed(front)[t := k];
    assert tables[node := Listed(front)][node := Listed(list)] == tables[node := Listed(list)];
  }

  lemma {:induction false} SubsEntered(h: HostTables, node: string, list: seq<(string, string)>)
    requires node !in h.subs
    ensures WithSubs(h, node, list) == h.(subs := WithList(h.subs, node, list))
  {
    if list != [] {
      SubsEntered(h, node, list[..|list| - 1]);
      TopicEntered(h.subs, node, list);
    }
  }

  lemma {:induction false} PubsEntered(h: HostTables, node: string, list: seq<(string, string)>)
    requires node !in h.pubs
    ensures WithPubs(h, node, list) == h.(pubs := WithList(h.pubs, node, list))
  {
    if list != [] {
      PubsEntered(h, node, list[..|list| - 1]);
      TopicEntered(h.pubs, node, list);
    }
  }

  /** The tables after the first entries of a snapshot: those of the nodes named so far. */
  ghost predicate EnteredRight(side: Side, infos: seq<NodeInfo>, tables: map<string, Topics>) {
    && (forall n :: n in tables <==> Named(infos, n) && n in side && side[n] != map[])
    && (forall n :: n in tables ==> tables[n] == Kinds(side[n]))
  }

  ghost predicate FilledRight(r: Registry, infos: seq<NodeInfo>, h: HostTables) {
    && (forall n :: n in h.nodes <==> Named(infos, n))
    && EnteredRight(SubSide(r), infos, h.subs) && EnteredRight(PubSide(r), infos, h.pubs)
  }

  lemma NamedSnoc(infos: seq<NodeInfo>, info: NodeInfo, n: string)
    ensures Named(infos + [info], n) <==> Named(infos, n) || info.name == n
  {
    if Named(infos, n) {
      var i :| 0 <= i < |infos| && infos[i].name == n;
      assert (infos + [info])[i].name == n;
    }
    if info.name == n {
      assert (infos + [info])[|infos|].name == n;
    }
  }

  lemma EnterStep(side: Side, infos: seq<NodeInfo>, info: NodeInfo, list: seq<(string, string)>,
          tables: map<string, Topics>)
    requires EnteredRight(side, infos, tables) && info.name in side && ListsTopics(list, side[info.name])
    ensures EnteredRight(side, infos + [info], WithList(tables, info.name, list))
  {
    ListedAll(list, side[info.name]);
    forall n ensures Named(infos + [info], n) <==> Named(infos, n) || info.name == n {
      NamedSnoc(infos, info, n);
    }
  }

  lemma FilledStep(r: Registry, infos: seq<NodeInfo>, info: NodeInfo, h: HostTables)
    requires FilledRight(r, infos, h) && InfoRight(r, info) && !Named(infos, info.name)
    ensures FilledRight(r, infos + [info], WithInfo(h, info))
  {
    var m := info.name;
    var g := h.(nodes := h.nodes + {m});
    SubsEntered(g, m, info.subs);
    PubsEntered(WithSubs(g, m, info.subs), m, info.pubs);
    EnterStep(SubSide(r), infos, info, info.subs, h.subs);
    EnterStep(PubSide(r), infos, info, info.pubs, h.pubs);
    forall n ensures Named(infos + [info], n) <==> Named(infos, n) || m == n {
      NamedSnoc(infos, info, n);
    }
  }

  lemma {:induction false} FilledIs(r: Registry, infos: seq<NodeInfo>)
    requires forall i :: 0 <= i < |infos| ==> InfoRight(r, infos[i])
    requires forall i, j :: 0 <= i < j < |infos| ==> infos[i].name != infos[j].name
    ensures FilledRight(r, infos, Filled(infos))
  {
    if infos != [] {
      var front, info := infos[..|infos| - 1], infos[|infos| - 1];
      FilledIs(r, front);
      FilledStep(r, front, info, Filled(front));
      assert infos == front + [info];
    }
  }

  lemma EnteredAll(side: Side, infos: seq<NodeInfo>, tables: map<string, Topics>)
    requires EnteredRight(side, infos, tables) && forall n :: n in side ==> Named(infos, n)
    ensures tables == KindsOf(side)
  {
    SameTopics(tables, KindsOf(side));
  }

  lemma NamesAreLive(r: Registry, infos: seq<NodeInfo>, n: string)
    requires IsSnapshot(r, infos)
    ensures Named(infos, n) <==> Live(r, n)
  {
    if Named(infos, n) {
      var i :| 0 <= i < |infos| && infos[i].name == n;
      assert InfoRight(r, infos[i]);
    }
  }

  /** A /new message makes the mirror exact, whatever the tables held before. */
  lemma SnapshotIsMirror(r: Registry, infos: seq<NodeInfo>, before: HostTables)
    requires IsSnapshot(r, infos)
    ensures Apply(before, New(infos)) == MirrorOf(r)
  {
    SnapshotNodes(r, infos);
    SnapshotSubs(r, infos);
    SnapshotPubs(r, infos);
  }

  lemma SnapshotSubs(r: Registry, infos: seq<NodeInfo>)
    requires IsSnapshot(r, infos)
    ensures Filled(infos).subs == MirrorOf(r).subs
  {
    FilledIs(r, infos);
    forall n | n in SubSide(r) ensures Named(infos, n) {
      NamesAreLive(r, infos, n);
    }
    EnteredAll(SubSide(r), infos, Filled(infos).subs);
  }

  lemma SnapshotPubs(r: Registry, infos: seq<NodeInfo>)
    requires IsSnapshot(r, infos)
    ensures Filled(infos).pubs == MirrorOf(r).pubs
  {
    FilledIs(r, infos);
    forall n | n in PubSide(r) ensures Named(infos, n) {
      NamesAreLive(r, infos, n);
    }
    EnteredAll(PubSide(r), infos, Filled(infos).pubs);
  }

  lemma SnapshotNodes(r: Registry, infos: seq<NodeInfo>)
    requires IsSnapshot(r, infos)
    ensures Filled(infos).nodes == MirrorOf(r).nodes
  {
    FilledIs(r, infos);
    forall n ensures Named(infos, n) <==> Live(r, n) {
      NamesAreLive(r, infos, n);
    }
  }

  /* ---- the mirror over whole runs ---- */

  /** What a host does that concerns its peers: an operation, or a /new message. */
  datatype Doing = Do(op: Op) | Announce(infos: seq<NodeInfo>)

  function Becomes(r: Registry, d: Doing): Registry {
    match d
    case Do(op) => Step(r, op)
    case Announce(_) => r
  }

  function Sends(r: Registry, d: Doing): seq<Message> {
    match d
    case Do(op) => Emitted(r, op)
    case Announce(infos) => [New(infos)]
  }

  /** The registry after a run, and the peer's tables after the messages of the run. */
  ghost predicate IsRun(r0: Registry, h0: HostTables, doings: seq<Doing>, r: Registry, h: HostTables)
    decreases |doings|
  {
    if doings == [] then r == r0 && h == h0
    else
      var d := doings[|doings| - 1];
      exists q, g :: IsRun(r0, h0, doings[..|doings| - 1], q, g) && Follows(d, q, g, r, h)
  }

  ghost predicate Follows(d: Doing, q: Registry, g: HostTables, r: Registry, h: HostTables) {
    (d.Announce? ==> IsSnapshot(q, d.infos)) && r == Becomes(q, d) && h == ApplyAll(g, Sends(q, d))
  }

  lemma FollowsStep(d: Doing, q: Registry, g: HostTables, r: Registry, h: HostTables)
    requires Follows(d, q, g, r, h) && (d.Announce? || g == MirrorOf(q))
    ensures h == MirrorOf(r)
  {
    match d
    case Announce(infos) =>
      assert ApplyAll(g, [New(infos)][..0]) == g;
      SnapshotIsMirror(q, infos, g);
    case Do(op) => MirrorStep(q, op);
  }

  predicate HasAnnounce(doings: seq<Doing>) {
    exists d :: d in doings && d.Announce?
  }

  /** Once a /new message has been received, or when both sides start empty, the peer's tables equal
      the sender's own registry in every later state of every run. */
  lemma {:induction false} MirrorFollows(r0: Registry, h0: HostTables, doings: seq<Doing>, r: Registry, h: HostTables)
    requires IsRun(r0, h0, doings, r, h) && (HasAnnounce(doings) || h0 == MirrorOf(r0))
    ensures h == MirrorOf(r)
    decreases |doings|
  {
    if doings != [] {
      var front, d := doings[..|doings| - 1], doings[|doings| - 1];
      var q, g :| IsRun(r0, h0, front, q, g) && Follows(d, q, g, r, h);
      if !d.Announce? {
        if HasAnnounce(doings) {
          var x :| x in doings && x.Announce?;
          assert x in front;
        }
        MirrorFollows(r0, h0, front, q, g);
      }
      FollowsStep(d, q, g, r, h);
    }
  }

  /** getAllNodeInfo: None stands for the use of a null pointer. The maps are visited in an
      unspecified order. */
  method GetAllNodeInfo(r: Registry) returns (infos: Option<seq<NodeInfo>>)
    ensures infos.Some? <==> forall n :: n in r.nodes ==> r.nodes[n].Some?
    ensures infos.Some? ==> IsSnapshot(r, infos.value)
  {
    var todo := r.nodes.Keys;
    var list: seq<NodeInfo> := [];
    while todo != {}
      invariant todo <= r.nodes.Keys
      invariant forall i :: 0 <= i < |list| ==> InfoRight(r, list[i]) && list[i].name !in todo
      invariant forall i, j :: 0 <= i < j < |list| ==> list[i].name != list[j].name
      invariant forall n :: n in r.nodes && n !in todo ==> r.nodes[n].Some? && Named(list, n)
      decreases |todo|
    {
      var n :| n in todo;
      if r.nodes[n].None? {
        return None;
      }
      var subs := TopicList(r.nodes[n].value.subs);
      var pubs := TopicList(r.nodes[n].value.pubs);
      forall m | Named(list, m) || m == n ensures Named(list + [NodeInfo(n, subs, pubs)], m) {
        NamedSnoc(list, NodeInfo(n, subs, pubs), m);
      }
      list := list + [NodeInfo(n, subs, pubs)];
      todo := todo - {n};
    }
    infos := Some(list);
  }

  /** Node::getAllSubscribeTopics and getAllPublishTopics. */
  method TopicList(table: map<string, Endpoint>) returns (list: seq<(string, string)>)
    ensures ListsTopics(list, table)
  {
    list := [];
    var todo := table.Keys;
    while todo != {}
      invariant todo <= table.Keys
      invariant forall i :: 0 <= i < |list| ==> list[i].0 in table && table[list[i].0].kind == list[i].1
      invariant forall t :: t in table && t !in todo ==> (t, table[t].kind) in list
      decreases |todo|
    {
      var t :| t in todo;
      list := list + [(t, table[t].kind)];
      todo := todo - {t};
    }
  }

  /* ---- the topics of all peers ---- */

  /** hostlist and topic2host of InterfaceManager. */
  datatype Tables = Tables(hosts: map<string, HostTables>, topic2host: map<string, set<string>>)

  predicate HasSub(h: HostTables, t: string) {
    exists n :: n in h.subs && t in h.subs[n]
  }

  function SubTopics(h: HostTables): set<string> {
    set n, t | n in h.subs && t in h.subs[n] :: t
  }

  function HostsAt(table: map<string, set<string>>, t: string): set<string> {
    if t in table then table[t] else {}
  }

  function Inserted(table: map<string, set<string>>, t: string, host: string): map<string, set<string>> {
    table[t := HostsAt(table, t) + {host}]
  }

  /** erase on the entries of the given topics; operator[] creates the missing ones. */
  function Dropped(table: map<string, set<string>>, topics: set<string>, host: string): map<string, set<string>> {
    map t | t in table.Keys + topics :: HostsAt(table, t) - (if t in topics then {host} else {})
  }

  /** The host is removed everywhere and then inserted for the given topics. */
  function Replaced(table: map<string, set<string>>, topics: set<string>, host: string): map<string, set<string>> {
    map t | t in table.Keys + topics :: (HostsAt(table, t) - {host}) + (if t in topics then {host} else {})
  }

  /** Host::deleteNode returns the topics of every node of the host, not only of the deleted one. */
  function Handle(w: Tables, src: string, m: Message): Tables
    requires src in w.hosts
  {
    var h := w.hosts[src];
    Tables(w.hosts[src := Apply(h, m)],
           match m
           case NodePost(_) => w.topic2host
           case PubPost(_, _, _) => w.topic2host
           case SubPost(_, t, _) => Inserted(w.topic2host, t, src)
           case NodeDelete(_) => Dropped(w.topic2host, SubTopics(h), src)
           case New(infos) => Replaced(w.topic2host, SubTopics(Filled(infos)), src))
  }

  predicate Names(w: Tables, t: string, host: string) {
    t in w.topic2host && host in w.topic2host[t]
  }

  /** A host is named for a topic only if its mirrored tables have a subscriber of it. */
  ghost predicate TopicsSound(w: Tables) {
    forall t, host :: Names(w, t, host) ==> host in w.hosts && HasSub(w.hosts[host], t)
  }

  /** Every subscriber in the mirrored tables of the host is named. */
  ghost predicate TopicsComplete(w: Tables, host: string)
    requires host in w.hosts
  {
    forall t :: HasSub(w.hosts[host], t) ==> Names(w, t, host)
  }

  lemma SubTopicsAre(h: HostTables, t: string)
    ensures t in SubTopics(h) <==> HasSub(h, t)
  {
  }

  lemma SubAdded(h: HostTables, n: string, t: string, k: string, u: string)
    ensures HasSub(Apply(h, SubPost(n, t, k)), u) <==> HasSub(h, u) || u == t
  {
    var g := Apply(h, SubPost(n, t, k));
    if HasSub(h, u) {
      var m :| m in h.subs && u in h.subs[m];
      assert m in g.subs && u in g.subs[m];
    }
    if u == t {
      assert n in g.subs && t in g.subs[n];
    }
  }

  lemma HandleSound(w: Tables, src: string, m: Message)
    requires src in w.hosts && TopicsSound(w)
    ensures TopicsSound(Handle(w, src, m))
  {
    var v, h := Handle(w, src, m), w.hosts[src];
    forall t, host | Names(v, t, host) ensures host in v.hosts && HasSub(v.hosts[host], t) {
      assert host != src ==> Names(w, t, host);
      if host == src {
        match m
        case NodePost(_) => assert Names(w, t, host);
        case PubPost(_, _, _) => assert Names(w, t, host);
        case SubPost(n, u, k) =>
          SubAdded(h, n, u, k, t);
          assert t != u ==> Names(w, t, host);
        case NodeDelete(_) => SubTopicsAre(h, t);
          assert Names(w, t, host);
        case New(infos) => SubTopicsAre(Filled(infos), t);
      }
    }
  }

  function HandleAll(w: Tables, ms: seq<(string, Message)>): Tables
    requires forall i :: 0 <= i < |ms| ==> ms[i].0 in w.hosts
    ensures HandleAll(w, ms).hosts.Keys == w.hosts.Keys
  {
    if ms == [] then w else Handle(HandleAll(w, ms[..|ms| - 1]), ms[|ms| - 1].0, ms[|ms| - 1].1)
  }

  function NewTables(hosts: set<string>): Tables {
    Tables(map host | host in hosts :: NOTHING, map[])
  }

  predicate FromHosts(hosts: set<string>, ms: seq<(string, Message)>) {
    forall i :: 0 <= i < |ms| ==> ms[i].0 in hosts
  }

  /** In every run of messages from known hosts, in any order, topic2host is sound. */
  lemma {:induction false} TopicsAlwaysSound(hosts: set<string>, ms: seq<(string, Message)>)
    requires FromHosts(hosts, ms)
    ensures TopicsSound(HandleAll(NewTables(hosts), ms))
  {
    if ms != [] {
      TopicsAlwaysSound(hosts, ms[..|ms| - 1]);
      HandleSound(HandleAll(NewTables(hosts), ms[..|ms| - 1]), ms[|ms| - 1].0, ms[|ms| - 1].1);
    }
  }

  /** A message of one host leaves the entries and the tables of the others alone. */
  lemma OthersUntouched(w: Tables, src: string, m: Message, other: string, t: string)
    requires src in w.hosts && other != src
    ensures Names(Handle(w, src, m), t, other) <==> Names(w, t, other)
    ensures other in w.hosts ==> Handle(w, src, m).hosts[other] == w.hosts[other]
  {
  }

  /** After a /new message topic2host is exact for its sender. */
  lemma NewIsExact(w: Tables, src: string, infos: seq<NodeInfo>, t: string)
    requires src in w.hosts
    ensures Names(Handle(w, src, New(infos)), t, src) <==> HasSub(Handle(w, src, New(infos)).hosts[src], t)
  {
    SubTopicsAre(Filled(infos), t);
  }

  /** The other messages that add something keep it complete. */
  lemma AddingKeepsComplete(w: Tables, src: string, m: Message)
    requires src in w.hosts && TopicsComplete(w, src) && (m.NodePost? || m.PubPost? || m.SubPost?)
    ensures TopicsComplete(Handle(w, src, m), src)
  {
    var v := Handle(w, src, m);
    forall t | HasSub(v.hosts[src], t) ensures Names(v, t, src) {
      if m.SubPost? {
        SubAdded(w.hosts[src], m.node, m.topic, m.kind, t);
      }
      assert (m.SubPost? && m.topic == t) || Names(w, t, src);
    }
  }

  /** The deletion of a node keeps topic2host complete for its host exactly when no other node of
      that host subscribes to anything. */
  lemma DeleteCompleteIff(w: Tables, src: string, node: string)
    requires src in w.hosts && TopicsSound(w)
    ensures TopicsComplete(Handle(w, src, NodeDelete(node)), src)
       <==> forall n :: n in w.hosts[src].subs && n != node ==> w.hosts[src].subs[n] == map[]
  {
    var h, v := w.hosts[src], Handle(w, src, NodeDelete(node));
    forall t ensures !Names(v, t, src) {
      SubTopicsAre(h, t);
    }
    if n, t :| n in h.subs && n != node && t in h.subs[n] {
      assert n in v.hosts[src].subs && HasSub(v.hosts[src], t);
    } else {
      forall n | n in h.subs && n != node ensures h.subs[n] == map[] {
        assert h.subs[n].Keys == {};
      }
    }
  }

  /* ---- topic2host over a run of messages ---- */

  /** The message tells of a subscriber of the topic. */
  predicate Tells(m: Message, t: string) {
    (m.SubPost? && m.topic == t) || (m.New? && t in SubTopics(Filled(m.infos)))
  }

  /** The message takes its host off the topic, if it was there. */
  predicate Revokes(m: Message, t: string) {
    m.NodeDelete? || (m.New? && t !in SubTopics(Filled(m.infos)))
  }

  /** Message i of the host tells of a subscriber of the topic, and no later one takes it back. */
  predicate StandsAt(ms: seq<(string, Message)>, host: string, t: string, i: int) {
    && 0 <= i < |ms| && ms[i].0 == host && Tells(ms[i].1, t)
    && forall j :: i < j < |ms| && ms[j].0 == host ==> !Revokes(ms[j].1, t)
  }

  lemma StandsSnoc(ms: seq<(string, Message)>, m: (string, Message), host: string, t: string)
    ensures (exists i :: StandsAt(ms + [m], host, t, i))
       <==> if m.0 == host && Tells(m.1, t) then true
            else !(m.0 == host && Revokes(m.1, t)) && exists i :: StandsAt(ms, host, t, i)
  {
    var all := ms + [m];
    assert all[|ms|] == m;
    if i :| StandsAt(all, host, t, i) {
      forall j | i < j < |ms| && ms[j].0 == host ensures !Revokes(ms[j].1, t) {
        assert all[j] == ms[j];
      }
      assert i < |ms| ==> StandsAt(ms, host, t, i);
    }
    if i :| StandsAt(ms, host, t, i) {
      assert !(m.0 == host && Revokes(m.1, t)) ==> StandsAt(all, host, t, i);
    }
    assert m.0 == host && Tells(m.1, t) ==> StandsAt(all, host, t, |ms|);
  }

  /** One message names its host for what it tells of, and a deletion unnames it altogether. */
  lemma NamesAfter(w: Tables, src: string, m: Message, t: string)
    requires src in w.hosts && TopicsSound(w)
    ensures Names(Handle(w, src, m), t, src) <==> Tells(m, t) || (!Revokes(m, t) && Names(w, t, src))
  {
    SubTopicsAre(w.hosts[src], t);
  }

  /** In every run of messages from known hosts, a host is named for a topic exactly when one of its
      messages told of a subscriber and it has neither deleted a node nor sent a /new message without
      the topic since then. */
  lemma {:induction false} NamedIff(hosts: set<string>, ms: seq<(string, Message)>, host: string, t: string)
    requires FromHosts(hosts, ms) && host in hosts
    ensures Names(HandleAll(NewTables(hosts), ms), t, host) <==> exists i :: StandsAt(ms, host, t, i)
  {
    if ms != [] {
      var front, m := ms[..|ms| - 1], ms[|ms| - 1];
      NamedIff(hosts, front, host, t);
      TopicsAlwaysSound(hosts, front);
      StandsSnoc(front, m, host, t);
      assert front + [m] == ms;
      var w := HandleAll(NewTables(hosts), front);
      if m.0 == host {
        NamesAfter(w, host, m.1, t);
      } else {
        OthersUntouched(w, m.0, m.1, host, t);
      }
    }
  }

  /** So topic2host misses a subscriber of a host exactly when the mirrored tables have one of which the
      host has not told again since it last deleted a node. */
  lemma CompleteIff(hosts: set<string>, ms: seq<(string, Message)>, host: string)
    requires FromHosts(hosts, ms) && host in hosts
    ensures var w := HandleAll(NewTables(hosts), ms);
      TopicsComplete(w, host) <==> forall t :: HasSub(w.hosts[host], t) ==> exists i :: StandsAt(ms, host, t, i)
  {
    forall t ensures Names(HandleAll(NewTables(hosts), ms), t, host) <==> exists i :: StandsAt(ms, host, t, i) {
      NamedIff(hosts, ms, host, t);
    }
  }

  lemma DeleteUnnames(w: Tables, host: string, a: string, b: string, t: string)
    requires host in w.hosts && a != b && b in w.hosts[host].subs && t in w.hosts[host].subs[b]
    ensures var v := Handle(w, host, NodeDelete(a)); HasSub(v.hosts[host], t) && !Names(v, t, host)
  {
    var v := Handle(w, host, NodeDelete(a));
    assert b in v.hosts[host].subs && t in v.hosts[host].subs[b];
    SubTopicsAre(w.hosts[host], t);
  }

  lemma HandleAllSnoc(hosts: set<string>, ms: seq<(string, Message)>, host: string, m: Message)
    requires FromHosts(hosts, ms) && host in hosts
    ensures HandleAll(NewTables(hosts), ms + [(host, m)]) == Handle(HandleAll(NewTables(hosts), ms), host, m)
  {
    assert (ms + [(host, m)])[..|ms|] == ms;
  }

  /** An incomplete state is reached whenever two nodes of a host subscribe to a topic and one of them is
      deleted right after, whatever happened before. */
  lemma IncompleteReached(hosts: set<string>, ms: seq<(string, Message)>, host: string, a: string, b: string,
                          t: string, kind: string)
    requires FromHosts(hosts, ms) && host in hosts && a != b
    ensures var w := HandleAll(NewTables(hosts), ms + [(host, SubPost(a, t, kind))] + [(host, SubPost(b, t, kind))]
                                                    + [(host, NodeDelete(a))]);
      HasSub(w.hosts[host], t) && !Names(w, t, host)
  {
    var ms1 := ms + [(host, SubPost(a, t, kind))];
    var ms2 := ms1 + [(host, SubPost(b, t, kind))];
    HandleAllSnoc(hosts, ms1, host, SubPost(b, t, kind));
    HandleAllSnoc(hosts, ms2, host, NodeDelete(a));
    DeleteUnnames(HandleAll(NewTables(hosts), ms2), host, a, b, t);
  }
}
