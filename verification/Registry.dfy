/** The registry of local nodes and of their publishers and subscribers by topic
    (src/Master/src/shm/Node.cpp and src/Master/src/shm/controller).
 */
module Registries {
  import opened Basics

  /** A Publish or Subscribe object; a node has at most one for each topic. */
  datatype Endpoint = Endpoint(node: string, topic: string, kind: string)

  /** The tables of one Node. */
  datatype Entry = Entry(pubs: map<string, Endpoint>, subs: map<string, Endpoint>)

  /** The lists under each topic, in the order of registration. */
  type Index = map<string, seq<Endpoint>>

  /** m_nodes, m_publishes and m_subscribes. A name can be mapped to a null pointer. */
  datatype Registry = Registry(nodes: map<string, Option<Entry>>, pubs: Index, subs: Index)

  /** Crash stands for the use of a null pointer. */
  datatype Reply = Done | BadRequest | Crash

  /** `ran` is the result of run() of the new object. */
  datatype Op =
    | AddNode(node: string)
    | AddSubscribe(node: string, topic: string, kind: string, ran: bool)
    | AddPublish(node: string, topic: string, kind: string, ran: bool)
    | DeleteNode(node: string)

  const EMPTY := Registry(map[], map[], map[])
  const NO_TABLES := Entry(map[], map[])

  /* ---- the operations ---- */

  function At(index: Index, topic: string): seq<Endpoint> {
    if topic in index then index[topic] else []
  }

  function Appended(index: Index, e: Endpoint): Index {
    index[e.topic := At(index, e.topic) + [e]]
  }

  /** erase(remove(e)), and the list itself goes when it has become empty. */
  function Without(list: seq<Endpoint>, e: Endpoint): seq<Endpoint> {
    if list == [] then []
    else if list[0] == e then Without(list[1..], e)
    else [list[0]] + Without(list[1..], e)
  }

  function RemovedOne(index: Index, e: Endpoint): Index {
    var list := Without(At(index, e.topic), e);
    if list == [] then index - {e.topic} else index[e.topic := list]
  }

  /** What is left of a list, and of the lists, when the objects of one node are gone. */
  function Others(list: seq<Endpoint>, node: string): seq<Endpoint> {
    if list == [] then []
    else if list[0].node == node then Others(list[1..], node)
    else [list[0]] + Others(list[1..], node)
  }

  function Erased(index: Index, node: string): Index {
    map t | t in index && Others(index[t], node) != [] :: Others(index[t], node)
  }

  function Erase(r: Registry, node: string): Registry {
    Registry(r.nodes - {node}, Erased(r.pubs, node), Erased(r.subs, node))
  }

  predicate Live(r: Registry, node: string) {
    node in r.nodes && r.nodes[node].Some?
  }

  function Respond(r: Registry, op: Op): Reply {
    match op
    case AddNode(n) => if n in r.nodes then BadRequest else Done
    case AddSubscribe(n, t, _, ran) =>
      if n !in r.nodes then BadRequest
      else if r.nodes[n].None? then Crash
      else if t in r.nodes[n].value.subs || !ran then BadRequest
      else Done
    case AddPublish(n, t, _, ran) =>
      if n !in r.nodes then BadRequest
      else if r.nodes[n].None? then Crash
      else if t in r.nodes[n].value.pubs || !ran then BadRequest
      else Done
    case DeleteNode(n) => if Live(r, n) then Done else BadRequest
  }

  /** Deleting an unknown name looks it up with operator[], which leaves a null pointer behind. */
  function Step(r: Registry, op: Op): Registry {
    if !Respond(r, op).Done? then (if op.DeleteNode? then r.(nodes := r.nodes[op.node := None]) else r)
    else match op
         case AddNode(n) => r.(nodes := r.nodes[n := Some(NO_TABLES)])
         case AddSubscribe(n, t, kind, _) =>
           var e, entry := Endpoint(n, t, kind), r.nodes[n].value;
           r.(nodes := r.nodes[n := Some(entry.(subs := entry.subs[t := e]))], subs := Appended(r.subs, e))
         case AddPublish(n, t, kind, _) =>
           var e, entry := Endpoint(n, t, kind), r.nodes[n].value;
           r.(nodes := r.nodes[n := Some(entry.(pubs := entry.pubs[t := e]))], pubs := Appended(r.pubs, e))
         case DeleteNode(n) => Erase(r, n)
  }

  function After(r: Registry, ops: seq<Op>): Registry {
    if ops == [] then r else Step(After(r, ops[..|ops| - 1]), ops[|ops| - 1])
  }

  /* ---- the lists under the topics agree with the tables of the nodes ---- */

  /** One kind of table of every live node. */
  type Side = map<string, map<string, Endpoint>>

  function SubSide(r: Registry): Side {
    map n | n in r.nodes && r.nodes[n].Some? :: r.nodes[n].value.subs
  }

  function PubSide(r: Registry): Side {
    map n | n in r.nodes && r.nodes[n].Some? :: r.nodes[n].value.pubs
  }

  predicate Owns(side: Side, e: Endpoint) {
    e.node in side && e.topic in side[e.node] && side[e.node][e.topic] == e
  }

  predicate NoDuplicates(list: seq<Endpoint>) {
    forall i, j :: 0 <= i < j < |list| ==> list[i] != list[j]
  }

  predicate ListRight(side: Side, topic: string, list: seq<Endpoint>) {
    list != [] && NoDuplicates(list) && forall e :: e in list ==> e.topic == topic && Owns(side, e)
  }

  predicate Listed(side: Side, index: Index, n: string, t: string)
    requires n in side && t in side[n]
  {
    side[n][t].node == n && side[n][t].topic == t && t in index && side[n][t] in index[t]
  }

  /** No list is empty or has duplicates, and the lists hold exactly the objects of live nodes. */
  predicate Agrees(side: Side, index: Index) {
    && (forall t :: t in index ==> ListRight(side, t, index[t]))
    && forall n, t :: n in side && t in side[n] ==> Listed(side, index, n, t)
  }

  predicate Valid(r: Registry) {
    Agrees(SubSide(r), r.subs) && Agrees(PubSide(r), r.pubs)
  }

  lemma {:induction false} InOthers(list: seq<Endpoint>, node: string, e: Endpoint)
    ensures e in Others(list, node) <==> e in list && e.node != node
  {
    if list != [] {
      InOthers(list[1..], node, e);
      assert e in list <==> e == list[0] || e in list[1..];
    }
  }

  lemma {:induction false} OthersDistinct(list: seq<Endpoint>, node: string)
    requires NoDuplicates(list)
    ensures NoDuplicates(Others(list, node))
  {
    if list != [] {
      OthersDistinct(list[1..], node);
      InOthers(list[1..], node, list[0]);
    }
  }

  lemma AppendListed(side: Side, index: Index, e: Endpoint, n: string, t: string)
    requires Agrees(side, index) && e.node in side && e.topic !in side[e.node]
    requires var side' := side[e.node := side[e.node][e.topic := e]]; n in side' && t in side'[n]
    ensures Listed(side[e.node := side[e.node][e.topic := e]], Appended(index, e), n, t)
  {
    if n != e.node || t != e.topic {
      assert Listed(side, index, n, t);
    } else {
      assert Appended(index, e)[t][|Appended(index, e)[t]| - 1] == e;
    }
  }

  lemma AppendRight(side: Side, index: Index, e: Endpoint, t: string)
    requires Agrees(side, index) && e.node in side && e.topic !in side[e.node] && t in Appended(index, e)
    ensures ListRight(side[e.node := side[e.node][e.topic := e]], t, Appended(index, e)[t])
  {
    if t in index {
      assert ListRight(side, t, index[t]);
    }
  }

  lemma AppendAgrees(side: Side, index: Index, e: Endpoint)
    requires Agrees(side, index) && e.node in side && e.topic !in side[e.node]
    ensures Agrees(side[e.node := side[e.node][e.topic := e]], Appended(index, e))
  {
    var side', index' := side[e.node := side[e.node][e.topic := e]], Appended(index, e);
    forall t | t in index' ensures ListRight(side', t, index'[t]) {
      AppendRight(side, index, e, t);
    }
    forall n, t | n in side' && t in side'[n] ensures Listed(side', index', n, t) {
      AppendListed(side, index, e, n, t);
    }
  }

  lemma EraseAgrees(side: Side, index: Index, node: string)
    requires Agrees(side, index)
    ensures Agrees(side - {node}, Erased(index, node))
  {
    var side', index' := side - {node}, Erased(index, node);
    forall t | t in index' ensures ListRight(side', t, index'[t]) {
      assert ListRight(side, t, index[t]);
      OthersDistinct(index[t], node);
      forall e: Endpoint | e in index'[t] ensures e.topic == t && Owns(side', e) {
        InOthers(index[t], node, e);
      }
    }
    forall n, t | n in side' && t in side'[n] ensures Listed(side', index', n, t) {
      assert Listed(side, index, n, t);
      InOthers(index[t], node, side[n][t]);
    }
  }

  lemma NewNodeAgrees(side: Side, side': Side, index: Index, node: string)
    requires Agrees(side, index) && node !in side && side' == side[node := map[]]
    ensures Agrees(side', index)
  {
    forall t | t in index ensures ListRight(side', t, index[t]) {
      assert ListRight(side, t, index[t]);
    }
    forall n, t | n in side' && t in side'[n] ensures Listed(side', index, n, t) {
      assert Listed(side, index, n, t);
    }
  }

  lemma AddNodeValid(r: Registry, n: string)
    requires Valid(r) && n !in r.nodes
    ensures Valid(Step(r, AddNode(n)))
  {
    var s := Step(r, AddNode(n));
    assert SubSide(s) == SubSide(r)[n := map[]];
    assert PubSide(s) == PubSide(r)[n := map[]];
    NewNodeAgrees(SubSide(r), SubSide(s), r.subs, n);
    NewNodeAgrees(PubSide(r), PubSide(s), r.pubs, n);
  }

  lemma SubscribeSides(r: Registry, n: string, t: string, kind: string)
    requires Respond(r, AddSubscribe(n, t, kind, true)).Done?
    ensures var s, e := Step(r, AddSubscribe(n, t, kind, true)), Endpoint(n, t, kind);
      && n in SubSide(r) && t !in SubSide(r)[n] && s.subs == Appended(r.subs, e) && s.pubs == r.pubs
      && SubSide(s) == SubSide(r)[n := SubSide(r)[n][t := e]] && PubSide(s) == PubSide(r)
  {
    assert PubSide(Step(r, AddSubscribe(n, t, kind, true))) == PubSide(r);
  }

  lemma PublishSides(r: Registry, n: string, t: string, kind: string)
    requires Respond(r, AddPublish(n, t, kind, true)).Done?
    ensures var s, e := Step(r, AddPublish(n, t, kind, true)), Endpoint(n, t, kind);
      && n in PubSide(r) && t !in PubSide(r)[n] && s.pubs == Appended(r.pubs, e) && s.subs == r.subs
      && PubSide(s) == PubSide(r)[n := PubSide(r)[n][t := e]] && SubSide(s) == SubSide(r)
  {
    assert SubSide(Step(r, AddPublish(n, t, kind, true))) == SubSide(r);
  }

  lemma AddSubscribeValid(r: Registry, n: string, t: string, kind: string)
    requires Valid(r) && Respond(r, AddSubscribe(n, t, kind, true)).Done?
    ensures Valid(Step(r, AddSubscribe(n, t, kind, true)))
  {
    SubscribeSides(r, n, t, kind);
    AppendAgrees(SubSide(r), r.subs, Endpoint(n, t, kind));
  }

  lemma AddPublishValid(r: Registry, n: string, t: string, kind: string)
    requires Valid(r) && Respond(r, AddPublish(n, t, kind, true)).Done?
    ensures Valid(Step(r, AddPublish(n, t, kind, true)))
  {
    PublishSides(r, n, t, kind);
    AppendAgrees(PubSide(r), r.pubs, Endpoint(n, t, kind));
  }

  lemma EraseValid(r: Registry, n: string)
    requires Valid(r)
    ensures Valid(Erase(r, n))
  {
    EraseAgrees(SubSide(r), r.subs, n);
    EraseAgrees(PubSide(r), r.pubs, n);
    assert SubSide(Erase(r, n)) == SubSide(r) - {n};
    assert PubSide(Erase(r, n)) == PubSide(r) - {n};
  }

  lemma StepValid(r: Registry, op: Op)
    requires Valid(r)
    ensures Valid(Step(r, op))
  {
    if !Respond(r, op).Done? {
      assert SubSide(Step(r, op)) == SubSide(r);
      assert PubSide(Step(r, op)) == PubSide(r);
    } else {
      match op
      case AddNode(n) => AddNodeValid(r, n);
      case AddSubscribe(n, t, kind, _) => AddSubscribeValid(r, n, t, kind);
      case AddPublish(n, t, kind, _) => AddPublishValid(r, n, t, kind);
      case DeleteNode(n) => EraseValid(r, n);
    }
  }

  /** In every reachable state the index agrees with the tables. */
  lemma {:induction false} IndexAgreement(ops: seq<Op>)
    ensures Valid(After(EMPTY, ops))
  {
    if ops != [] {
      IndexAgreement(ops[..|ops| - 1]);
      StepValid(After(EMPTY, ops[..|ops| - 1]), ops[|ops| - 1]);
    }
  }

  /* ---- deleting leaves no trace ---- */

  lemma {:induction false} OthersAppend(list: seq<Endpoint>, e: Endpoint, node: string)
    ensures Others(list + [e], node) == Others(list, node) + if e.node == node then [] else [e]
  {
    if list == [] {
      assert list + [e] == [e];
    } else {
      assert (list + [e])[1..] == list[1..] + [e];
      OthersAppend(list[1..], e, node);
    }
  }

  lemma SameIndex(a: Index, b: Index)
    requires a.Keys == b.Keys && forall t :: t in a ==> a[t] == b[t]
    ensures a == b
  {
  }

  lemma ErasedAppend(index: Index, e: Endpoint, node: string)
    ensures Erased(Appended(index, e), node) ==
      if e.node == node then Erased(index, node) else Appended(Erased(index, node), e)
  {
    OthersAppend(At(index, e.topic), e, node);
    var lhs := Erased(Appended(index, e), node);
    SameIndex(lhs, if e.node == node then Erased(index, node) else Appended(Erased(index, node), e));
  }

  lemma {:induction false} OthersCommute(list: seq<Endpoint>, m: string, n: string)
    ensures Others(Others(list, m), n) == Others(Others(list, n), m)
    ensures m == n ==> Others(Others(list, m), n) == Others(list, m)
  {
    if list != [] {
      OthersCommute(list[1..], m, n);
      if list[0].node != m {
        assert ([list[0]] + Others(list[1..], m))[1..] == Others(list[1..], m);
      }
      if list[0].node != n {
        assert ([list[0]] + Others(list[1..], n))[1..] == Others(list[1..], n);
      }
    }
  }

  lemma ErasedCommute(index: Index, m: string, n: string)
    ensures Erased(Erased(index, m), n) == Erased(Erased(index, n), m)
    ensures m == n ==> Erased(Erased(index, m), n) == Erased(index, m)
  {
    forall t | t in index
      ensures Others(Others(index[t], m), n) == Others(Others(index[t], n), m)
      ensures m == n ==> Others(Others(index[t], m), n) == Others(index[t], m)
    {
      OthersCommute(index[t], m, n);
    }
    SameIndex(Erased(Erased(index, m), n), Erased(Erased(index, n), m));
    if m == n {
      SameIndex(Erased(Erased(index, m), n), Erased(index, m));
    }
  }

  lemma EraseRefused(r: Registry, op: Op, node: string)
    requires !Respond(r, op).Done?
    ensures Erase(Step(r, op), node) == if op.node == node then Erase(r, node) else Step(Erase(r, node), op)
  {
    if op.node == node {
      assert Step(r, op).nodes - {node} == r.nodes - {node};
    } else {
      assert Respond(Erase(r, node), op) == Respond(r, op);
      assert r.nodes[op.node := None] - {node} == (r.nodes - {node})[op.node := None];
    }
  }

  lemma EraseAdd(r: Registry, op: Op, node: string)
    requires Respond(r, op).Done? && !op.DeleteNode?
    ensures Erase(Step(r, op), node) == if op.node == node then Erase(r, node) else Step(Erase(r, node), op)
  {
    if !op.AddNode? {
      ErasedAppend(r.subs, Endpoint(op.node, op.topic, op.kind), node);
      ErasedAppend(r.pubs, Endpoint(op.node, op.topic, op.kind), node);
    }
    var entry := Step(r, op).nodes[op.node];
    assert Step(r, op).nodes == r.nodes[op.node := entry];
    if op.node == node {
      assert r.nodes[node := entry] - {node} == r.nodes - {node};
    } else {
      assert Respond(Erase(r, node), op) == Respond(r, op);
      assert r.nodes[op.node := entry] - {node} == (r.nodes - {node})[op.node := entry];
    }
  }

  lemma EraseDelete(r: Registry, n: string, node: string)
    requires Live(r, n)
    ensures Erase(Erase(r, n), node) == if n == node then Erase(r, node) else Step(Erase(r, node), DeleteNode(n))
  {
    ErasedCommute(r.subs, n, node);
    ErasedCommute(r.pubs, n, node);
    assert (r.nodes - {n}) - {node} == (r.nodes - {node}) - {n};
    if n == node {
      assert (r.nodes - {n}) - {node} == r.nodes - {n};
    } else {
      assert Live(Erase(r, node), n);
    }
  }

  /** An operation on the node is invisible once the node is erased; any other operation does the
      same with and without the node. */
  lemma EraseStep(r: Registry, op: Op, node: string)
    ensures Erase(Step(r, op), node) == if op.node == node then Erase(r, node) else Step(Erase(r, node), op)
  {
    if !Respond(r, op).Done? {
      EraseRefused(r, op, node);
    } else if op.DeleteNode? {
      EraseDelete(r, op.node, node);
    } else {
      EraseAdd(r, op, node);
    }
  }

  function OpsOfOthers(ops: seq<Op>, node: string): seq<Op> {
    if ops == [] then []
    else if ops[|ops| - 1].node == node then OpsOfOthers(ops[..|ops| - 1], node)
    else OpsOfOthers(ops[..|ops| - 1], node) + [ops[|ops| - 1]]
  }

  lemma {:induction false} EraseAfter(ops: seq<Op>, node: string)
    ensures Erase(After(EMPTY, ops), node) == After(EMPTY, OpsOfOthers(ops, node))
  {
    if ops == [] {
      assert Erase(EMPTY, node) == EMPTY;
    } else {
      var front, op := ops[..|ops| - 1], ops[|ops| - 1];
      EraseAfter(front, node);
      EraseStep(After(EMPTY, front), op, node);
      var others := OpsOfOthers(front, node);
      if op.node != node {
        assert (others + [op])[..|others|] == others;
      }
    }
  }

  /** Deleting a node leaves the rest exactly as it was: the state is the one that the operations
      on the other nodes alone produce, with every list in the same order. */
  lemma DeleteLeavesNoTrace(ops: seq<Op>, node: string)
    requires Live(After(EMPTY, ops), node)
    ensures Step(After(EMPTY, ops), DeleteNode(node)) == After(EMPTY, OpsOfOthers(ops, node))
  {
    EraseAfter(ops, node);
  }

  /* ---- null pointers ---- */

  predicate IsNull(r: Registry, node: string) {
    node in r.nodes && r.nodes[node].None?
  }

  /** The i-th operation deletes a name that is not registered. */
  predicate DeletesUnknown(ops: seq<Op>, i: nat, node: string) {
    i < |ops| && ops[i] == DeleteNode(node) && !Live(After(EMPTY, ops[..i]), node)
  }

  /** A name is mapped to null exactly when it was deleted at some time without being registered. */
  lemma {:induction false} NullIffUnknownDelete(ops: seq<Op>, node: string)
    ensures IsNull(After(EMPTY, ops), node) <==> exists i :: DeletesUnknown(ops, i, node)
  {
    if ops != [] {
      var front, last := ops[..|ops| - 1], |ops| - 1;
      NullIffUnknownDelete(front, node);
      assert DeletesUnknown(ops, last, node) <==> ops[last] == DeleteNode(node) && !Live(After(EMPTY, front), node);
      forall i | 0 <= i < last ensures DeletesUnknown(ops, i, node) <==> DeletesUnknown(front, i, node) {
        assert front[..i] == ops[..i];
      }
      assert (exists i :: DeletesUnknown(ops, i, node))
        <==> DeletesUnknown(ops, last, node) || exists i :: DeletesUnknown(front, i, node);
    }
  }

  /** Such a name can never be registered again, and using it crashes the master. */
  lemma NullIsStuck(r: Registry, op: Op)
    requires IsNull(r, op.node)
    ensures IsNull(Step(r, op), op.node)
    ensures Respond(r, op) == if op.AddSubscribe? || op.AddPublish? then Crash else BadRequest
  {
  }

  /* ---- the classes ---- */

  function Find(table: map<string, Endpoint>, topic: string): Option<Endpoint> {
    if topic in table then Some(table[topic]) else None
  }

  lemma SameTable(a: map<string, Endpoint>, b: map<string, Endpoint>)
    requires forall t :: Find(a, t) == Find(b, t)
    ensures a == b
  {
    forall t ensures t in a <==> t in b {
      assert Find(a, t) == Find(b, t);
    }
    forall t | t in a ensures a[t] == b[t] {
      assert Find(a, t) == Find(b, t);
    }
  }

  class Node {
    var publishes: map<string, Endpoint>
    var subscribes: map<string, Endpoint>

    ghost function View(): Entry
      reads this
    {
      Entry(publishes, subscribes)
    }

    constructor ()
      ensures View() == NO_TABLES
    {
      publishes, subscribes := map[], map[];
    }

    method AddPublish(e: Endpoint)
      modifies `publishes
      ensures forall t :: Find(publishes, t) == if t == e.topic then Some(e) else Find(old(publishes), t)
    {
      publishes := publishes[e.topic := e];
    }

    method AddSubscribe(e: Endpoint)
      modifies `subscribes
      ensures forall t :: Find(subscribes, t) == if t == e.topic then Some(e) else Find(old(subscribes), t)
    {
      subscribes := subscribes[e.topic := e];
    }

    method RemoveAllPublish() returns (res: seq<Endpoint>)
      requires Keyed(publishes)
      modifies `publishes
      ensures publishes == map[] && ListsValues(res, old(publishes))
    {
      res := Values(publishes);
      publishes := map[];
    }

    method RemoveAllSubscribe() returns (res: seq<Endpoint>)
      requires Keyed(subscribes)
      modifies `subscribes
      ensures subscribes == map[] && ListsValues(res, old(subscribes))
    {
      res := Values(subscribes);
      subscribes := map[];
    }
  }

  predicate Keyed(table: map<string, Endpoint>) {
    forall t :: t in table ==> table[t].topic == t
  }

  /** The values of a table, in some order. */
  predicate ListsValues(res: seq<Endpoint>, table: map<string, Endpoint>) {
    && (forall e :: e in res ==> e.topic in table && table[e.topic] == e)
    && (forall t :: t in table ==> table[t] in res)
  }

  /** The loop over an unordered_map. */
  method Values(table: map<string, Endpoint>) returns (res: seq<Endpoint>)
    requires Keyed(table)
    ensures ListsValues(res, table)
  {
    res := [];
    var todo := table.Keys;
    while todo != {}
      invariant todo <= table.Keys
      invariant forall t :: t in table && t !in todo ==> table[t] in res
      invariant forall e :: e in res ==> e.topic in table && table[e.topic] == e
      decreases |todo|
    {
      var t :| t in todo;
      assert table[t].topic == t;
      res := res + [table[t]];
      todo := todo - {t};
    }
  }

  /** The index when the objects of the node are gone from the lists of the topics in `done`. */
  function Partly(index: Index, node: string, done: set<string>): Index {
    map t | t in index && Left(index, node, done, t) != [] :: Left(index, node, done, t)
  }

  function Left(index: Index, node: string, done: set<string>, t: string): seq<Endpoint>
    requires t in index
  {
    if t in done then Others(index[t], node) else index[t]
  }

  lemma {:induction false} WithoutIsOthers(list: seq<Endpoint>, e: Endpoint)
    requires forall x :: x in list && x.node == e.node ==> x == e
    ensures Without(list, e) == Others(list, e.node)
  {
    if list != [] {
      WithoutIsOthers(list[1..], e);
    }
  }

  lemma {:induction false} WithoutTwice(list: seq<Endpoint>, e: Endpoint)
    requires e !in list
    ensures Without(list, e) == list
  {
    if list != [] {
      WithoutTwice(list[1..], e);
    }
  }

  lemma ListWithout(side: Side, index: Index, node: string, done: set<string>, e: Endpoint)
    requires Agrees(side, index) && Owns(side, e) && e.node == node && e.topic in index
    ensures Without(At(Partly(index, node, done), e.topic), e) == Others(index[e.topic], node)
  {
    assert ListRight(side, e.topic, index[e.topic]);
    if e.topic in done {
      InOthers(index[e.topic], node, e);
      WithoutTwice(Others(index[e.topic], node), e);
    } else {
      WithoutIsOthers(index[e.topic], e);
    }
  }

  lemma RemoveOneStep(index: Index, node: string, done: set<string>, e: Endpoint)
    requires e.topic in index && Without(At(Partly(index, node, done), e.topic), e) == Others(index[e.topic], node)
    ensures RemovedOne(Partly(index, node, done), e) == Partly(index, node, done + {e.topic})
  {
    SameIndex(RemovedOne(Partly(index, node, done), e), Partly(index, node, done + {e.topic}));
  }

  lemma RemoveStep(side: Side, index: Index, node: string, done: set<string>, e: Endpoint)
    requires Agrees(side, index) && Owns(side, e) && e.node == node
    ensures RemovedOne(Partly(index, node, done), e) == Partly(index, node, done + {e.topic})
  {
    assert Listed(side, index, node, e.topic);
    ListWithout(side, index, node, done, e);
    RemoveOneStep(index, node, done, e);
  }

  lemma {:induction false} OthersNone(list: seq<Endpoint>, node: string)
    requires forall x :: x in list ==> x.node != node
    ensures Others(list, node) == list
  {
    if list != [] {
      OthersNone(list[1..], node);
    }
  }

  /** When all topics of the node are done, the index is the erased one. */
  lemma AllRemoved(side: Side, index: Index, node: string, done: set<string>)
    requires Agrees(side, index) && node in side && side[node].Keys <= done
    ensures Partly(index, node, done) == Erased(index, node)
  {
    forall t | t in index ensures Left(index, node, done, t) == Others(index[t], node) {
      assert ListRight(side, t, index[t]);
      if t !in done {
        OthersNone(index[t], node);
      }
    }
    SameIndex(Partly(index, node, done), Erased(index, node));
  }

  lemma NothingRemoved(side: Side, index: Index, node: string)
    requires Agrees(side, index)
    ensures Partly(index, node, {}) == index
  {
    forall t | t in index ensures index[t] != [] {
      assert ListRight(side, t, index[t]);
    }
    SameIndex(Partly(index, node, {}), index);
  }

  lemma SideOwns(side: Side, index: Index, node: string, t: string)
    requires Agrees(side, index) && node in side && t in side[node]
    ensures side[node][t].topic == t && side[node][t].node == node && Owns(side, side[node][t])
  {
    assert Listed(side, index, node, t);
  }

  /** m_nodes, m_subscribes and m_publishes of MiddlewareManager. */
  class NodeRegistry {
    var nodes: map<string, Node?>
    var subscribes: Index
    var publishes: Index

    ghost function Objects(): set<Node>
      reads this
    {
      set n | n in nodes && nodes[n] != null :: nodes[n]
    }

    ghost function View(): Registry
      reads this, Objects()
    {
      Registry(map n | n in nodes :: if nodes[n] == null then None else Some(nodes[n].View()), publishes, subscribes)
    }

    /** Every name has an object of its own. */
    ghost predicate Separate()
      reads this
    {
      forall m, n :: m in nodes && n in nodes && m != n && nodes[m] != null ==> nodes[m] != nodes[n]
    }

    constructor ()
      ensures Separate() && View() == EMPTY
    {
      nodes, subscribes, publishes := map[], map[], map[];
    }

    method Add(node: string) returns (reply: Reply)
      requires Separate()
      modifies `nodes
      ensures Separate() && reply == Respond(old(View()), AddNode(node)) && View() == Step(old(View()), AddNode(node))
    {
      if node in nodes {
        return BadRequest;
      }
      var entry := new Node();
      nodes := nodes[node := entry];
      assert View().nodes == old(View()).nodes[node := Some(NO_TABLES)];
      reply := Done;
    }

    /** `ran` is the result of run() of the new object. */
    method AddSub(node: string, topic: string, kind: string, ran: bool) returns (reply: Reply)
      requires Separate()
      modifies `subscribes, Objects()
      ensures Separate() && reply == Respond(old(View()), AddSubscribe(node, topic, kind, ran))
      ensures View() == Step(old(View()), AddSubscribe(node, topic, kind, ran))
      ensures reply.Done? <==>
        ran && old(node in nodes && nodes[node] != null && topic !in nodes[node].subscribes)
    {
      if node !in nodes {
        return BadRequest;
      }
      if nodes[node] == null {
        return Crash;
      }
      if topic in nodes[node].subscribes {
        return BadRequest;
      }
      var e := Endpoint(node, topic, kind);
      if !ran {
        return BadRequest;
      }
      nodes[node].AddSubscribe(e);
      SameTable(nodes[node].subscribes, old(nodes[node].subscribes)[topic := e]);
      subscribes := subscribes[topic := (if topic in subscribes then subscribes[topic] else []) + [e]];
      assert View().nodes == Step(old(View()), AddSubscribe(node, topic, kind, ran)).nodes;
      reply := Done;
    }

    method AddPub(node: string, topic: string, kind: string, ran: bool) returns (reply: Reply)
      requires Separate()
      modifies `publishes, Objects()
      ensures Separate() && reply == Respond(old(View()), AddPublish(node, topic, kind, ran))
      ensures View() == Step(old(View()), AddPublish(node, topic, kind, ran))
      ensures reply.Done? <==>
        ran && old(node in nodes && nodes[node] != null && topic !in nodes[node].publishes)
    {
      if node !in nodes {
        return BadRequest;
      }
      if nodes[node] == null {
        return Crash;
      }
      if topic in nodes[node].publishes {
        return BadRequest;
      }
      var e := Endpoint(node, topic, kind);
      if !ran {
        return BadRequest;
      }
      nodes[node].AddPublish(e);
      SameTable(nodes[node].publishes, old(nodes[node].publishes)[topic := e]);
      publishes := publishes[topic := (if topic in publishes then publishes[topic] else []) + [e]];
      assert View().nodes == Step(old(View()), AddPublish(node, topic, kind, ran)).nodes;
      reply := Done;
    }

    method Delete(node: string) returns (reply: Reply)
      requires Separate() && Valid(View())
      modifies this, Objects()
      ensures Separate() && reply == Respond(old(View()), DeleteNode(node))
      ensures View() == Step(old(View()), DeleteNode(node))
    {
      if node !in nodes {
        nodes := nodes[node := null];
      }
      if nodes[node] == null {
        assert View().nodes == old(View()).nodes[node := None];
        return BadRequest;
      }
      Remove(node);
      reply := Done;
    }

    method Remove(node: string)
      requires Separate() && Valid(View()) && node in nodes && nodes[node] != null
      modifies this, Objects()
      ensures Separate() && View() == Erase(old(View()), node)
    {
      RemoveObjects(node);
      nodes := nodes - {node};
      assert View().nodes == old(View()).nodes - {node};
    }

    method RemoveObjects(node: string)
      requires Valid(View()) && node in nodes && nodes[node] != null
      modifies `subscribes, `publishes, nodes[node]
      ensures subscribes == Erased(old(subscribes), node) && publishes == Erased(old(publishes), node)
    {
      ghost var r := View();
      var entry := nodes[node];
      assert SubSide(r)[node] == entry.subscribes && PubSide(r)[node] == entry.publishes;
      KeyedSides(r, node);
      var subs := entry.RemoveAllSubscribe();
      subscribes := RemoveEach(subscribes, subs, node, SubSide(r));
      var pubs := entry.RemoveAllPublish();
      publishes := RemoveEach(publishes, pubs, node, PubSide(r));
    }
  }

  lemma KeyedSides(r: Registry, node: string)
    requires Valid(r) && Live(r, node)
    ensures Keyed(r.nodes[node].value.subs) && Keyed(r.nodes[node].value.pubs)
  {
    forall t | t in r.nodes[node].value.subs ensures r.nodes[node].value.subs[t].topic == t {
      SideOwns(SubSide(r), r.subs, node, t);
    }
    forall t | t in r.nodes[node].value.pubs ensures r.nodes[node].value.pubs[t].topic == t {
      SideOwns(PubSide(r), r.pubs, node, t);
    }
  }

  /** The loop of handleDelete over the removed objects. */
  method RemoveEach(index: Index, objects: seq<Endpoint>, ghost node: string, ghost side: Side) returns (now: Index)
    requires Agrees(side, index) && node in side && ListsValues(objects, side[node])
    ensures now == Erased(index, node)
  {
    now := index;
    NothingRemoved(side, index, node);
    ghost var done: set<string> := {};
    for i := 0 to |objects|
      invariant now == Partly(index, node, done)
      invariant forall k :: 0 <= k < i ==> objects[k].topic in done
    {
      var e := objects[i];
      SideOwns(side, index, node, e.topic);
      RemoveStep(side, index, node, done, e);
      done := done + {e.topic};
      now := EraseFrom(now, e);
    }
    AllRemoved(side, index, node, done);
  }

  method EraseFrom(index: Index, e: Endpoint) returns (now: Index)
    ensures now == RemovedOne(index, e)
  {
    now := index[e.topic := Without(At(index, e.topic), e)];
    if now[e.topic] == [] {
      now := now - {e.topic};
    }
    SameIndex(now, RemovedOne(index, e));
  }
}