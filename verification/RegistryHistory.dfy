/** The state of the registry told from the operations alone: which nodes are registered, which
    subscriptions and publications are accepted, and what the lists of the topics hold
    (src/Master/src/shm/controller).
 */
module RegistryHistories {
  import opened Basics
  import opened Registries
  import Mirrors

  datatype Role = Subscribing | Publishing

  /** The operation asks for a subscription or a publication of the node. */
  predicate Asks(op: Op, role: Role, n: string, t: string) {
    match role
    case Subscribing => op.AddSubscribe? && op.node == n && op.topic == t
    case Publishing => op.AddPublish? && op.node == n && op.topic == t
  }

  predicate AsksFor(op: Op, role: Role) {
    if role.Subscribing? then op.AddSubscribe? else op.AddPublish?
  }

  /* ---- nodes ---- */

  predicate DeletedBetween(ops: seq<Op>, n: string, i: int, j: int) {
    exists k :: i < k < j && 0 <= k < |ops| && ops[k] == DeleteNode(n)
  }

  /** The node was added at i and has not been deleted since. */
  predicate StandsSince(ops: seq<Op>, n: string, i: int) {
    0 <= i < |ops| && ops[i] == AddNode(n) && !DeletedBetween(ops, n, i, |ops|)
  }

  ghost predicate AddedSince(ops: seq<Op>, n: string) {
    exists i :: StandsSince(ops, n, i)
  }

  /** At j the node is deleted although it was not added since the deletion before. */
  predicate Unfounded(ops: seq<Op>, n: string, j: int) {
    && 0 <= j < |ops| && ops[j] == DeleteNode(n)
    && forall i :: 0 <= i < j && ops[i] == AddNode(n) ==> DeletedBetween(ops, n, i, j)
  }

  ghost predicate Stuck(ops: seq<Op>, n: string) {
    exists j :: Unfounded(ops, n, j)
  }

  ghost predicate Stands(ops: seq<Op>, n: string) {
    AddedSince(ops, n) && !Stuck(ops, n)
  }

  lemma DeletedSnoc(ops: seq<Op>, op: Op, n: string, i: int)
    requires 0 <= i < |ops|
    ensures DeletedBetween(ops + [op], n, i, |ops| + 1) <==> DeletedBetween(ops, n, i, |ops|) || op == DeleteNode(n)
  {
    var all := ops + [op];
    if k :| i < k < |ops| && ops[k] == DeleteNode(n) {
      assert all[k] == DeleteNode(n);
    }
    assert all[|ops|] == op;
    if k :| i < k < |ops| + 1 && all[k] == DeleteNode(n) {
      assert k < |ops| ==> ops[k] == DeleteNode(n);
    }
  }

  lemma DeletedPrefix(ops: seq<Op>, op: Op, n: string, i: int, j: int)
    requires 0 <= i && j <= |ops|
    ensures DeletedBetween(ops + [op], n, i, j) <==> DeletedBetween(ops, n, i, j)
  {
    forall k | i < k < j ensures (ops + [op])[k] == ops[k] {
    }
  }

  lemma AddedSnoc(ops: seq<Op>, op: Op, n: string)
    ensures AddedSince(ops + [op], n) <==> op == AddNode(n) || (op != DeleteNode(n) && AddedSince(ops, n))
  {
    var all := ops + [op];
    if i :| StandsSince(all, n, i) {
      if i < |ops| {
        DeletedSnoc(ops, op, n, i);
        assert StandsSince(ops, n, i);
      }
    }
    if i :| StandsSince(ops, n, i) {
      DeletedSnoc(ops, op, n, i);
      assert op != DeleteNode(n) ==> StandsSince(all, n, i);
    }
    assert op == AddNode(n) ==> StandsSince(all, n, |ops|);
  }

  lemma UnfoundedSnoc(ops: seq<Op>, op: Op, n: string, j: int)
    ensures Unfounded(ops + [op], n, j)
       <==> Unfounded(ops, n, j) || (j == |ops| && op == DeleteNode(n) && !AddedSince(ops, n))
  {
    var all := ops + [op];
    if 0 <= j <= |ops| {
      forall i | 0 <= i < j ensures all[i] == ops[i]
        ensures DeletedBetween(all, n, i, j) <==> DeletedBetween(ops, n, i, j)
      {
        DeletedPrefix(ops, op, n, i, j);
      }
      if j == |ops| {
        assert !AddedSince(ops, n) <==> forall i :: 0 <= i < j && ops[i] == AddNode(n) ==> DeletedBetween(ops, n, i, j)
        by {
          forall i ensures StandsSince(ops, n, i)
            <==> 0 <= i < j && ops[i] == AddNode(n) && !DeletedBetween(ops, n, i, j)
          {
          }
        }
      }
    }
  }

  lemma StuckSnoc(ops: seq<Op>, op: Op, n: string)
    ensures Stuck(ops + [op], n) <==> Stuck(ops, n) || (op == DeleteNode(n) && !AddedSince(ops, n))
  {
    forall j ensures Unfounded(ops + [op], n, j)
      <==> Unfounded(ops, n, j) || (j == |ops| && op == DeleteNode(n) && !AddedSince(ops, n))
    {
      UnfoundedSnoc(ops, op, n, j);
    }
    assert Stuck(ops + [op], n) <== Unfounded(ops + [op], n, |ops|);
  }

  lemma AfterSnoc(ops: seq<Op>, op: Op)
    ensures After(EMPTY, ops + [op]) == Step(After(EMPTY, ops), op)
  {
    assert (ops + [op])[..|ops|] == ops;
  }

  /** A node is registered exactly when it was added and not deleted since, unless it was once deleted
      without being registered; then it is mapped to null for ever. */
  lemma {:induction false} RegisteredIff(ops: seq<Op>, n: string)
    ensures Live(After(EMPTY, ops), n) <==> Stands(ops, n)
    ensures IsNull(After(EMPTY, ops), n) <==> Stuck(ops, n)
  {
    if ops == [] {
      assert !AddedSince(ops, n) && !Stuck(ops, n);
    } else {
      var front, op := ops[..|ops| - 1], ops[|ops| - 1];
      assert front + [op] == ops;
      RegisteredIff(front, n);
      AddedSnoc(front, op, n);
      StuckSnoc(front, op, n);
    }
  }

  /* ---- subscriptions and publications ---- */

  /** Operation i asks for something that its node, which is registered, does not have already. */
  ghost predicate Accepted(ops: seq<Op>, role: Role, i: int)
    decreases i
  {
    && 0 <= i < |ops| && AsksFor(ops[i], role) && ops[i].ran && Stands(ops[..i], ops[i].node)
    && forall j :: 0 <= j < i && Asks(ops[j], role, ops[i].node, ops[i].topic) && Accepted(ops, role, j) ==>
         DeletedBetween(ops, ops[i].node, j, i)
  }

  /** It was accepted, and its node has not been deleted since. */
  ghost predicate Holds(ops: seq<Op>, role: Role, n: string, t: string, i: int) {
    Accepted(ops, role, i) && Asks(ops[i], role, n, t) && !DeletedBetween(ops, n, i, |ops|)
  }

  ghost predicate Has(ops: seq<Op>, role: Role, n: string, t: string) {
    exists i :: Holds(ops, role, n, t, i)
  }

  function TableOf(r: Registry, role: Role, n: string): map<string, Endpoint>
    requires Live(r, n)
  {
    if role.Subscribing? then r.nodes[n].value.subs else r.nodes[n].value.pubs
  }

  function IndexOf(r: Registry, role: Role): Index {
    if role.Subscribing? then r.subs else r.pubs
  }

  lemma {:induction false} AcceptedPrefix(ops: seq<Op>, op: Op, role: Role, i: int)
    requires i < |ops|
    ensures Accepted(ops + [op], role, i) <==> Accepted(ops, role, i)
    decreases i
  {
    if 0 <= i {
      var all := ops + [op];
      assert all[..i] == ops[..i] && all[i] == ops[i];
      forall j | 0 <= j < i
        ensures Accepted(all, role, j) <==> Accepted(ops, role, j)
        ensures all[j] == ops[j]
        ensures AsksFor(ops[i], role) ==>
          (DeletedBetween(all, ops[i].node, j, i) <==> DeletedBetween(ops, ops[i].node, j, i))
      {
        AcceptedPrefix(ops, op, role, j);
        DeletedPrefix(ops, op, ops[i].node, j, i);
      }
    }
  }

  /** Whether the next operation is accepted. */
  lemma NextAccepted(ops: seq<Op>, op: Op, role: Role)
    requires AsksFor(op, role)
    ensures Accepted(ops + [op], role, |ops|)
       <==> op.ran && Stands(ops, op.node) && !Has(ops, role, op.node, op.topic)
  {
    var all, n, t := ops + [op], op.node, op.topic;
    assert all[..|ops|] == ops && all[|ops|] == op;
    forall j | 0 <= j < |ops|
      ensures all[j] == ops[j] && (Accepted(all, role, j) <==> Accepted(ops, role, j))
      ensures DeletedBetween(all, n, j, |ops|) <==> DeletedBetween(ops, n, j, |ops|)
    {
      AcceptedPrefix(ops, op, role, j);
      DeletedPrefix(ops, op, n, j, |ops|);
    }
    if Has(ops, role, n, t) {
      var j :| Holds(ops, role, n, t, j);
      assert Asks(all[j], role, n, t) && Accepted(all, role, j) && !DeletedBetween(all, n, j, |ops|);
    } else {
      forall j | 0 <= j < |ops| && Asks(all[j], role, n, t) && Accepted(all, role, j)
        ensures DeletedBetween(all, n, j, |ops|)
      {
        assert !Holds(ops, role, n, t, j);
      }
    }
  }

  lemma HoldsSnoc(ops: seq<Op>, op: Op, role: Role, n: string, t: string, i: int)
    requires i < |ops|
    ensures Holds(ops + [op], role, n, t, i) <==> Holds(ops, role, n, t, i) && op != DeleteNode(n)
  {
    AcceptedPrefix(ops, op, role, i);
    if 0 <= i {
      assert (ops + [op])[i] == ops[i];
      DeletedSnoc(ops, op, n, i);
    }
  }

  lemma HasSnoc(ops: seq<Op>, op: Op, role: Role, n: string, t: string)
    ensures Has(ops + [op], role, n, t)
       <==> (Has(ops, role, n, t) && op != DeleteNode(n))
            || (Asks(op, role, n, t) && op.ran && Stands(ops, n) && !Has(ops, role, n, t))
  {
    var all := ops + [op];
    assert all[|ops|] == op;
    if AsksFor(op, role) {
      NextAccepted(ops, op, role);
    }
    if i :| Holds(all, role, n, t, i) {
      if i < |ops| {
        HoldsSnoc(ops, op, role, n, t, i);
      }
    }
    if i :| Holds(ops, role, n, t, i) {
      HoldsSnoc(ops, op, role, n, t, i);
    }
    if Asks(op, role, n, t) && op.ran && Stands(ops, n) && !Has(ops, role, n, t) {
      assert Holds(all, role, n, t, |ops|);
    }
  }

  /** The table of a registered node has exactly the topics of what was accepted and stands. */
  lemma {:induction false} TableIff(ops: seq<Op>, role: Role, n: string, t: string)
    ensures Has(ops, role, n, t) <==> Live(After(EMPTY, ops), n) && t in TableOf(After(EMPTY, ops), role, n)
  {
    if ops != [] {
      var front, op := ops[..|ops| - 1], ops[|ops| - 1];
      assert front + [op] == ops;
      TableIff(front, role, n, t);
      RegisteredIff(front, n);
      HasSnoc(front, op, role, n, t);
    }
  }

  ghost function AnswerFor(ops: seq<Op>, op: Op, role: Role): Reply
    requires AsksFor(op, role)
  {
    if Stuck(ops, op.node) then Crash
    else if op.ran && Stands(ops, op.node) && !Has(ops, role, op.node, op.topic) then Done
    else BadRequest
  }

  /** What the registry answers, told from the history. */
  lemma AnswerIff(ops: seq<Op>, op: Op)
    ensures op.AddNode? ==>
      Respond(After(EMPTY, ops), op) == if Stands(ops, op.node) || Stuck(ops, op.node) then BadRequest else Done
    ensures op.DeleteNode? ==> Respond(After(EMPTY, ops), op) == if Stands(ops, op.node) then Done else BadRequest
    ensures op.AddSubscribe? ==> Respond(After(EMPTY, ops), op) == AnswerFor(ops, op, Subscribing)
    ensures op.AddPublish? ==> Respond(After(EMPTY, ops), op) == AnswerFor(ops, op, Publishing)
  {
    RegisteredIff(ops, op.node);
    if op.AddSubscribe? {
      TableIff(ops, Subscribing, op.node, op.topic);
    } else if op.AddPublish? {
      TableIff(ops, Publishing, op.node, op.topic);
    }
  }

  /** A subscription or publication succeeds exactly when it is accepted in this sense. */
  lemma AcceptedIff(ops: seq<Op>, role: Role, i: nat)
    requires i < |ops| && AsksFor(ops[i], role)
    ensures Respond(After(EMPTY, ops[..i]), ops[i]).Done? <==> Accepted(ops[..i + 1], role, i)
  {
    AnswerIff(ops[..i], ops[i]);
    NextAccepted(ops[..i], ops[i], role);
    assert ops[..i] + [ops[i]] == ops[..i + 1];
  }

  /* ---- the lists of the topics ---- */

  function Wanted(op: Op): Endpoint
    requires op.AddSubscribe? || op.AddPublish?
  {
    Endpoint(op.node, op.topic, op.kind)
  }

  /** What operation i contributes to the list of the topic. */
  ghost function Contributed(ops: seq<Op>, role: Role, t: string, i: int): seq<Endpoint>
    requires 0 <= i < |ops|
  {
    if AsksFor(ops[i], role) && Holds(ops, role, ops[i].node, t, i) then [Wanted(ops[i])] else []
  }

  /** What was accepted for the topic among the first k operations, and stands, in that order. */
  ghost function Standing(ops: seq<Op>, role: Role, t: string, k: nat): seq<Endpoint>
    requires k <= |ops|
  {
    if k == 0 then [] else Standing(ops, role, t, k - 1) + Contributed(ops, role, t, k - 1)
  }

  lemma ContributedSnoc(ops: seq<Op>, op: Op, role: Role, t: string, i: int)
    requires 0 <= i < |ops|
    ensures Contributed(ops + [op], role, t, i)
         == if op.DeleteNode? && op.node == ops[i].node then [] else Contributed(ops, role, t, i)
  {
    assert (ops + [op])[i] == ops[i];
    if AsksFor(ops[i], role) {
      HoldsSnoc(ops, op, role, ops[i].node, t, i);
    }
  }

  lemma {:induction false} StandingSnoc(ops: seq<Op>, op: Op, role: Role, t: string, k: nat)
    requires k <= |ops|
    ensures Standing(ops + [op], role, t, k)
         == if op.DeleteNode? then Others(Standing(ops, role, t, k), op.node) else Standing(ops, role, t, k)
  {
    if k > 0 {
      StandingSnoc(ops, op, role, t, k - 1);
      ContributedSnoc(ops, op, role, t, k - 1);
      var list, last := Standing(ops, role, t, k - 1), ops[k - 1];
      assert list + [] == list && Others(list, op.node) + [] == Others(list, op.node);
      if AsksFor(last, role) {
        OthersAppend(list, Wanted(last), op.node);
      }
    }
  }

  lemma ErasedAt(index: Index, n: string, t: string)
    ensures At(Erased(index, n), t) == Others(At(index, t), n)
  {
  }

  lemma NoneOfUnknown(r: Registry, role: Role, n: string, t: string)
    requires Valid(r) && !Live(r, n)
    ensures Others(At(IndexOf(r, role), t), n) == At(IndexOf(r, role), t)
  {
    var side := if role.Subscribing? then SubSide(r) else PubSide(r);
    if t in IndexOf(r, role) {
      assert ListRight(side, t, IndexOf(r, role)[t]);
      OthersNone(IndexOf(r, role)[t], n);
    }
  }

  lemma ListDelete(ops: seq<Op>, op: Op, role: Role, t: string)
    requires op.DeleteNode? && At(IndexOf(After(EMPTY, ops), role), t) == Standing(ops, role, t, |ops|)
    ensures At(IndexOf(Step(After(EMPTY, ops), op), role), t) == Others(Standing(ops, role, t, |ops|), op.node)
  {
    var r := After(EMPTY, ops);
    IndexAgreement(ops);
    ErasedAt(IndexOf(r, role), op.node, t);
    if !Live(r, op.node) {
      NoneOfUnknown(r, role, op.node, t);
    }
  }

  lemma ListAdd(ops: seq<Op>, op: Op, role: Role, t: string)
    requires !op.DeleteNode? && At(IndexOf(After(EMPTY, ops), role), t) == Standing(ops, role, t, |ops|)
    ensures At(IndexOf(Step(After(EMPTY, ops), op), role), t)
         == Standing(ops, role, t, |ops|)
            + if AsksFor(op, role) && op.topic == t && Accepted(ops + [op], role, |ops|) then [Wanted(op)] else []
  {
    var r, list := After(EMPTY, ops), Standing(ops, role, t, |ops|);
    AnswerIff(ops, op);
    if AsksFor(op, role) {
      NextAccepted(ops, op, role);
    }
    assert list + [] == list;
  }

  /** The list of every topic holds exactly the accepted subscriptions (publications) that stand, in the
      order in which they were accepted. */
  lemma {:induction false} ListIs(ops: seq<Op>, role: Role, t: string)
    ensures At(IndexOf(After(EMPTY, ops), role), t) == Standing(ops, role, t, |ops|)
  {
    if ops != [] {
      var front, op := ops[..|ops| - 1], ops[|ops| - 1];
      assert front + [op] == ops;
      ListIs(front, role, t);
      StandingSnoc(front, op, role, t, |front|);
      if op.DeleteNode? {
        ListDelete(front, op, role, t);
      } else {
        ListAdd(front, op, role, t);
      }
    }
  }

  /* ---- what the peers learn ---- */

  lemma HeldKind(ops: seq<Op>, role: Role, n: string, t: string, i: int)
    requires Holds(ops, role, n, t, i)
    ensures Live(After(EMPTY, ops), n) && t in TableOf(After(EMPTY, ops), role, n)
    ensures TableOf(After(EMPTY, ops), role, n)[t] == Wanted(ops[i])
    decreases |ops|
  {
    assert Has(ops, role, n, t);
    TableIff(ops, role, n, t);
    var front, op := ops[..|ops| - 1], ops[|ops| - 1];
    assert front + [op] == ops;
    if i < |front| {
      HoldsSnoc(front, op, role, n, t, i);
      HeldKind(front, role, n, t, i);
      AnswerIff(front, op);
      assert Has(front, role, n, t);
    } else {
      NextAccepted(front, op, role);
      AnswerIff(front, op);
    }
  }

  /** The operations among the doings of a host. */
  function OpsOf(doings: seq<Mirrors.Doing>): seq<Op> {
    if doings == [] then []
    else
      OpsOf(doings[..|doings| - 1])
      + match doings[|doings| - 1] case Do(op) => [op] case Announce(_) => []
  }

  lemma {:induction false} RunRegistry(doings: seq<Mirrors.Doing>, r: Registry, h: Mirrors.HostTables)
    requires Mirrors.IsRun(EMPTY, Mirrors.NOTHING, doings, r, h)
    ensures r == After(EMPTY, OpsOf(doings))
    decreases |doings|
  {
    if doings != [] {
      var front, d := doings[..|doings| - 1], doings[|doings| - 1];
      var q, g :| Mirrors.IsRun(EMPTY, Mirrors.NOTHING, front, q, g) && Mirrors.Follows(d, q, g, r, h);
      RunRegistry(front, q, g);
      if d.Do? {
        AfterSnoc(OpsOf(front), d.op);
      } else {
        assert OpsOf(front) + [] == OpsOf(front);
      }
    }
  }

  function MirroredTable(h: Mirrors.HostTables, role: Role): map<string, Mirrors.Topics> {
    if role.Subscribing? then h.subs else h.pubs
  }

  lemma MirroredIs(r: Registry, role: Role, n: string, t: string)
    ensures var tables := MirroredTable(Mirrors.MirrorOf(r), role);
      && (n in tables && t in tables[n] <==> Live(r, n) && t in TableOf(r, role, n))
      && (Live(r, n) && t in TableOf(r, role, n) ==> tables[n][t] == TableOf(r, role, n)[t].kind)
  {
    if Live(r, n) && t in TableOf(r, role, n) {
      assert TableOf(r, role, n) != map[];
    }
  }

  /** In every run a peer that starts empty with the host knows exactly the topics, with their types, of
      what the history of the host's operations accepted and left standing. */
  lemma PeerTold(doings: seq<Mirrors.Doing>, r: Registry, h: Mirrors.HostTables, role: Role, n: string, t: string)
    requires Mirrors.IsRun(EMPTY, Mirrors.NOTHING, doings, r, h)
    ensures n in MirroredTable(h, role) && t in MirroredTable(h, role)[n] <==> Has(OpsOf(doings), role, n, t)
    ensures forall i :: Holds(OpsOf(doings), role, n, t, i) ==> MirroredTable(h, role)[n][t] == OpsOf(doings)[i].kind
  {
    var ops := OpsOf(doings);
    RunRegistry(doings, r, h);
    assert Mirrors.MirrorOf(EMPTY) == Mirrors.NOTHING;
    Mirrors.MirrorFollows(EMPTY, Mirrors.NOTHING, doings, r, h);
    MirroredIs(r, role, n, t);
    TableIff(ops, role, n, t);
    forall i | Holds(ops, role, n, t, i) ensures MirroredTable(h, role)[n][t] == ops[i].kind {
      HeldKind(ops, role, n, t, i);
    }
  }
}
