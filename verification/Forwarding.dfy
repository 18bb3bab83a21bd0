/** Hop-by-hop forwarding (InterfaceRouter::handle, InterfaceManager::transfer):
    every host looks up its own table and hands the request to the next host.
    The tables may break ties differently; they only share the graph.
 */
module Forwarding {
  import opened Basics
  import opened Graphs

  /** Destination to next host. */
  type Table = map<string, string>

  /** A table names, for every other host within reach, the first hop of some least-weight path. */
  ghost predicate Routed(w: Weights, host: string, table: Table) {
    forall d :: RoutedTo(w, host, table, d)
  }

  ghost predicate RoutedTo(w: Weights, host: string, table: Table, d: string) {
    d != host && Dist(w, host, d) < INT_MAX ==> d in table && FirstHopTo(w, host, table[d], d)
  }

  ghost predicate Mesh(w: Weights, net: map<string, Table>) {
    && (forall h :: h in net ==> Routed(w, h, net[h]))
    && (forall a, b :: Weight(w, a, b) > 0 ==> a in net && b in net)
  }

  /** Where a request for `dest` is after `k` forwards; None when some host has no entry for it. */
  function Hops(net: map<string, Table>, at: string, dest: string, k: nat): Option<string>
    decreases k
  {
    if k == 0 then Some(at)
    else if at == dest then None
    else if at in net && dest in net[at] then Hops(net, net[at][dest], dest, k - 1)
    else None
  }

  /** One forward brings the request strictly nearer, to a host that can forward it on. */
  lemma ForwardDescends(w: Weights, net: map<string, Table>, at: string, dest: string)
    requires Mesh(w, net) && at in net && at != dest && Dist(w, at, dest) < INT_MAX
    ensures dest in net[at] && net[at][dest] in net
    ensures Dist(w, net[at][dest], dest) == Dist(w, at, dest) - Weight(w, at, net[at][dest]) < Dist(w, at, dest)
  {
    assert Routed(w, at, net[at]) && RoutedTo(w, at, net[at], dest);
  }

  /** Forwarding `k` times and then once more is forwarding `k + 1` times. */
  lemma {:induction false} HopsSnoc(net: map<string, Table>, at: string, dest: string, k: nat)
    ensures Hops(net, at, dest, k + 1) ==
      match Hops(net, at, dest, k)
      case None => None
      case Some(h) => if h != dest && h in net && dest in net[h] then Some(net[h][dest]) else None
    decreases k
  {
    if k > 0 && at != dest && at in net && dest in net[at] {
      HopsSnoc(net, net[at][dest], dest, k - 1);
    }
  }

  /** After `k` forwards the request is at least `k` nearer, and it is stuck only where it should end. */
  lemma {:induction false} HopsDescend(w: Weights, net: map<string, Table>, at: string, dest: string, k: nat)
    requires Mesh(w, net) && at in net && Dist(w, at, dest) < INT_MAX
    ensures var h := Hops(net, at, dest, k);
      && (h.Some? ==> h.value in net && Dist(w, h.value, dest) <= Dist(w, at, dest) - k)
      && (h.None? ==> exists j :: 0 <= j < k && Hops(net, at, dest, j) == Some(dest))
    decreases k
  {
    if k > 0 {
      HopsDescend(w, net, at, dest, k - 1);
      HopsSnoc(net, at, dest, k - 1);
      var h := Hops(net, at, dest, k - 1);
      if h.Some? && h.value != dest {
        ForwardDescends(w, net, h.value, dest);
      }
    }
  }

  /** Any request for a reachable host arrives, in at most as many forwards as its least weight. */
  lemma Delivers(w: Weights, net: map<string, Table>, at: string, dest: string) returns (k: nat)
    requires Mesh(w, net) && at in net && Dist(w, at, dest) < INT_MAX
    ensures k <= Dist(w, at, dest) && Hops(net, at, dest, k) == Some(dest)
  {
    var n := Dist(w, at, dest);
    DistMeaning(w, at, dest);
    HopsDescend(w, net, at, dest, n + 1);
    var h := Hops(net, at, dest, n + 1);
    if h.Some? {
      DistMeaning(w, h.value, dest);
      assert false;
    }
    k :| 0 <= k < n + 1 && Hops(net, at, dest, k) == Some(dest);
  }

  /** No request passes a host twice. */
  lemma LoopFree(w: Weights, net: map<string, Table>, at: string, dest: string, i: nat, j: nat)
    requires Mesh(w, net) && at in net && Dist(w, at, dest) < INT_MAX
    requires i < j && Hops(net, at, dest, j).Some?
    ensures Hops(net, at, dest, i).Some? && Hops(net, at, dest, i) != Hops(net, at, dest, j)
  {
    HopsSplit(net, at, dest, i, j - i);
    var h := Hops(net, at, dest, i).value;
    HopsDescend(w, net, at, dest, i);
    HopsDescend(w, net, h, dest, j - i);
  }

  lemma {:induction false} HopsSplit(net: map<string, Table>, at: string, dest: string, i: nat, k: nat)
    requires Hops(net, at, dest, i + k).Some?
    ensures Hops(net, at, dest, i).Some?
    ensures Hops(net, at, dest, i + k) == Hops(net, Hops(net, at, dest, i).value, dest, k)
    decreases i
  {
    if i > 0 {
      HopsSplit(net, net[at][dest], dest, i - 1, k);
    }
  }

  ghost predicate PassesOnce(net: map<string, Table>, at: string, dest: string, k: nat) {
    forall i, j :: 0 <= i < j <= k ==> Hops(net, at, dest, i) != Hops(net, at, dest, j)
  }

  lemma NoHostTwice(w: Weights, net: map<string, Table>, at: string, dest: string, k: nat)
    requires Mesh(w, net) && at in net && Dist(w, at, dest) < INT_MAX && Hops(net, at, dest, k).Some?
    ensures PassesOnce(net, at, dest, k)
  {
    forall i, j | 0 <= i < j <= k ensures Hops(net, at, dest, i) != Hops(net, at, dest, j) {
      HopsSplit(net, at, dest, j, k - j);
      LoopFree(w, net, at, dest, i, j);
    }
  }

  /** Two hosts that name each other as the next hop pass a request to and fro for ever. */
  lemma {:induction false} ToAndFro(net: map<string, Table>, a: string, b: string, dest: string, k: nat)
    requires a in net && b in net && dest in net[a] && dest in net[b] && dest != a && dest != b
    requires net[a][dest] == b && net[b][dest] == a
    ensures Hops(net, a, dest, k) == Some(if k % 2 == 0 then a else b)
    decreases k
  {
    if k > 0 {
      ToAndFro(net, b, a, dest, k - 1);
    }
  }

  /** A path none of whose links is failed. */
  ghost predicate Healthy(w: Weights, p: seq<string>) {
    forall i :: 0 < i < |p| ==> Weight(w, p[i - 1], p[i]) < INT_MAX - 1
  }

  /** Every link of a path weighs at most what the path weighs. */
  lemma {:induction false} LinkWithinPath(w: Weights, p: seq<string>, a: string, b: string, i: int)
    requires IsPath(w, p, a, b) && 0 < i < |p|
    ensures 0 < Weight(w, p[i - 1], p[i]) <= PathWeight(w, p)
    decreases |p|
  {
    PathWeightBound(w, p[..|p| - 1], a, p[|p| - 2]);
    if i < |p| - 1 {
      LinkWithinPath(w, p[..|p| - 1], a, p[|p| - 2], i);
    }
  }

  /** A failed link (weight INT_MAX - 1 or more) is never used towards a host that some path reaches
      below INT_MAX - 1; in particular towards a host reachable over healthy links of that total. */
  lemma NoFailedHop(w: Weights, net: map<string, Table>, at: string, dest: string, p: seq<string>)
    requires Mesh(w, net) && at in net && at != dest
    requires IsPath(w, p, at, dest) && PathWeight(w, p) < INT_MAX - 1
    ensures dest in net[at] && 0 < Weight(w, at, net[at][dest]) < INT_MAX - 1
    ensures exists q :: IsPath(w, q, net[at][dest], dest) && Healthy(w, q) && PathWeight(w, q) < INT_MAX - 1
  {
    DistMeaning(w, at, dest);
    ForwardDescends(w, net, at, dest);
    var next := net[at][dest];
    DistMeaning(w, next, dest);
    var q :| IsPath(w, q, next, dest) && PathWeight(w, q) == Dist(w, next, dest);
    forall i | 0 < i < |q| ensures Weight(w, q[i - 1], q[i]) < INT_MAX - 1 {
      LinkWithinPath(w, q, next, dest, i);
    }
    assert Healthy(w, q);
  }

  /** The whole way to such a host avoids failed links. */
  lemma {:induction false} NoFailedLinkOnTheWay(w: Weights, net: map<string, Table>, at: string, dest: string,
          p: seq<string>, k: nat)
    requires Mesh(w, net) && at in net
    requires IsPath(w, p, at, dest) && PathWeight(w, p) < INT_MAX - 1
    requires Hops(net, at, dest, k + 1).Some?
    ensures Hops(net, at, dest, k).Some?
    ensures 0 < Weight(w, Hops(net, at, dest, k).value, Hops(net, at, dest, k + 1).value) < INT_MAX - 1
    decreases k
  {
    assert at != dest;
    NoFailedHop(w, net, at, dest, p);
    DistMeaning(w, at, dest);
    if k > 0 {
      var next := net[at][dest];
      ForwardDescends(w, net, at, dest);
      var q :| IsPath(w, q, next, dest) && Healthy(w, q) && PathWeight(w, q) < INT_MAX - 1;
      NoFailedLinkOnTheWay(w, net, next, dest, q, k - 1);
    }
  }

  /** Failing or restoring the link between two hosts. */
  datatype Update = Fail(a: string, b: string) | Restore(a: string, b: string)

  predicate Names(u: Update, a: string, b: string) {
    (u.a == a && u.b == b) || (u.a == b && u.b == a)
  }

  function Apply(w: Weights, initial: Weights, u: Update): Weights {
    if u.Fail? then SetBoth(w, u.a, u.b, INT_MAX - 1) else RestoreBoth(w, initial, u.a, u.b)
  }

  function ApplyAll(initial: Weights, us: seq<Update>): Weights {
    if us == [] then initial else Apply(ApplyAll(initial, us[..|us| - 1]), initial, us[|us| - 1])
  }

  /** The last update that names the pair, if any. */
  function LastUpdate(us: seq<Update>, a: string, b: string): Option<Update> {
    if us == [] then None
    else if Names(us[|us| - 1], a, b) then Some(us[|us| - 1])
    else LastUpdate(us[..|us| - 1], a, b)
  }

  predicate LastFailed(us: seq<Update>, a: string, b: string) {
    LastUpdate(us, a, b).Some? && LastUpdate(us, a, b).value.Fail?
  }

  /** After any history of updates a link costs its configured weight, unless the last update that
      names it failed it: updates of other links do not matter and a restore undoes any number of failures. */
  lemma {:induction false} WeightAfterUpdates(initial: Weights, us: seq<Update>, a: string, b: string)
    requires a != b
    ensures Weight(ApplyAll(initial, us), a, b) ==
      match LastUpdate(us, a, b)
      case Some(Fail(_, _)) => INT_MAX - 1
      case _ => Weight(initial, a, b)
  {
    if us != [] {
      WeightAfterUpdates(initial, us[..|us| - 1], a, b);
    }
  }
}
