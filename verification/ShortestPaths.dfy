/** The search behind Map::getRoute, on values: what one pass of the outer loop
    does to the three vectors, and why the final vectors hold least weights.

    Additions are 32-bit. The C++ standard leaves signed overflow undefined; here
    it wraps in two's complement. `Safe` is the exact condition under which no
    addition that the search performs overflows.
 */
module ShortestPaths {
  import opened Basics
  import opened Graphs

  /** One cell of the host matrix (Map.hpp). */
  datatype Line = Line(segment: int, weight: int32, initWeight: int32)

  /** The host matrix together with the name of each row. */
  datatype Mesh = Mesh(names: seq<string>, links: seq<seq<Line>>)

  /** The vectors `visited`, `distance` and `parent`. */
  datatype Search = Search(visited: seq<bool>, distance: seq<int32>, parent: seq<int>)

  ghost predicate Distinct(names: seq<string>) {
    forall i, j :: 0 <= i < j < |names| ==> names[i] != names[j]
  }

  ghost predicate WellFormed(m: Mesh) {
    && 0 < |m.names| == |m.links|
    && (forall i :: 0 <= i < |m.links| ==> |m.links[i]| == |m.names|)
    && Distinct(m.names)
  }

  ghost function Index(names: seq<string>, a: string): (i: int)
    requires a in names
    ensures 0 <= i < |names| && names[i] == a
  {
    var i :| 0 <= i < |names| && names[i] == a; i
  }

  /** The graph that a matrix stands for; the diagonal carries no link. */
  ghost function WeightsOf(m: Mesh): Weights
    requires WellFormed(m)
  {
    map a, b | a in m.names && b in m.names && a != b ::
      (a, b) := m.links[Index(m.names, a)][Index(m.names, b)].weight
  }

  lemma WeightAt(m: Mesh, i: int, j: int)
    requires WellFormed(m) && 0 <= i < |m.names| && 0 <= j < |m.names| && i != j
    ensures Weight(WeightsOf(m), m.names[i], m.names[j]) == m.links[i][j].weight
  {
    assert Index(m.names, m.names[i]) == i && Index(m.names, m.names[j]) == j;
  }

  lemma LinkedNames(m: Mesh, a: string, b: string)
    requires WellFormed(m) && Weight(WeightsOf(m), a, b) > 0
    ensures a in m.names && b in m.names && a != b
  {
    assert (a, b) in WeightsOf(m);
  }

  function Link(m: Mesh, i: int, j: int): int
    requires 0 <= i < |m.links| && 0 <= j < |m.links[i]|
  {
    m.links[i][j].weight
  }

  /** The least weight from the local host (row 0) to row `i`. */
  ghost function D(m: Mesh, i: int): int
    requires WellFormed(m) && 0 <= i < |m.names|
  {
    Dist(WeightsOf(m), m.names[0], m.names[i])
  }

  lemma RowReached(m: Mesh, d: string) returns (i: int)
    requires WellFormed(m) && d != m.names[0] && Dist(WeightsOf(m), m.names[0], d) < INT_MAX
    ensures 0 < i < |m.names| && m.names[i] == d
  {
    var c := LastLink(WeightsOf(m), m.names[0], d);
    LinkedNames(m, c, d);
    i := NamedRow(m.names, d);
  }

  lemma NamedRow(names: seq<string>, d: string) returns (i: int)
    requires d in names && d != names[0]
    ensures 0 < i < |names| && names[i] == d
  {
    i := Index(names, d);
  }

  function Wrap32(x: int): int32 {
    (x + 0x8000_0000) % 0x1_0000_0000 - 0x8000_0000
  }

  /** `u` is settled before `v`: nearer, or equally near with a smaller row number. */
  ghost predicate Sooner(m: Mesh, u: int, v: int)
    requires WellFormed(m) && 0 <= u < |m.names| && 0 <= v < |m.names|
  {
    D(m, u) < D(m, v) || (D(m, u) == D(m, v) && u < v)
  }

  /** Settling `u` relaxes `v` with a sum that does not fit 32 bits. */
  ghost predicate Overflows(m: Mesh, u: int, v: int)
    requires WellFormed(m) && 0 <= u < |m.names| && 0 <= v < |m.names|
  {
    u != v && D(m, u) < INT_MAX && Link(m, u, v) > 0 && D(m, u) + Link(m, u, v) > INT_MAX && Sooner(m, u, v)
  }

  ghost predicate Safe(m: Mesh)
    requires WellFormed(m)
  {
    forall u, v :: 0 <= u < |m.names| && 0 <= v < |m.names| ==> !Overflows(m, u, v)
  }

  ghost predicate Shape(m: Mesh, t: Search) {
    |t.visited| == |t.distance| == |t.parent| == |m.names|
  }

  function Start(n: nat): Search
    requires n > 0
  {
    Search(seq(n, _ => false), seq(n, _ => INT_MAX)[0 := 0], seq(n, _ => -1)[0 := -1])
  }

  ghost predicate Improves(m: Mesh, t: Search, u: int, i: int)
    requires WellFormed(m) && Shape(m, t) && 0 <= u < |m.names| && 0 <= i < |m.names|
  {
    !t.visited[i] && Link(m, u, i) > 0 && Wrap32(t.distance[u] + Link(m, u, i)) < t.distance[i]
  }

  ghost function NewDistance(m: Mesh, t: Search, u: int, i: int): int32
    requires WellFormed(m) && Shape(m, t) && 0 <= u < |m.names| && 0 <= i < |m.names|
  {
    if i != u && Improves(m, t, u, i) then Wrap32(t.distance[u] + Link(m, u, i)) else t.distance[i]
  }

  ghost function NewParent(m: Mesh, t: Search, u: int, i: int): int
    requires WellFormed(m) && Shape(m, t) && 0 <= u < |m.names| && 0 <= i < |m.names|
  {
    if i != u && Improves(m, t, u, i) then u else t.parent[i]
  }

  ghost predicate SettlesAt(m: Mesh, t: Search, u: int, t': Search, i: int)
    requires WellFormed(m) && Shape(m, t) && Shape(m, t') && 0 <= u < |m.names| && 0 <= i < |m.names|
  {
    && t'.visited[i] == (t.visited[i] || i == u)
    && t'.distance[i] == NewDistance(m, t, u, i)
    && t'.parent[i] == NewParent(m, t, u, i)
  }

  /** Marking `u` and relaxing every link that leaves it. */
  ghost predicate Settles(m: Mesh, t: Search, u: int, t': Search)
    requires WellFormed(m) && Shape(m, t) && 0 <= u < |m.names|
  {
    && Shape(m, t')
    && forall i :: 0 <= i < |m.names| ==> SettlesAt(m, t, u, t', i)
  }

  ghost predicate NotNearer(t: Search, u: int, v: int)
    requires |t.visited| == |t.distance| && 0 <= u < |t.visited| && 0 <= v < |t.visited|
  {
    t.visited[v] || t.distance[u] < t.distance[v] || (t.distance[u] == t.distance[v] && u <= v)
  }

  /** `u` is the first unvisited row of minimal distance below INT_MAX. */
  ghost predicate Nearest(t: Search, u: int)
    requires |t.visited| == |t.distance|
  {
    && 0 <= u < |t.visited|
    && !t.visited[u] && t.distance[u] < INT_MAX
    && forall v :: 0 <= v < |t.visited| ==> NotNearer(t, u, v)
  }

  /** The parent of a visited row was visited before it; `rank` is the order of visiting. */
  ghost predicate RootedAt(m: Mesh, t: Search, rank: seq<nat>, count: nat, i: int)
    requires Shape(m, t) && |rank| == |m.names| && 0 <= i < |m.names|
  {
    var p := t.parent[i];
    && (t.visited[i] ==> rank[i] < count)
    && (i == 0 ==> p == -1)
    && (i != 0 && p == -1 ==> t.distance[i] == INT_MAX && !t.visited[i])
    && (p != -1 ==> 0 <= p < |m.names| && t.visited[p] && (t.visited[i] ==> rank[p] < rank[i]))
  }

  /** Parents of visited rows form a tree below row 0. */
  ghost predicate Rooted(m: Mesh, t: Search, rank: seq<nat>, count: nat) {
    && Shape(m, t) && |rank| == |m.names| && 0 < |m.names|
    && (forall i :: 0 <= i < |m.names| ==> RootedAt(m, t, rank, count, i))
    && (t.visited[0] || t == Start(|m.names|))
  }

  /** Every reached row hangs below its parent by a link, at the sum of the two. */
  ghost predicate Hung(m: Mesh, t: Search, i: int)
    requires WellFormed(m) && Shape(m, t) && 0 <= i < |m.names|
  {
    var p := t.parent[i];
    p != -1 ==>
      && 0 <= p < |m.names| && p != i && Link(m, p, i) > 0
      && t.distance[i] == t.distance[p] + Link(m, p, i) < INT_MAX
  }

  /** The visited row `i` precedes the open row `j`. */
  ghost predicate InOrder(m: Mesh, t: Search, i: int, j: int)
    requires Shape(m, t) && 0 <= i < |m.names| && 0 <= j < |m.names|
  {
    t.visited[i] && !t.visited[j] ==>
      t.distance[i] < t.distance[j] || (t.distance[i] == t.distance[j] && i < j)
  }

  /** The link from the visited row `i` to `j` has been relaxed, and without overflow. */
  ghost predicate Relaxed(m: Mesh, t: Search, i: int, j: int)
    requires WellFormed(m) && Shape(m, t) && 0 <= i < |m.names| && 0 <= j < |m.names|
  {
    i != j && t.visited[i] && Link(m, i, j) > 0 ==>
      && t.distance[j] <= t.distance[i] + Link(m, i, j)
      && (t.distance[i] + Link(m, i, j) > INT_MAX ==>
            t.visited[j] && (t.distance[j] < t.distance[i] || (t.distance[j] == t.distance[i] && j < i)))
  }

  /** What holds as long as no addition has overflowed. */
  ghost predicate Sound(m: Mesh, t: Search, rank: seq<nat>, count: nat)
    requires WellFormed(m)
  {
    && Rooted(m, t, rank, count)
    && t.distance[0] == 0
    && (forall i :: 0 <= i < |m.names| ==> 0 <= t.distance[i] && Hung(m, t, i))
    && (forall i, j :: 0 <= i < |m.names| && 0 <= j < |m.names| ==> InOrder(m, t, i, j))
    && (forall i, j :: 0 <= i < |m.names| && 0 <= j < |m.names| ==> Relaxed(m, t, i, j))
  }

  /** The rows in `good` carry their least weight and hang below row 0 by links of that weight. */
  ghost predicate LeastTree(m: Mesh, t: Search, rank: seq<nat>, good: set<int>)
    requires WellFormed(m) && Shape(m, t) && |rank| == |m.names|
  {
    forall i :: i in good ==> LeafOf(m, t, rank, good, i)
  }

  ghost predicate LeafOf(m: Mesh, t: Search, rank: seq<nat>, good: set<int>, i: int)
    requires WellFormed(m) && Shape(m, t) && |rank| == |m.names|
  {
    && 0 <= i < |m.names| && t.visited[i]
    && t.distance[i] == D(m, i) < INT_MAX
    && (i != 0 ==>
          var p := t.parent[i];
          && p in good && 0 <= p < |m.names| && p != i && Link(m, p, i) > 0
          && D(m, i) == D(m, p) + Link(m, p, i) && rank[p] < rank[i])
  }

  ghost function Visited(t: Search): set<int> {
    set i | 0 <= i < |t.visited| && t.visited[i]
  }

  lemma {:induction false} TreePath(m: Mesh, t: Search, rank: seq<nat>, count: nat, i: int) returns (p: seq<string>)
    requires WellFormed(m) && Sound(m, t, rank, count)
    requires 0 <= i < |m.names| && (i == 0 || t.parent[i] != -1)
    ensures IsPath(WeightsOf(m), p, m.names[0], m.names[i])
    ensures PathWeight(WeightsOf(m), p) == t.distance[i]
    decreases if t.visited[i] then rank[i] else count + 1
  {
    assert RootedAt(m, t, rank, count, i) && Hung(m, t, i);
    if i == 0 {
      p := [m.names[0]];
    } else {
      assert RootedAt(m, t, rank, count, t.parent[i]);
      var q := TreePath(m, t, rank, count, t.parent[i]);
      WeightAt(m, t.parent[i], i);
      PathSnoc(WeightsOf(m), q, m.names[0], m.names[t.parent[i]], m.names[i]);
      p := q + [m.names[i]];
    }
  }

  ghost predicate Splits(m: Mesh, t: Search, bound: int, j: int)
    requires Shape(m, t) && 0 <= j < |m.names|
  {
    if t.visited[j] then t.distance[j] <= bound else bound <= t.distance[j]
  }

  /** No path undercuts a settled row, and no path to an open row beats the nearest open row. */
  lemma {:induction false} LowerBound(m: Mesh, t: Search, rank: seq<nat>, count: nat, bound: int, p: seq<string>,
          i: int)
    requires WellFormed(m) && Sound(m, t, rank, count)
    requires forall j :: 0 <= j < |m.names| ==> Splits(m, t, bound, j)
    requires 0 <= i < |m.names| && IsPath(WeightsOf(m), p, m.names[0], m.names[i])
    ensures PathWeight(WeightsOf(m), p) >= t.distance[i] || PathWeight(WeightsOf(m), p) > bound
    decreases |p|
  {
    var w := WeightsOf(m);
    if |p| == 1 {
      assert i == 0;
    } else {
      var b := p[|p| - 2];
      var j := Index(m.names, b);
      LowerBound(m, t, rank, count, bound, p[..|p| - 1], j);
      WeightAt(m, j, i);
      assert Splits(m, t, bound, i) && Splits(m, t, bound, j) && Relaxed(m, t, j, i);
    }
  }

  /** The least weight of an open row is its distance, or lies beyond the nearest open row. */
  lemma OpenBound(m: Mesh, t: Search, rank: seq<nat>, count: nat, u: int, v: int)
    requires WellFormed(m) && Sound(m, t, rank, count) && Nearest(t, u)
    requires 0 <= v < |m.names|
    ensures D(m, v) >= t.distance[v] || D(m, v) > t.distance[u]
  {
    var w := WeightsOf(m);
    forall j | 0 <= j < |m.names| ensures Splits(m, t, t.distance[u], j) {
      assert InOrder(m, t, j, u) && NotNearer(t, u, j);
    }
    DistMeaning(w, m.names[0], m.names[v]);
    if D(m, v) < INT_MAX {
      var p :| IsPath(w, p, m.names[0], m.names[v]) && PathWeight(w, p) == D(m, v);
      LowerBound(m, t, rank, count, t.distance[u], p, v);
    }
  }

  /** The row that the scan picks carries its least weight, and every other open row comes later. */
  lemma PickIsLeast(m: Mesh, t: Search, rank: seq<nat>, count: nat, u: int)
    requires WellFormed(m) && Sound(m, t, rank, count) && Nearest(t, u)
    ensures D(m, u) == t.distance[u]
    ensures forall v :: 0 <= v < |m.names| && !t.visited[v] && v != u ==> Sooner(m, u, v)
  {
    OpenBound(m, t, rank, count, u, u);
    assert RootedAt(m, t, rank, count, u);
    var p := TreePath(m, t, rank, count, u);
    DistMeaning(WeightsOf(m), m.names[0], m.names[u]);
    forall v | 0 <= v < |m.names| && !t.visited[v] && v != u ensures Sooner(m, u, v) {
      OpenBound(m, t, rank, count, u, v);
      assert NotNearer(t, u, v);
    }
  }

  /** A pass from `u` whose additions all fit 32 bits. */
  ghost predicate Fits(m: Mesh, t: Search, u: int)
    requires WellFormed(m) && Shape(m, t) && 0 <= u < |m.names|
  {
    forall v :: 0 <= v < |m.names| ==> FitsAt(m, t, u, v)
  }

  ghost predicate FitsAt(m: Mesh, t: Search, u: int, v: int)
    requires WellFormed(m) && Shape(m, t) && 0 <= u < |m.names| && 0 <= v < |m.names|
  {
    !t.visited[v] && v != u && Link(m, u, v) > 0 ==> t.distance[u] + Link(m, u, v) <= INT_MAX
  }

  lemma SettleHung(m: Mesh, t: Search, rank: seq<nat>, count: nat, u: int, t': Search, i: int)
    requires WellFormed(m) && Sound(m, t, rank, count) && Nearest(t, u) && Settles(m, t, u, t') && Fits(m, t, u)
    requires 0 <= i < |m.names|
    ensures 0 <= t'.distance[i] && Hung(m, t', i) && t'.distance[0] == 0
  {
    assert Hung(m, t, i) && SettlesAt(m, t, u, t', i) && SettlesAt(m, t, u, t', u) && FitsAt(m, t, u, i);
    assert RootedAt(m, t, rank, count, i);
    var p := t.parent[i];
    if p != -1 {
      assert SettlesAt(m, t, u, t', p);
    }
    assert SettlesAt(m, t, u, t', 0);
  }

  lemma SettleOrdered(m: Mesh, t: Search, rank: seq<nat>, count: nat, u: int, t': Search, i: int, j: int)
    requires WellFormed(m) && Sound(m, t, rank, count) && Nearest(t, u) && Settles(m, t, u, t') && Fits(m, t, u)
    requires 0 <= i < |m.names| && 0 <= j < |m.names|
    ensures InOrder(m, t', i, j)
  {
    assert InOrder(m, t, i, j) && InOrder(m, t, i, u) && NotNearer(t, u, j) && FitsAt(m, t, u, j);
    assert SettlesAt(m, t, u, t', i) && SettlesAt(m, t, u, t', j);
  }

  lemma SettleRelaxed(m: Mesh, t: Search, rank: seq<nat>, count: nat, u: int, t': Search, i: int, j: int)
    requires WellFormed(m) && Sound(m, t, rank, count) && Nearest(t, u) && Settles(m, t, u, t') && Fits(m, t, u)
    requires 0 <= i < |m.names| && 0 <= j < |m.names|
    ensures Relaxed(m, t', i, j)
  {
    assert Relaxed(m, t, i, j) && InOrder(m, t, i, j) && InOrder(m, t, j, u) && InOrder(m, t, i, u);
    assert NotNearer(t, u, j) && FitsAt(m, t, u, j);
    assert SettlesAt(m, t, u, t', i) && SettlesAt(m, t, u, t', j);
  }

  /** A pass without overflow keeps `Sound`. */
  lemma SettleSound(m: Mesh, t: Search, rank: seq<nat>, count: nat, u: int, t': Search)
    requires WellFormed(m) && Sound(m, t, rank, count) && Nearest(t, u) && Settles(m, t, u, t') && Fits(m, t, u)
    ensures Sound(m, t', rank[u := count], count + 1)
  {
    SettleRooted(m, t, rank, count, u, t');
    forall i | 0 <= i < |m.names| ensures 0 <= t'.distance[i] && Hung(m, t', i) && t'.distance[0] == 0 {
      SettleHung(m, t, rank, count, u, t', i);
    }
    forall i, j | 0 <= i < |m.names| && 0 <= j < |m.names| ensures InOrder(m, t', i, j) && Relaxed(m, t', i, j) {
      SettleOrdered(m, t, rank, count, u, t', i, j);
      SettleRelaxed(m, t, rank, count, u, t', i, j);
    }
    assert t'.distance[0] == 0 by { SettleHung(m, t, rank, count, u, t', 0); }
  }

  lemma SettleRootedAt(m: Mesh, t: Search, rank: seq<nat>, count: nat, u: int, t': Search,
                       rank': seq<nat>, count': nat, i: int)
    requires WellFormed(m) && Rooted(m, t, rank, count) && Nearest(t, u) && Settles(m, t, u, t')
    requires rank' == rank[u := count] && count' == count + 1 && 0 <= i < |m.names|
    ensures RootedAt(m, t', rank', count', i)
  {
    assert NotNearer(t, u, 0);
    assert RootedAt(m, t, rank, count, i) && SettlesAt(m, t, u, t', i) && RootedAt(m, t, rank, count, u);
    var p := t.parent[i];
    if p != -1 {
      assert SettlesAt(m, t, u, t', p) && RootedAt(m, t, rank, count, p);
    }
    assert SettlesAt(m, t, u, t', u);
  }

  /** Any pass keeps the parents rooted. */
  lemma SettleRooted(m: Mesh, t: Search, rank: seq<nat>, count: nat, u: int, t': Search)
    requires WellFormed(m) && Rooted(m, t, rank, count) && Nearest(t, u) && Settles(m, t, u, t')
    ensures Rooted(m, t', rank[u := count], count + 1)
  {
    var rank', count' := rank[u := count], count + 1;
    assert NotNearer(t, u, 0);
    forall i | 0 <= i < |m.names| ensures RootedAt(m, t', rank', count', i) {
      SettleRootedAt(m, t, rank, count, u, t', rank', count', i);
    }
    assert SettlesAt(m, t, u, t', 0);
  }

  /** Rows settled before keep their place in the tree of least weights. */
  lemma SettleKeepsLeastTree(m: Mesh, t: Search, rank: seq<nat>, good: set<int>, u: int, t': Search, count: nat)
    requires WellFormed(m) && Shape(m, t) && |rank| == |m.names| && LeastTree(m, t, rank, good)
    requires Nearest(t, u) && Settles(m, t, u, t')
    ensures LeastTree(m, t', rank[u := count], good)
  {
    forall i | i in good ensures LeafOf(m, t', rank[u := count], good, i) {
      assert LeafOf(m, t, rank, good, i) && SettlesAt(m, t, u, t', i);
      if i != 0 {
        assert LeafOf(m, t, rank, good, t.parent[i]);
      }
    }
  }

  lemma SettleGrowsLeastTree(m: Mesh, t: Search, rank: seq<nat>, count: nat, u: int, t': Search)
    requires WellFormed(m) && Sound(m, t, rank, count) && Nearest(t, u) && Settles(m, t, u, t')
    requires LeastTree(m, t, rank, Visited(t))
    ensures Visited(t') == Visited(t) + {u}
    ensures LeastTree(m, t', rank[u := count], Visited(t'))
  {
    PickIsLeast(m, t, rank, count, u);
    SettleKeepsLeastTree(m, t, rank, Visited(t), u, t', count);
    forall i | 0 <= i < |m.names| ensures t'.visited[i] == (t.visited[i] || i == u) {
      assert SettlesAt(m, t, u, t', i);
    }
    forall i | i in Visited(t') ensures LeafOf(m, t', rank[u := count], Visited(t'), i) {
      if i == u {
        assert Hung(m, t, u) && RootedAt(m, t, rank, count, u) && SettlesAt(m, t, u, t', u);
        if u != 0 {
          assert LeafOf(m, t, rank, Visited(t), t.parent[u]);
          assert RootedAt(m, t, rank, count, t.parent[u]);
        }
      } else {
        assert LeafOf(m, t', rank[u := count], Visited(t), i);
      }
    }
  }

  /** The first overflow: `u` has just been settled and every negative distance comes from relaxing `u`. */
  ghost predicate Poisoned(m: Mesh, t: Search, u: int)
    requires WellFormed(m) && Shape(m, t) && 0 <= u < |m.names|
  {
    && (exists v :: 0 <= v < |m.names| && !t.visited[v] && t.distance[v] < 0)
    && (forall v :: 0 <= v < |m.names| && t.distance[v] < 0 ==> !t.visited[v] && t.parent[v] == u && Overflows(m, u, v))
  }

  /** `v` was settled through a link whose relaxation overflowed, at a negative distance. */
  ghost predicate Captured(m: Mesh, t: Search, u: int, v: int)
    requires WellFormed(m) && Shape(m, t) && 0 <= u < |m.names|
  {
    0 <= v < |m.names| && t.visited[v] && t.distance[v] < 0 && t.parent[v] == u && Overflows(m, u, v)
  }

  lemma WrapMeaning(x: int)
    requires 0 <= x <= 2 * INT_MAX
    ensures Wrap32(x) == if x <= INT_MAX then x else x - 0x1_0000_0000
  {
  }

  lemma SettlePoisonsAt(m: Mesh, t: Search, rank: seq<nat>, count: nat, u: int, t': Search, i: int)
    requires WellFormed(m) && Sound(m, t, rank, count) && Nearest(t, u) && Settles(m, t, u, t')
    requires 0 <= i < |m.names| && Shape(m, t')
    ensures t'.distance[i] < 0 <==> !FitsAt(m, t, u, i)
    ensures !FitsAt(m, t, u, i) ==> !t'.visited[i] && t'.parent[i] == u
  {
    assert SettlesAt(m, t, u, t', i) && Hung(m, t, i) && 0 <= t.distance[i] && 0 <= t.distance[u];
    if i != u && !t.visited[i] && Link(m, u, i) > 0 {
      WrapMeaning(t.distance[u] + Link(m, u, i));
    }
  }

  lemma SettlePoisons(m: Mesh, t: Search, rank: seq<nat>, count: nat, u: int, t': Search)
    requires WellFormed(m) && Sound(m, t, rank, count) && Nearest(t, u) && Settles(m, t, u, t') && !Fits(m, t, u)
    ensures Poisoned(m, t', u)
  {
    PickIsLeast(m, t, rank, count, u);
    var v :| 0 <= v < |m.names| && !FitsAt(m, t, u, v);
    forall i | 0 <= i < |m.names|
      ensures t'.distance[i] < 0 <==> !FitsAt(m, t, u, i)
      ensures !FitsAt(m, t, u, i) ==> !t'.visited[i] && t'.parent[i] == u && Overflows(m, u, i)
    {
      SettlePoisonsAt(m, t, rank, count, u, t', i);
    }
    assert t'.distance[v] < 0;
  }

  lemma SettleCaptures(m: Mesh, t: Search, u: int, x: int, t': Search)
    requires WellFormed(m) && Shape(m, t) && 0 <= u < |m.names| && Poisoned(m, t, u)
    requires Nearest(t, x) && Settles(m, t, x, t')
    ensures Captured(m, t', u, x)
  {
    var v :| 0 <= v < |m.names| && !t.visited[v] && t.distance[v] < 0;
    assert NotNearer(t, x, v) && SettlesAt(m, t, x, t', x);
  }

  lemma SettleKeepsCapture(m: Mesh, t: Search, u: int, v: int, x: int, t': Search)
    requires WellFormed(m) && Shape(m, t) && 0 <= u < |m.names| && Captured(m, t, u, v)
    requires Nearest(t, x) && Settles(m, t, x, t')
    ensures Captured(m, t', u, v)
  {
    assert SettlesAt(m, t, x, t', v);
  }

  /** The stage of a run: nothing overflowed yet, the first overflow just happened, or its victim is settled. */
  datatype Stage = Clean | Spoiled(culprit: int) | Lost(culprit: int, victim: int)

  ghost predicate Run(m: Mesh, t: Search, rank: seq<nat>, count: nat, good: set<int>, stage: Stage)
    requires WellFormed(m)
  {
    && Rooted(m, t, rank, count)
    && LeastTree(m, t, rank, good)
    && match stage
       case Clean => Sound(m, t, rank, count) && good == Visited(t)
       case Spoiled(u) => u in good && 0 <= u < |m.names| && Poisoned(m, t, u)
       case Lost(u, v) => u in good && 0 <= u < |m.names| && Captured(m, t, u, v)
  }

  ghost function NextStage(m: Mesh, t: Search, u: int, stage: Stage): Stage
    requires WellFormed(m) && Shape(m, t) && Nearest(t, u)
  {
    match stage
    case Clean => if Fits(m, t, u) then Clean else Spoiled(u)
    case Spoiled(c) => Lost(c, u)
    case Lost(_, _) => stage
  }

  ghost function NextGood(good: set<int>, u: int, stage: Stage): set<int> {
    if stage.Clean? then good + {u} else good
  }

  /** Every pass of the outer loop, from any state the search can be in. */
  lemma RunStep(m: Mesh, t: Search, rank: seq<nat>, count: nat, good: set<int>, stage: Stage, u: int, t': Search)
    requires WellFormed(m) && Run(m, t, rank, count, good, stage) && Nearest(t, u) && Settles(m, t, u, t')
    ensures Run(m, t', rank[u := count], count + 1, NextGood(good, u, stage), NextStage(m, t, u, stage))
  {
    SettleRooted(m, t, rank, count, u, t');
    SettleKeepsLeastTree(m, t, rank, good, u, t', count);
    match stage
    case Clean =>
      SettleGrowsLeastTree(m, t, rank, count, u, t');
      if Fits(m, t, u) {
        SettleSound(m, t, rank, count, u, t');
      } else {
        SettlePoisons(m, t, rank, count, u, t');
      }
    case Spoiled(c) => SettleCaptures(m, t, c, u, t');
    case Lost(c, v) => SettleKeepsCapture(m, t, c, v, u, t');
  }

  /** The vectors hold the least weights: a row is visited iff it can be reached below INT_MAX. */
  ghost predicate Correct(m: Mesh, t: Search)
    requires WellFormed(m) && Shape(m, t)
  {
    forall i :: 0 <= i < |m.names| ==> t.distance[i] == D(m, i) && (t.visited[i] <==> D(m, i) < INT_MAX)
  }

  /** Every visited row but row 0 hangs below a visited row that is nearer by the weight of their link;
      row 0 and the rows that were not visited have no parent. */
  ghost predicate DecreasingTree(m: Mesh, t: Search)
    requires WellFormed(m) && Shape(m, t)
  {
    && t.parent[0] == -1
    && forall i :: 0 < i < |m.names| ==> Below(m, t, i)
  }

  ghost predicate Below(m: Mesh, t: Search, i: int)
    requires WellFormed(m) && Shape(m, t) && 0 <= i < |m.names|
  {
    var p := t.parent[i];
    if !t.visited[i] then p == -1
    else
      && 0 <= p < |m.names| && t.visited[p] && Link(m, p, i) > 0
      && t.distance[p] == t.distance[i] - Link(m, p, i) < t.distance[i]
  }

  /** A sound search that is exhausted has built such a tree. */
  lemma TreeEnd(m: Mesh, t: Search, rank: seq<nat>, count: nat)
    requires WellFormed(m) && Sound(m, t, rank, count) && Exhausted(t)
    ensures DecreasingTree(m, t)
  {
    assert RootedAt(m, t, rank, count, 0);
    forall i | 0 < i < |m.names| ensures Below(m, t, i) {
      assert RootedAt(m, t, rank, count, i) && Hung(m, t, i);
    }
  }

  ghost predicate Exhausted(t: Search)
    requires |t.visited| == |t.distance|
  {
    forall v :: 0 <= v < |t.visited| && !t.visited[v] ==> t.distance[v] == INT_MAX
  }

  lemma CleanEnd(m: Mesh, t: Search, rank: seq<nat>, count: nat)
    requires WellFormed(m) && Sound(m, t, rank, count) && Exhausted(t)
    requires LeastTree(m, t, rank, Visited(t))
    ensures Correct(m, t) && Safe(m)
  {
    forall i | 0 <= i < |m.names| ensures t.distance[i] == D(m, i) && (t.visited[i] <==> D(m, i) < INT_MAX) {
      if t.visited[i] {
        assert LeafOf(m, t, rank, Visited(t), i);
      } else {
        forall j | 0 <= j < |m.names| ensures Splits(m, t, INT_MAX, j) {
        }
        DistMeaning(WeightsOf(m), m.names[0], m.names[i]);
        if D(m, i) < INT_MAX {
          var p :| IsPath(WeightsOf(m), p, m.names[0], m.names[i]) && PathWeight(WeightsOf(m), p) == D(m, i);
          LowerBound(m, t, rank, count, INT_MAX, p, i);
        }
      }
    }
    forall u, v | 0 <= u < |m.names| && 0 <= v < |m.names| ensures !Overflows(m, u, v) {
      assert Relaxed(m, t, u, v);
    }
  }

  /** When the scan finds no row, the vectors are right if and only if no performed addition overflows,
      and the parents then form a tree along which the distances decrease. */
  lemma RunEnd(m: Mesh, t: Search, rank: seq<nat>, count: nat, good: set<int>, stage: Stage)
    requires WellFormed(m) && Run(m, t, rank, count, good, stage) && Exhausted(t)
    ensures Safe(m) <==> Correct(m, t)
    ensures Safe(m) ==> DecreasingTree(m, t)
    ensures Safe(m) <==> stage.Clean?
    ensures stage.Clean? || stage.Lost?
  {
    match stage
    case Clean =>
      CleanEnd(m, t, rank, count);
      TreeEnd(m, t, rank, count);
    case Spoiled(c) =>
    case Lost(c, v) =>
      assert Overflows(m, c, v);
      DistMeaning(WeightsOf(m), m.names[0], m.names[v]);
  }

  lemma RunStart(m: Mesh, rank: seq<nat>)
    requires WellFormed(m) && |rank| == |m.names|
    ensures Run(m, Start(|m.names|), rank, 0, {}, Clean)
  {
    var t := Start(|m.names|);
    forall i | 0 <= i < |m.names| ensures RootedAt(m, t, rank, 0, i) && Hung(m, t, i) {
    }
    forall i, j | 0 <= i < |m.names| && 0 <= j < |m.names| ensures InOrder(m, t, i, j) && Relaxed(m, t, i, j) {
    }
    assert Visited(t) == {};
  }

  /** What is said about a run of the search besides its vectors. */
  datatype Trace = Trace(rank: seq<nat>, count: nat, good: set<int>, stage: Stage)

  ghost predicate Traced(m: Mesh, t: Search, s: Trace)
    requires WellFormed(m)
  {
    Run(m, t, s.rank, s.count, s.good, s.stage)
  }

  ghost function Extend(m: Mesh, t: Search, s: Trace, u: int): Trace
    requires WellFormed(m) && Traced(m, t, s) && Nearest(t, u)
  {
    Trace(s.rank[u := s.count], s.count + 1, NextGood(s.good, u, s.stage), NextStage(m, t, u, s.stage))
  }

  ghost function Open(t: Search): set<int> {
    set i | 0 <= i < |t.visited| && !t.visited[i]
  }

  lemma TracedStep(m: Mesh, t: Search, s: Trace, u: int, t': Search)
    requires WellFormed(m) && Traced(m, t, s) && Nearest(t, u) && Settles(m, t, u, t')
    ensures Traced(m, t', Extend(m, t, s, u))
  {
    var s' := Extend(m, t, s, u);
    RunStepTo(m, t, s.rank, s.count, s.good, s.stage, u, t', s'.rank, s'.count, s'.good, s'.stage);
  }

  lemma RunStepTo(m: Mesh, t: Search, rank: seq<nat>, count: nat, good: set<int>, stage: Stage, u: int, t': Search,
                  rank': seq<nat>, count': nat, good': set<int>, stage': Stage)
    requires WellFormed(m) && Run(m, t, rank, count, good, stage) && Nearest(t, u) && Settles(m, t, u, t')
    requires rank' == rank[u := count] && count' == count + 1
    requires good' == NextGood(good, u, stage) && stage' == NextStage(m, t, u, stage)
    ensures Run(m, t', rank', count', good', stage')
  {
    RunStep(m, t, rank, count, good, stage, u, t');
  }

  lemma SettleCloses(m: Mesh, t: Search, u: int, t': Search)
    requires WellFormed(m) && Shape(m, t) && Nearest(t, u) && Settles(m, t, u, t')
    ensures Open(t') < Open(t)
  {
    forall i | 0 <= i < |m.names| ensures t'.visited[i] == (t.visited[i] || i == u) {
      assert SettlesAt(m, t, u, t', i);
    }
    assert u in Open(t) && u !in Open(t');
  }

  /** The visited row right below row 0 on the way up from `i`. */
  ghost function FirstHop(m: Mesh, t: Search, s: Trace, i: int): (h: int)
    requires WellFormed(m) && Rooted(m, t, s.rank, s.count) && 0 < i < |m.names| && t.visited[i]
    ensures 0 < h < |m.names|
    decreases s.rank[i]
  {
    assert RootedAt(m, t, s.rank, s.count, i);
    var p := t.parent[i];
    assert RootedAt(m, t, s.rank, s.count, p);
    if p == 0 then i else FirstHop(m, t, s, p)
  }

  /** Below a settled row the tree follows a least-weight path. */
  lemma {:induction false} FirstHopPath(m: Mesh, t: Search, s: Trace, i: int) returns (q: seq<string>)
    requires WellFormed(m) && Traced(m, t, s) && i in s.good && i != 0
    ensures 0 < i < |m.names| && t.visited[i]
    ensures var h := FirstHop(m, t, s, i);
      && Link(m, 0, h) > 0
      && IsPath(WeightsOf(m), q, m.names[h], m.names[i])
      && Link(m, 0, h) + PathWeight(WeightsOf(m), q) == D(m, i)
    decreases if 0 <= i < |m.names| then s.rank[i] else 0
  {
    assert LeafOf(m, t, s.rank, s.good, i);
    var p := t.parent[i];
    assert LeafOf(m, t, s.rank, s.good, p);
    var w := WeightsOf(m);
    if p == 0 {
      DistSelf(w, m.names[0]);
      q := [m.names[i]];
    } else {
      var r := FirstHopPath(m, t, s, p);
      var h := FirstHop(m, t, s, p);
      WeightAt(m, p, i);
      PathSnoc(w, r, m.names[h], m.names[p], m.names[i]);
      q := r + [m.names[i]];
    }
  }

  lemma FirstHopIsLeast(m: Mesh, t: Search, s: Trace, i: int)
    requires WellFormed(m) && Traced(m, t, s) && i in s.good && i != 0
    ensures 0 < i < |m.names| && t.visited[i]
    ensures FirstHopTo(WeightsOf(m), m.names[0], m.names[FirstHop(m, t, s, i)], m.names[i])
  {
    var q := FirstHopPath(m, t, s, i);
    var h := FirstHop(m, t, s, i);
    assert LeafOf(m, t, s.rank, s.good, i);
    WeightAt(m, 0, h);
    FirstHopFromPath(WeightsOf(m), m.names[0], m.names[h], m.names[i], q);
  }

  /** A captured row is routed like the culprit, whose own route is a least-weight one. */
  lemma CapturedHop(m: Mesh, t: Search, s: Trace, u: int, v: int)
    requires WellFormed(m) && Traced(m, t, s) && s.stage == Lost(u, v)
    ensures 0 < v < |m.names| && t.visited[v] && Overflows(m, u, v)
    ensures FirstHopTo(WeightsOf(m), m.names[0], m.names[FirstHop(m, t, s, v)], m.names[u])
  {
    assert RootedAt(m, t, s.rank, s.count, v) && RootedAt(m, t, s.rank, s.count, 0);
    DistSelf(WeightsOf(m), m.names[0]);
    FirstHopIsLeast(m, t, s, u);
  }

  /** The matrix as it was configured. */
  ghost function Initial(m: Mesh): Mesh
    requires WellFormed(m)
  {
    Mesh(m.names, seq(|m.links|, i requires 0 <= i < |m.links| =>
      seq(|m.links[i]|, j requires 0 <= j < |m.links[i]| => m.links[i][j].(weight := m.links[i][j].initWeight))))
  }

  function WithWeight(links: seq<seq<Line>>, i: int, j: int, weight: int32): seq<seq<Line>>
    requires 0 <= i < |links| && 0 <= j < |links[i]|
  {
    links[i := links[i][j := links[i][j].(weight := weight)]]
  }

  /** Setting one cell changes the graph on that ordered pair only. */
  lemma CellUpdated(m: Mesh, i: int, j: int, weight: int32, m': Mesh)
    requires WellFormed(m) && 0 <= i < |m.names| && 0 <= j < |m.names|
    requires m' == Mesh(m.names, WithWeight(m.links, i, j, weight))
    ensures WellFormed(m') && Initial(m') == Initial(m)
    ensures WeightsOf(m') == if i == j then WeightsOf(m) else WeightsOf(m)[(m.names[i], m.names[j]) := weight]
  {
    InitialKept(m, m'.links, i, j, weight);
    CellWeight(m, i, j);
    var w, w' := WeightsOf(m), WeightsOf(m');
    var expected := if i == j then w else w[(m.names[i], m.names[j]) := weight];
    assert expected.Keys == w.Keys == w'.Keys;
    forall k | k in w' ensures w'[k] == expected[k] {
      CellUpdatedAt(m, i, j, weight, m', Index(m.names, k.0), Index(m.names, k.1));
    }
    SameMap(w', expected);
  }

  lemma SameMap(v: Weights, w: Weights)
    requires v.Keys == w.Keys && forall k :: k in v ==> v[k] == w[k]
    ensures v == w
  {
  }

  lemma CellUpdatedAt(m: Mesh, i: int, j: int, weight: int32, m': Mesh, x: int, y: int)
    requires WellFormed(m) && WellFormed(m') && 0 <= i < |m.names| && 0 <= j < |m.names|
    requires m' == Mesh(m.names, WithWeight(m.links, i, j, weight))
    requires 0 <= x < |m.names| && 0 <= y < |m.names| && x != y
    ensures (m.names[x], m.names[y]) in WeightsOf(m) && (m.names[x], m.names[y]) in WeightsOf(m')
    ensures WeightsOf(m')[(m.names[x], m.names[y])] ==
      if x == i && y == j then weight as int else WeightsOf(m)[(m.names[x], m.names[y])]
  {
    CellWeight(m, x, y);
    CellWeight(m', x, y);
  }

  lemma InitialKept(m: Mesh, links: seq<seq<Line>>, i: int, j: int, weight: int32)
    requires WellFormed(m) && 0 <= i < |m.names| && 0 <= j < |m.names|
    requires links == WithWeight(m.links, i, j, weight)
    ensures WellFormed(Mesh(m.names, links)) && Initial(Mesh(m.names, links)) == Initial(m)
  {
    var a, b := Initial(Mesh(m.names, links)).links, Initial(m).links;
    forall x | 0 <= x < |a| ensures a[x] == b[x] {
      forall y | 0 <= y < |a[x]| ensures a[x][y] == b[x][y] {
      }
    }
  }

  lemma CellWeight(m: Mesh, i: int, j: int)
    requires WellFormed(m) && 0 <= i < |m.names| && 0 <= j < |m.names|
    ensures i != j ==> (m.names[i], m.names[j]) in WeightsOf(m)
    ensures i != j ==> WeightsOf(m)[(m.names[i], m.names[j])] == m.links[i][j].weight
  {
    assert Index(m.names, m.names[i]) == i && Index(m.names, m.names[j]) == j;
  }

  lemma SameInitialWeight(m: Mesh, m': Mesh, i: int, j: int)
    requires WellFormed(m) && WellFormed(m') && Initial(m) == Initial(m')
    requires 0 <= i < |m.names| && 0 <= j < |m.names|
    ensures m.names == m'.names
    ensures m.links[i][j].initWeight == m'.links[i][j].initWeight
    ensures m.links[i][j].segment == m'.links[i][j].segment
  {
    assert Initial(m).links[i][j] == Initial(m').links[i][j];
  }

  /** The graph as it was configured. */
  ghost function InitialWeights(m: Mesh): Weights
    requires WellFormed(m)
  {
    WeightsOf(Initial(m))
  }

  lemma InitialCell(m: Mesh, i: int, j: int)
    requires WellFormed(m) && 0 <= i < |m.names| && 0 <= j < |m.names| && i != j
    ensures Weight(InitialWeights(m), m.names[i], m.names[j]) == m.links[i][j].initWeight
  {
    CellWeight(Initial(m), i, j);
  }
}
