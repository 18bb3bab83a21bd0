/** Failing a link gives it the weight INT_MAX - 1 (Map::setMaxWeight), and the
    route search adds that weight to a distance in 32 bits (Map.cpp:99). When the
    near end of the link is two or more away the sum overflows, and so does the
    sum of a host that is reached over a failed link and its next link.
 */
module Failover {
  import opened Basics
  import opened Graphs
  import opened ShortestPaths
  import HostMaps

  /** Relaxing a failed link overflows exactly when its near end is at least 2 away. */
  lemma FailedLinkOverflowsIff(m: Mesh, u: int, v: int)
    requires WellFormed(m) && 0 <= u < |m.names| && 0 <= v < |m.names| && u != v
    requires Link(m, u, v) == INT_MAX - 1 && Sooner(m, u, v)
    ensures Overflows(m, u, v) <==> 2 <= D(m, u) < INT_MAX
  {
  }

  /* ---- when a failure is harmless ---- */

  /** The failed link is out of the way: the host on it that is settled first is no more than one
      away, or out of reach. */
  ghost predicate NearOrUnreached(m: Mesh, u: int, v: int)
    requires WellFormed(m) && 0 <= u < |m.names| && 0 <= v < |m.names|
  {
    u != v && Link(m, u, v) == INT_MAX - 1 && Sooner(m, u, v) ==> D(m, u) <= 1 || D(m, u) == INT_MAX
  }

  /** Behind a host that is reached over a failed link only, links to hosts not yet settled weigh 1. */
  ghost predicate LightBehind(m: Mesh, u: int, v: int)
    requires WellFormed(m) && 0 <= u < |m.names| && 0 <= v < |m.names|
  {
    u != v && D(m, u) == INT_MAX - 1 && Sooner(m, u, v) ==> Link(m, u, v) <= 1
  }

  ghost predicate AllNear(m: Mesh)
    requires WellFormed(m)
  {
    forall u, v :: 0 <= u < |m.names| && 0 <= v < |m.names| ==> NearOrUnreached(m, u, v)
  }

  ghost predicate AllLight(m: Mesh)
    requires WellFormed(m)
  {
    forall u, v :: 0 <= u < |m.names| && 0 <= v < |m.names| ==> LightBehind(m, u, v)
  }

  /** Links weigh at most `small`, unless they have failed. */
  ghost predicate SmallOrFailed(m: Mesh, small: int)
    requires WellFormed(m)
  {
    forall u, v :: 0 <= u < |m.names| && 0 <= v < |m.names| && u != v ==>
      Link(m, u, v) <= small || Link(m, u, v) == INT_MAX - 1
  }

  /** No sum without a failed link overflows. */
  ghost predicate HasRoom(m: Mesh, small: int)
    requires WellFormed(m)
  {
    forall u :: 0 <= u < |m.names| && D(m, u) < INT_MAX - 1 ==> D(m, u) + small <= INT_MAX
  }

  /** When the weights other than those of failed links are too small to overflow, the search is safe
      exactly when every failed link has its nearer end at most one away (or out of reach), and only
      links of weight 1 lead on from a host that is reached over a failed link. */
  lemma SafeIffFailuresNear(m: Mesh, small: int)
    requires WellFormed(m) && SmallOrFailed(m, small) && HasRoom(m, small)
    ensures Safe(m) <==> AllNear(m) && AllLight(m)
  {
    forall u, v | 0 <= u < |m.names| && 0 <= v < |m.names|
      ensures Overflows(m, u, v) <==> !(NearOrUnreached(m, u, v) && LightBehind(m, u, v))
    {
      DistMeaning(WeightsOf(m), m.names[0], m.names[u]);
      assert u != v ==> Link(m, u, v) <= small || Link(m, u, v) == INT_MAX - 1;
    }
  }

  ghost function Nearer(m: Mesh, i: int): set<int>
    requires WellFormed(m) && 0 <= i < |m.names|
  {
    set j | 0 <= j < |m.names| && D(m, j) < D(m, i)
  }

  /** The row before the last link of a least-weight path. */
  lemma Predecessor(m: Mesh, i: int) returns (k: int)
    requires WellFormed(m) && 0 < i < |m.names| && D(m, i) < INT_MAX
    ensures 0 <= k < |m.names| && k != i && Link(m, k, i) > 0
    ensures 0 <= D(m, k) && D(m, i) == D(m, k) + Link(m, k, i)
  {
    var w := WeightsOf(m);
    var c := LastLink(w, m.names[0], m.names[i]);
    LinkedNames(m, c, m.names[i]);
    k := Index(m.names, c);
    DistMeaning(w, m.names[0], c);
    WeightAt(m, k, i);
  }

  /** A host is no farther than one small weight for each host that is nearer. */
  ghost predicate Within(m: Mesh, small: int, i: int)
    requires WellFormed(m) && 0 <= i < |m.names|
  {
    D(m, i) <= small * |Nearer(m, i)|
  }

  /** That is so without a failed link. */
  lemma {:induction false} SmallDistance(m: Mesh, small: int, i: int)
    requires WellFormed(m) && SmallOrFailed(m, small) && small >= 0
    requires 0 <= i < |m.names| && D(m, i) < INT_MAX - 1
    ensures Within(m, small, i)
    decreases D(m, i)
  {
    DistMeaning(WeightsOf(m), m.names[0], m.names[i]);
    if i == 0 {
      DistSelf(WeightsOf(m), m.names[0]);
      NotNegative(small, |Nearer(m, 0)|);
    } else {
      var k := Predecessor(m, i);
      assert Link(m, k, i) <= small;
      SmallDistance(m, small, k);
      WithinStep(m, small, k, i);
    }
  }

  lemma WithinStep(m: Mesh, small: int, k: int, i: int)
    requires WellFormed(m) && 0 <= k < |m.names| && 0 <= i < |m.names| && small >= 0
    requires D(m, k) < D(m, i) <= D(m, k) + small && Within(m, small, k)
    ensures Within(m, small, i)
  {
    NearerGrows(m, k, i);
    Scaled(small, |Nearer(m, k)| + 1, |Nearer(m, i)|);
  }

  lemma Scaled(small: int, x: int, y: int)
    requires small >= 0 && x <= y
    ensures small * (x - 1) + small == small * x <= small * y
  {
  }

  lemma NotNegative(small: int, x: nat)
    requires small >= 0
    ensures small * x >= 0
  {
  }

  lemma FullScale(small: int, nearer: nat, n: nat, distance: int)
    requires small >= 0 && nearer < n && distance <= small * nearer
    ensures distance + small <= small * n
  {
    Scaled(small, nearer + 1, n);
  }

  lemma NearerGrows(m: Mesh, k: int, i: int)
    requires WellFormed(m) && 0 <= k < |m.names| && 0 <= i < |m.names| && D(m, k) < D(m, i)
    ensures |Nearer(m, k)| + 1 <= |Nearer(m, i)|
  {
    SubsetSize(Nearer(m, k) + {k}, Nearer(m, i));
  }

  lemma SubsetSize(a: set<int>, b: set<int>)
    requires a <= b
    ensures |a| <= |b|
  {
    assert b == a + (b - a);
  }

  function Rows(n: nat): set<int> {
    if n == 0 then {} else Rows(n - 1) + {n - 1}
  }

  lemma {:induction false} RowsAre(n: nat)
    ensures |Rows(n)| == n && forall j :: j in Rows(n) <==> 0 <= j < n
  {
    if n > 0 {
      RowsAre(n - 1);
    }
  }

  /** It is enough that the weights, one for each host, fit 32 bits together. */
  lemma SmallWeightsFit(m: Mesh, small: int)
    requires WellFormed(m) && SmallOrFailed(m, small) && small >= 0 && small * |m.names| <= INT_MAX
    ensures HasRoom(m, small)
    ensures Safe(m) <==> AllNear(m) && AllLight(m)
  {
    forall u | 0 <= u < |m.names| && D(m, u) < INT_MAX - 1 ensures D(m, u) + small <= INT_MAX {
      SmallDistance(m, small, u);
      RowsAre(|m.names|);
      SubsetSize(Nearer(m, u) + {u}, Rows(|m.names|));
      FullScale(small, |Nearer(m, u)|, |m.names|, D(m, u));
    }
    SafeIffFailuresNear(m, small);
  }

  /** The sum for a link overflows and its near end is not farther than its far end. */
  ghost predicate Exceeds(w: Weights, local: string, x: string, y: string) {
    && Weight(w, x, y) > 0 && Dist(w, local, x) < INT_MAX && Dist(w, local, x) + Weight(w, x, y) > INT_MAX
    && Dist(w, local, x) <= Dist(w, local, y)
  }

  /** Overflow told by names: it takes such a link, and such a link overflows one way or the other. */
  lemma OverflowByName(m: Mesh, u: int, v: int)
    requires WellFormed(m) && 0 <= u < |m.names| && 0 <= v < |m.names|
    ensures Overflows(m, u, v) ==> Exceeds(WeightsOf(m), m.names[0], m.names[u], m.names[v])
    ensures Exceeds(WeightsOf(m), m.names[0], m.names[u], m.names[v]) && (D(m, u) < D(m, v) || u < v) ==>
      Overflows(m, u, v)
  {
    if u != v {
      WeightAt(m, u, v);
    } else {
      assert (m.names[u], m.names[u]) !in WeightsOf(m);
    }
  }

  /** Sums overflow, and only for the link from `near` to `dest`. */
  ghost predicate Captures(m: Mesh, near: string, dest: string)
    requires WellFormed(m)
  {
    && !Safe(m)
    && forall u, v :: 0 <= u < |m.names| && 0 <= v < |m.names| && Overflows(m, u, v) ==>
         m.names[u] == near && m.names[v] == dest
  }

  /** Every least-weight path from one host to the other starts at `next`. */
  ghost predicate OnlyHop(w: Weights, host: string, next: string, dest: string) {
    forall h :: FirstHopTo(w, host, h, dest) ==> h == next
  }

  /* ---- a failed link that captures the traffic of a healthy one ---- */

  predicate Between(x: string, y: string, a: string, b: string) {
    (x == a && y == b) || (x == b && y == a)
  }

  /** Weights of a line a - b - c - d plus a direct link a - d, after c - d failed. */
  function LineWeight(a: string, b: string, c: string, d: string, far: int, x: string, y: string): int {
    if Between(x, y, a, b) || Between(x, y, b, c) then 1
    else if Between(x, y, c, d) then INT_MAX - 1
    else if Between(x, y, a, d) then far
    else 0
  }

  /** The direct link is slower than the way to c. */
  ghost predicate LineMesh(w: Weights, a: string, b: string, c: string, d: string, far: int) {
    && a != b && a != c && a != d && b != c && b != d && c != d
    && 3 <= far <= INT_MAX - 3
    && forall x, y :: Weight(w, x, y) == LineWeight(a, b, c, d, far, x, y)
  }

  lemma LineLinks(w: Weights, a: string, b: string, c: string, d: string, far: int)
    requires LineMesh(w, a, b, c, d, far)
    ensures Weight(w, a, b) == 1 && Weight(w, c, d) == INT_MAX - 1
  {
  }

  /** The distances from a and from b, and a bound from c. */
  lemma LineDistances(w: Weights, a: string, b: string, c: string, d: string, far: int)
    requires LineMesh(w, a, b, c, d, far)
    ensures Dist(w, a, a) == 0 && Dist(w, a, b) == 1 && Dist(w, a, c) == 2 && Dist(w, a, d) == far
    ensures Dist(w, b, a) == 1 && Dist(w, b, b) == 0 && Dist(w, b, c) == 1 && Dist(w, b, d) == far + 1
    ensures Dist(w, c, d) >= far + 2
  {
    LineAtMost(w, a, b, c, d, far);
    LineAtLeast(w, a, b, c, d, far, a, 0, 1, 2, far);
    LineAtLeast(w, a, b, c, d, far, b, 1, 0, 1, far + 1);
    LineAtLeast(w, a, b, c, d, far, c, 2, 1, 0, far + 2);
  }

  lemma LineAtMost(w: Weights, a: string, b: string, c: string, d: string, far: int)
    requires LineMesh(w, a, b, c, d, far)
    ensures Dist(w, a, a) == 0 && Dist(w, a, b) <= 1 && Dist(w, a, c) <= 2 && Dist(w, a, d) <= far
    ensures Dist(w, b, b) == 0 && Dist(w, b, a) <= 1 && Dist(w, b, c) <= 1 && Dist(w, b, d) <= far + 1
  {
    assert Weight(w, a, b) == 1 && Weight(w, b, a) == 1 && Weight(w, b, c) == 1 && Weight(w, a, d) == far;
    DistSelf(w, a);
    DistExtends(w, a, a, b);
    DistExtends(w, a, b, c);
    DistExtends(w, a, a, d);
    DistSelf(w, b);
    DistExtends(w, b, b, a);
    DistExtends(w, b, b, c);
    DistExtends(w, b, a, d);
  }

  lemma LineAtLeast(w: Weights, a: string, b: string, c: string, d: string, far: int, from: string,
                    la: int, lb: int, lc: int, ld: int)
    requires LineMesh(w, a, b, c, d, far)
    requires 0 <= la <= INT_MAX && 0 <= lb <= INT_MAX && 0 <= lc <= INT_MAX && 0 <= ld <= INT_MAX
    requires (from == a && la == 0) || (from == b && lb == 0) || (from == c && lc == 0)
    requires -1 <= la - lb <= 1 && -1 <= lb - lc <= 1 && -far <= la - ld <= far && -INT_MAX < lc - ld < INT_MAX
    ensures Dist(w, from, a) >= la && Dist(w, from, b) >= lb && Dist(w, from, c) >= lc && Dist(w, from, d) >= ld
  {
    var level := map[a := la, b := lb, c := lc, d := ld];
    forall k | k in w && w[k] > 0
      ensures k.0 in level && k.1 in level && level[k.1] <= level[k.0] + w[k]
    {
      assert Weight(w, k.0, k.1) == w[k];
    }
    DistAtLeast(w, level, from, a);
    DistAtLeast(w, level, from, b);
    DistAtLeast(w, level, from, c);
    DistAtLeast(w, level, from, d);
  }

  lemma LineExceeds(w: Weights, a: string, b: string, c: string, d: string, far: int, x: string, y: string)
    requires LineMesh(w, a, b, c, d, far)
    ensures Exceeds(w, a, x, y) <==> x == c && y == d
  {
    LineDistances(w, a, b, c, d, far);
    assert Weight(w, x, y) == LineWeight(a, b, c, d, far, x, y);
  }

  lemma LineFits(w: Weights, a: string, b: string, c: string, d: string, far: int, x: string, y: string)
    requires LineMesh(w, a, b, c, d, far)
    ensures !Exceeds(w, b, x, y)
  {
    LineDistances(w, a, b, c, d, far);
    assert Weight(w, x, y) == LineWeight(a, b, c, d, far, x, y);
  }

  /** At a the search overflows on the failed link, and only there. */
  lemma LineOverflow(m: Mesh, a: string, b: string, c: string, d: string, far: int, u: int, v: int)
    requires WellFormed(m) && LineMesh(WeightsOf(m), a, b, c, d, far) && m.names[0] == a
    requires 0 <= u < |m.names| && 0 <= v < |m.names|
    ensures Overflows(m, u, v) <==> m.names[u] == c && m.names[v] == d
  {
    OverflowByName(m, u, v);
    LineExceeds(WeightsOf(m), a, b, c, d, far, m.names[u], m.names[v]);
    LineDistances(WeightsOf(m), a, b, c, d, far);
  }

  /** From a the way to c starts at b, and from b the way to d starts at a. */
  lemma LineHops(w: Weights, a: string, b: string, c: string, d: string, far: int, h: string)
    requires LineMesh(w, a, b, c, d, far)
    ensures FirstHopTo(w, a, h, c) ==> h == b
    ensures FirstHopTo(w, b, h, d) ==> h == a
    ensures FirstHopTo(w, a, d, d)
  {
    LineDistances(w, a, b, c, d, far);
    DistMeaning(w, h, c);
    DistSelf(w, d);
    assert Weight(w, a, h) == LineWeight(a, b, c, d, far, a, h);
    assert Weight(w, b, h) == LineWeight(a, b, c, d, far, b, h);
    assert Weight(w, a, d) == far;
  }

  /** At a the failed link captures the traffic for d. */
  lemma LineAtA(m: Mesh, a: string, b: string, c: string, d: string, far: int)
    requires WellFormed(m) && LineMesh(WeightsOf(m), a, b, c, d, far) && m.names[0] == a
    requires c in m.names && d in m.names
    ensures Captures(m, c, d) && OnlyHop(WeightsOf(m), a, b, c)
  {
    LineOverflow(m, a, b, c, d, far, Index(m.names, c), Index(m.names, d));
    forall u, v | 0 <= u < |m.names| && 0 <= v < |m.names| && Overflows(m, u, v)
      ensures m.names[u] == c && m.names[v] == d
    {
      LineOverflow(m, a, b, c, d, far, u, v);
    }
    forall h | FirstHopTo(WeightsOf(m), a, h, c) ensures h == b {
      LineHops(WeightsOf(m), a, b, c, d, far, h);
    }
  }

  /** At b the search is safe, and the traffic for d has to go back to a. */
  lemma LineAtB(m: Mesh, a: string, b: string, c: string, d: string, far: int)
    requires WellFormed(m) && LineMesh(WeightsOf(m), a, b, c, d, far) && m.names[0] == b
    ensures Safe(m) && OnlyHop(WeightsOf(m), b, a, d) && Dist(WeightsOf(m), b, d) < INT_MAX
  {
    forall u, v | 0 <= u < |m.names| && 0 <= v < |m.names| ensures !Overflows(m, u, v) {
      OverflowByName(m, u, v);
      LineFits(WeightsOf(m), a, b, c, d, far, m.names[u], m.names[v]);
    }
    forall h | FirstHopTo(WeightsOf(m), b, h, d) ensures h == a {
      LineHops(WeightsOf(m), a, b, c, d, far, h);
    }
    LineDistances(WeightsOf(m), a, b, c, d, far);
  }

  /** In that mesh host a has a healthy direct link to d, yet every table that getRoute can return
      sends traffic for d to b, towards the failed link. */
  lemma FailoverMisroutes(m: Mesh, s2i: seq<map<int, string>>, route: map<string, (string, string)>,
                          a: string, b: string, c: string, d: string, far: int)
    requires WellFormed(m) && LineMesh(WeightsOf(m), a, b, c, d, far) && m.names[0] == a
    requires b in m.names && c in m.names && d in m.names
    requires |s2i| == |m.names| && HostMaps.IsRoute(m, s2i, route)
    ensures !Safe(m) && FirstHopTo(WeightsOf(m), a, d, d)
    ensures d in route && route[d] == HostMaps.ExitTo(m, s2i, Index(m.names, b))
  {
    LineAtA(m, a, b, c, d, far);
    assert HostMaps.Misroutes(m, s2i, route);
    CapturedExit(m, s2i, route, b, c, d);
    LineHops(WeightsOf(m), a, b, c, d, far, b);
  }

  lemma CapturedExit(m: Mesh, s2i: seq<map<int, string>>, route: map<string, (string, string)>,
                     next: string, near: string, dest: string)
    requires WellFormed(m) && |s2i| == |m.names| && HostMaps.Misroutes(m, s2i, route)
    requires next in m.names && Captures(m, near, dest) && OnlyHop(WeightsOf(m), m.names[0], next, near)
    ensures dest in route && route[dest] == HostMaps.ExitTo(m, s2i, Index(m.names, next))
  {
    var u, v, h := HostMaps.MisroutedHop(m, s2i, route);
    RowOfName(m, h);
  }

  lemma RowOfName(m: Mesh, h: int)
    requires WellFormed(m) && 0 <= h < |m.names|
    ensures Index(m.names, m.names[h]) == h
  {
  }

  /* ---- a host whose links have all failed ---- */

  /** Weights of three hosts after both links of b have failed. */
  function CutWeight(a: string, b: string, c: string, rest: int, x: string, y: string): int {
    if Between(x, y, a, b) || Between(x, y, b, c) then INT_MAX - 1
    else if Between(x, y, a, c) then rest
    else 0
  }

  ghost predicate CutOff(w: Weights, a: string, b: string, c: string, rest: int) {
    && a != b && a != c && b != c && 1 <= rest < INT_MAX - 1
    && forall x, y :: Weight(w, x, y) == CutWeight(a, b, c, rest, x, y)
  }

  lemma CutOffSymmetric(w: Weights, a: string, b: string, c: string, rest: int)
    requires CutOff(w, a, b, c, rest)
    ensures CutOff(w, c, b, a, rest)
  {
    forall x, y ensures Weight(w, x, y) == CutWeight(c, b, a, rest, x, y) {
    }
  }

  lemma CutLinks(w: Weights, a: string, b: string, c: string, rest: int)
    requires CutOff(w, a, b, c, rest)
    ensures Weight(w, a, b) == INT_MAX - 1 && Weight(w, a, c) == rest
  {
  }

  lemma CutRises(w: Weights, a: string, b: string, c: string, rest: int, level: map<string, int>)
    requires CutOff(w, a, b, c, rest) && {a, b, c} <= level.Keys
    requires -rest <= level[a] - level[c] <= rest
    requires -INT_MAX < level[a] - level[b] < INT_MAX && -INT_MAX < level[c] - level[b] < INT_MAX
    ensures Rises(w, level)
  {
    forall k | k in w && w[k] > 0
      ensures k.0 in level && k.1 in level && level[k.1] <= level[k.0] + w[k]
    {
      assert Weight(w, k.0, k.1) == w[k];
    }
  }

  lemma CutDistances(w: Weights, a: string, b: string, c: string, rest: int)
    requires CutOff(w, a, b, c, rest)
    ensures Dist(w, a, a) == 0 && Dist(w, a, c) == rest && Dist(w, a, b) == INT_MAX - 1
    ensures Dist(w, b, b) == 0 && Dist(w, b, a) == INT_MAX - 1 && Dist(w, b, c) == INT_MAX - 1
  {
    assert Weight(w, a, c) == rest && Weight(w, a, b) == Weight(w, b, a) == Weight(w, b, c) == INT_MAX - 1;
    DistSelf(w, a);
    DistExtends(w, a, a, c);
    DistExtends(w, a, a, b);
    DistSelf(w, b);
    DistExtends(w, b, b, a);
    DistExtends(w, b, b, c);
    var from_a, from_b := map[a := 0, c := rest, b := INT_MAX - 1], map[a := INT_MAX - 1, c := INT_MAX - 1, b := 0];
    CutRises(w, a, b, c, rest, from_a);
    CutRises(w, a, b, c, rest, from_b);
    DistAtLeast(w, from_a, a, c);
    DistAtLeast(w, from_a, a, b);
    DistAtLeast(w, from_b, b, a);
    DistAtLeast(w, from_b, b, c);
  }

  /** No other host reaches the three. */
  lemma CutApart(w: Weights, a: string, b: string, c: string, rest: int, e: string)
    requires CutOff(w, a, b, c, rest) && e != a && e != b && e != c
    ensures Dist(w, e, a) >= INT_MAX && Dist(w, e, b) >= INT_MAX && Dist(w, e, c) >= INT_MAX
  {
    var level := map[e := 0, a := INT_MAX, b := INT_MAX, c := INT_MAX];
    CutRises(w, a, b, c, rest, level);
    DistAtLeast(w, level, e, a);
    DistAtLeast(w, level, e, b);
    DistAtLeast(w, level, e, c);
  }

  lemma CutExceeds(w: Weights, a: string, b: string, c: string, rest: int, x: string, y: string)
    requires CutOff(w, a, b, c, rest)
    ensures Exceeds(w, a, x, y) <==> x == c && y == b && rest >= 2
  {
    CutDistances(w, a, b, c, rest);
    assert Weight(w, x, y) == CutWeight(a, b, c, rest, x, y);
  }

  lemma CutExceedsBehind(w: Weights, a: string, b: string, c: string, rest: int, x: string, y: string)
    requires CutOff(w, a, b, c, rest)
    ensures Exceeds(w, b, x, y) <==> Between(x, y, a, c) && rest >= 2
  {
    CutDistances(w, a, b, c, rest);
    assert Weight(w, x, y) == CutWeight(a, b, c, rest, x, y);
  }

  /** At a the search overflows on the link from c to b, and only there, when c is two or more away. */
  lemma CutOverflow(m: Mesh, a: string, b: string, c: string, rest: int, u: int, v: int)
    requires WellFormed(m) && CutOff(WeightsOf(m), a, b, c, rest) && m.names[0] == a
    requires 0 <= u < |m.names| && 0 <= v < |m.names|
    ensures Overflows(m, u, v) <==> m.names[u] == c && m.names[v] == b && rest >= 2
  {
    OverflowByName(m, u, v);
    CutExceeds(WeightsOf(m), a, b, c, rest, m.names[u], m.names[v]);
    CutDistances(WeightsOf(m), a, b, c, rest);
  }

  lemma CutAtA(m: Mesh, a: string, b: string, c: string, rest: int)
    requires WellFormed(m) && CutOff(WeightsOf(m), a, b, c, rest) && m.names[0] == a
    requires c in m.names && b in m.names
    ensures Safe(m) <==> rest == 1
    ensures rest >= 2 ==> Captures(m, c, b) && OnlyHop(WeightsOf(m), a, c, c)
  {
    CutOverflow(m, a, b, c, rest, Index(m.names, c), Index(m.names, b));
    forall u, v | 0 <= u < |m.names| && 0 <= v < |m.names| && Overflows(m, u, v)
      ensures m.names[u] == c && m.names[v] == b && rest >= 2
    {
      CutOverflow(m, a, b, c, rest, u, v);
    }
    forall h | FirstHopTo(WeightsOf(m), a, h, c) ensures h == c {
      CutHops(WeightsOf(m), a, b, c, rest, h);
    }
  }

  /** At the host that is cut off it overflows behind the failed links, although their nearer end is
      the host itself. */
  lemma CutOffHost(m: Mesh, a: string, b: string, c: string, rest: int)
    requires WellFormed(m) && CutOff(WeightsOf(m), a, b, c, rest) && m.names[0] == b
    requires a in m.names && c in m.names
    ensures Safe(m) <==> rest == 1
    ensures AllNear(m)
  {
    forall u, v | 0 <= u < |m.names| && 0 <= v < |m.names|
      ensures NearOrUnreached(m, u, v) && (rest == 1 ==> !Overflows(m, u, v))
    {
      OverflowByName(m, u, v);
      CutExceedsBehind(WeightsOf(m), a, b, c, rest, m.names[u], m.names[v]);
      CutNear(m, a, b, c, rest, u, v);
    }
    var i, k := Index(m.names, a), Index(m.names, c);
    OverflowByName(m, i, k);
    OverflowByName(m, k, i);
    CutExceedsBehind(WeightsOf(m), a, b, c, rest, a, c);
    CutExceedsBehind(WeightsOf(m), a, b, c, rest, c, a);
    assert rest >= 2 ==> Overflows(m, i, k) || Overflows(m, k, i);
  }

  lemma CutNear(m: Mesh, a: string, b: string, c: string, rest: int, u: int, v: int)
    requires WellFormed(m) && CutOff(WeightsOf(m), a, b, c, rest) && m.names[0] == b
    requires 0 <= u < |m.names| && 0 <= v < |m.names|
    ensures NearOrUnreached(m, u, v)
  {
    CutDistances(WeightsOf(m), a, b, c, rest);
    if u != v && Link(m, u, v) == INT_MAX - 1 {
      WeightAt(m, u, v);
      assert Between(m.names[u], m.names[v], a, b) || Between(m.names[u], m.names[v], b, c);
    }
  }

  lemma CutApartSafe(m: Mesh, a: string, b: string, c: string, rest: int)
    requires WellFormed(m) && CutOff(WeightsOf(m), a, b, c, rest)
    requires m.names[0] != a && m.names[0] != b && m.names[0] != c
    ensures Safe(m)
  {
    var w := WeightsOf(m);
    CutApart(w, a, b, c, rest, m.names[0]);
    forall u, v | 0 <= u < |m.names| && 0 <= v < |m.names| ensures !Overflows(m, u, v) {
      OverflowByName(m, u, v);
      assert Weight(w, m.names[u], m.names[v]) == CutWeight(a, b, c, rest, m.names[u], m.names[v]);
    }
  }

  lemma CutHops(w: Weights, a: string, b: string, c: string, rest: int, h: string)
    requires CutOff(w, a, b, c, rest) && FirstHopTo(w, a, h, c)
    ensures h == c
  {
    CutDistances(w, a, b, c, rest);
    assert Weight(w, a, h) == CutWeight(a, b, c, rest, a, h);
    DistMeaning(w, h, c);
  }
}
