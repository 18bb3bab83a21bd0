/** Weighted graphs over host names, as every host of the mesh sees them.

    A pair of names carries a weight; a weight that is not positive means
    "no link". Paths, their weights and the least weight between two names are
    defined here without reference to any algorithm.
 */
module Graphs {
  import opened Basics

  type Weights = map<(string, string), int>

  function Weight(w: Weights, a: string, b: string): int {
    if (a, b) in w then w[(a, b)] else 0
  }

  /** Both directions of one link get a weight. */
  function SetBoth(w: Weights, a: string, b: string, weight: int): Weights {
    if a == b then w else w[(a, b) := weight][(b, a) := weight]
  }

  /** Both directions of one link get their initial weights. */
  function RestoreBoth(w: Weights, initial: Weights, a: string, b: string): Weights {
    if a == b then w else w[(a, b) := Weight(initial, a, b)][(b, a) := Weight(initial, b, a)]
  }

  /** `p` lists the hosts of a path from `a` to `b` over links of positive weight. */
  predicate IsPath(w: Weights, p: seq<string>, a: string, b: string) {
    && p != []
    && p[|p| - 1] == b
    && if |p| == 1 then a == b
       else Weight(w, p[|p| - 2], b) > 0 && IsPath(w, p[..|p| - 1], a, p[|p| - 2])
  }

  function PathWeight(w: Weights, p: seq<string>): int {
    if |p| <= 1 then 0
    else PathWeight(w, p[..|p| - 1]) + Weight(w, p[|p| - 2], p[|p| - 1])
  }

  ghost predicate IsLeast(w: Weights, a: string, b: string, d: int) {
    && (exists p :: IsPath(w, p, a, b) && PathWeight(w, p) == d)
    && (forall p :: IsPath(w, p, a, b) ==> PathWeight(w, p) >= d)
  }

  /** The least weight of a path from `a` to `b`, or INT_MAX when no path is lighter than that. */
  ghost function Dist(w: Weights, a: string, b: string): int {
    if exists d :: d < INT_MAX && IsLeast(w, a, b, d)
    then var d :| d < INT_MAX && IsLeast(w, a, b, d); d
    else INT_MAX
  }

  /** `h` is the first hop of a least-weight path from `a` to `d`. */
  ghost predicate FirstHopTo(w: Weights, a: string, h: string, d: string) {
    && Weight(w, a, h) > 0
    && Dist(w, a, d) < INT_MAX
    && Weight(w, a, h) + Dist(w, h, d) == Dist(w, a, d)
  }

  lemma {:induction false} PathWeightBound(w: Weights, p: seq<string>, a: string, b: string)
    requires IsPath(w, p, a, b)
    ensures PathWeight(w, p) >= |p| - 1
    ensures a != b ==> PathWeight(w, p) >= 1
    decreases |p|
  {
    if |p| > 1 {
      PathWeightBound(w, p[..|p| - 1], a, p[|p| - 2]);
    }
  }

  lemma {:induction false} PathSnoc(w: Weights, p: seq<string>, a: string, b: string, c: string)
    requires IsPath(w, p, a, b) && Weight(w, b, c) > 0
    ensures IsPath(w, p + [c], a, c)
    ensures PathWeight(w, p + [c]) == PathWeight(w, p) + Weight(w, b, c)
  {
    var q := p + [c];
    assert q[..|q| - 1] == p;
  }

  lemma {:induction false} PathConcat(w: Weights, p: seq<string>, q: seq<string>, a: string, m: string, b: string)
    requires IsPath(w, p, a, m) && IsPath(w, q, m, b)
    ensures IsPath(w, p + q[1..], a, b)
    ensures PathWeight(w, p + q[1..]) == PathWeight(w, p) + PathWeight(w, q)
    decreases |q|
  {
    if |q| == 1 {
      assert p + q[1..] == p;
    } else {
      var r := q[..|q| - 1];
      PathConcat(w, p, r, a, m, q[|q| - 2]);
      PathSnoc(w, p + r[1..], a, q[|q| - 2], b);
      assert p + q[1..] == p + r[1..] + [b];
    }
  }

  lemma {:induction false} PathCons(w: Weights, a: string, h: string, q: seq<string>, b: string)
    requires Weight(w, a, h) > 0 && IsPath(w, q, h, b)
    ensures IsPath(w, [a] + q, a, b)
    ensures PathWeight(w, [a] + q) == Weight(w, a, h) + PathWeight(w, q)
  {
    assert IsPath(w, [a], a, a);
    PathSnoc(w, [a], a, a, h);
    assert [a] + [h] == [a, h];
    PathConcat(w, [a, h], q, a, h, b);
    FirstIsSource(w, q, h, b);
    assert [a, h] + q[1..] == [a] + q;
  }

  lemma {:induction false} FirstIsSource(w: Weights, p: seq<string>, a: string, b: string)
    requires IsPath(w, p, a, b)
    ensures p[0] == a
    decreases |p|
  {
    if |p| > 1 {
      FirstIsSource(w, p[..|p| - 1], a, p[|p| - 2]);
    }
  }

  /** Weights are never negative along a path, so a lightest path exists. */
  lemma {:induction false} LeastExists(w: Weights, p: seq<string>, a: string, b: string) returns (d: int)
    requires IsPath(w, p, a, b)
    ensures IsLeast(w, a, b, d) && d <= PathWeight(w, p)
    decreases PathWeight(w, p)
  {
    PathWeightBound(w, p, a, b);
    if q :| IsPath(w, q, a, b) && PathWeight(w, q) < PathWeight(w, p) {
      PathWeightBound(w, q, a, b);
      d := LeastExists(w, q, a, b);
    } else {
      d := PathWeight(w, p);
    }
  }

  /** `Dist` is a lower bound of all paths and is attained whenever it is below INT_MAX. */
  lemma {:induction false} DistMeaning(w: Weights, a: string, b: string)
    ensures 0 <= Dist(w, a, b) <= INT_MAX
    ensures Dist(w, a, b) < INT_MAX ==> IsLeast(w, a, b, Dist(w, a, b))
    ensures forall p :: IsPath(w, p, a, b) ==> Dist(w, a, b) <= PathWeight(w, p)
  {
    forall p | IsPath(w, p, a, b) ensures Dist(w, a, b) <= PathWeight(w, p) {
      if PathWeight(w, p) < INT_MAX {
        var d := LeastExists(w, p, a, b);
      }
    }
    if Dist(w, a, b) < INT_MAX {
      var p :| IsPath(w, p, a, b) && PathWeight(w, p) == Dist(w, a, b);
      PathWeightBound(w, p, a, b);
    }
  }

  lemma {:induction false} DistSelf(w: Weights, a: string)
    ensures Dist(w, a, a) == 0
  {
    DistMeaning(w, a, a);
    assert IsPath(w, [a], a, a) && PathWeight(w, [a]) == 0;
  }

  /** A path that splits after its first link into `h` and is least makes `h` a first hop. */
  lemma {:induction false} FirstHopFromPath(w: Weights, a: string, h: string, d: string, q: seq<string>)
    requires Weight(w, a, h) > 0 && IsPath(w, q, h, d)
    requires Dist(w, a, d) < INT_MAX && Weight(w, a, h) + PathWeight(w, q) == Dist(w, a, d)
    ensures FirstHopTo(w, a, h, d)
  {
    DistMeaning(w, h, d);
    DistMeaning(w, a, d);
    PathWeightBound(w, q, h, d);
    assert Dist(w, h, d) <= PathWeight(w, q) < INT_MAX;
    var r :| IsPath(w, r, h, d) && PathWeight(w, r) == Dist(w, h, d);
    PathCons(w, a, h, r, d);
  }

  lemma DistExtends(w: Weights, a: string, b: string, c: string)
    requires Weight(w, b, c) > 0 && Dist(w, a, b) < INT_MAX
    ensures Dist(w, a, c) <= Dist(w, a, b) + Weight(w, b, c)
  {
    DistMeaning(w, a, b);
    DistMeaning(w, a, c);
    var p :| IsPath(w, p, a, b) && PathWeight(w, p) == Dist(w, a, b);
    PathSnoc(w, p, a, b, c);
  }

  /** A least-weight path is least up to its last link. */
  lemma LastLink(w: Weights, a: string, b: string) returns (c: string)
    requires a != b && Dist(w, a, b) < INT_MAX
    ensures Weight(w, c, b) > 0 && Dist(w, a, b) == Dist(w, a, c) + Weight(w, c, b)
  {
    DistMeaning(w, a, b);
    var p :| IsPath(w, p, a, b) && PathWeight(w, p) == Dist(w, a, b);
    c := p[|p| - 2];
    PathWeightBound(w, p[..|p| - 1], a, c);
    DistMeaning(w, a, c);
    DistExtends(w, a, c, b);
  }

  /** No link lets the level grow by more than its weight. */
  predicate Rises(w: Weights, level: map<string, int>) {
    forall k :: k in w && w[k] > 0 ==> k.0 in level && k.1 in level && level[k.1] <= level[k.0] + w[k]
  }

  lemma {:induction false} LevelBound(w: Weights, level: map<string, int>, p: seq<string>, a: string, b: string)
    requires Rises(w, level) && IsPath(w, p, a, b) && a in level
    ensures b in level && PathWeight(w, p) >= level[b] - level[a]
    decreases |p|
  {
    if |p| > 1 {
      LevelBound(w, level, p[..|p| - 1], a, p[|p| - 2]);
      assert (p[|p| - 2], b) in w;
    }
  }

  /** Such levels bound distances from below. */
  lemma DistAtLeast(w: Weights, level: map<string, int>, a: string, b: string)
    requires Rises(w, level) && a in level && b in level && level[b] - level[a] <= INT_MAX
    ensures Dist(w, a, b) >= level[b] - level[a]
  {
    DistMeaning(w, a, b);
    if Dist(w, a, b) < INT_MAX {
      var p :| IsPath(w, p, a, b) && PathWeight(w, p) == Dist(w, a, b);
      LevelBound(w, level, p, a, b);
    }
  }
}
